/**
 Evaluation on one node, and the same evaluation sharded over hosts by a hash of the problem id and
 merged again. Which problem finishes when, what each run produces and the hash are arbitrary.
 */
module ShardedEval {
  import opened Common
  import opened Groups

  type Id = string

  /** What evaluating a problem does: it is graded, or the evaluation raises. */
  datatype Outcome = Graded(resolved: bool, patch: string, turns: nat) | Crashed(message: string)

  datatype Row = Row(id: Id, resolved: bool, patch: string, turns: nat, error: string)

  datatype Prediction = Prediction(id: Id, patch: string)

  /** A crash is a row too: unresolved, without a patch. */
  function RowOf(run: Id -> Outcome, id: Id): Row {
    match run(id)
    case Graded(resolved, patch, turns) => Row(id, resolved, patch, turns, "")
    case Crashed(message) => Row(id, false, "", 0, message)
  }

  function Rows(run: Id -> Outcome, ids: seq<Id>): seq<Row> {
    seq(|ids|, k requires 0 <= k < |ids| => RowOf(run, ids[k]))
  }

  /** Later rows win, as in a dictionary filled in order. */
  function PredsOf(rows: seq<Row>): map<Id, Prediction> {
    if rows == [] then map[]
    else
      var last := rows[|rows| - 1];
      PredsOf(rows[..|rows| - 1])[last.id := Prediction(last.id, last.patch)]
  }

  function ResolvedWeight(r: Row): nat {
    if r.resolved then 1 else 0
  }

  function TurnsWeight(r: Row): nat {
    r.turns
  }

  datatype Summary = Summary(resolved: nat, total: nat, turns: nat)

  function SummaryOf(rows: seq<Row>): Summary {
    Summary(Total(rows, ResolvedWeight), |rows|, Total(rows, TurnsWeight))
  }

  // ---- One node ----

  /** Collect rows as problems complete, then fill the predictions. */
  method RunEval(completed: seq<Id>, run: Id -> Outcome) returns (results: seq<Row>, preds: map<Id, Prediction>)
    ensures results == Rows(run, completed) && preds == PredsOf(results)
  {
    results := [];
    for i := 0 to |completed|
      invariant results == Rows(run, completed[..i])
    {
      match run(completed[i]) {
        case Graded(resolved, patch, turns) => results := results + [Row(completed[i], resolved, patch, turns, "")];
        case Crashed(message) => results := results + [Row(completed[i], false, "", 0, message)];
      }
    }
    assert completed[..|completed|] == completed;
    preds := map[];
    for i := 0 to |results|
      invariant preds == PredsOf(results[..i])
    {
      assert results[..i + 1][..i] == results[..i];
      preds := preds[results[i].id := Prediction(results[i].id, results[i].patch)];
    }
    assert results[..|results|] == results;
  }

  // ---- Sharding ----

  function Bucketed(ids: seq<Id>, bucket: Id -> nat, i: nat): seq<Id> {
    if ids == [] then []
    else
      var last := ids[|ids| - 1];
      var init := Bucketed(ids[..|ids| - 1], bucket, i);
      if bucket(last) == i then init + [last] else init
  }

  function Bucket(hash: Id -> nat, n: nat): Id -> nat
    requires 0 < n
  {
    id => hash(id) % n
  }

  /** Split by hash. An empty data set and a missing id raise. */
  method Shard(ids: seq<Id>, hash: Id -> nat, n: nat) returns (r: Result<seq<seq<Id>>>)
    requires 0 < n
    ensures r.Raised? <==> ids == [] || "" in ids
    ensures r.Ok? ==> |r.value| == n && forall i :: 0 <= i < n ==> r.value[i] == Bucketed(ids, Bucket(hash, n), i)
  {
    if ids == [] || "" in ids {
      return Raised;
    }
    var shards: seq<seq<Id>> := [];
    for i := 0 to n
      invariant |shards| == i && forall k :: 0 <= k < i ==> shards[k] == Bucketed(ids, Bucket(hash, n), k)
    {
      var shard: seq<Id> := [];
      for k := 0 to |ids|
        invariant shard == Bucketed(ids[..k], Bucket(hash, n), i)
      {
        assert ids[..k + 1][..k] == ids[..k];
        if hash(ids[k]) % n == i {
          shard := shard + [ids[k]];
        }
      }
      assert ids[..|ids|] == ids;
      shards := shards + [shard];
    }
    r := Ok(shards);
  }

  // ---- Merging ----

  /** What a host left behind; either file may be missing. */
  datatype Output = Output(results: Option<seq<Row>>, preds: Option<map<Id, Prediction>>)

  function Lines(o: Output): seq<Row> {
    if o.results.Some? then o.results.value else []
  }

  function AllLines(outputs: seq<Output>): seq<Row> {
    Flatten(seq(|outputs|, i requires 0 <= i < |outputs| => Lines(outputs[i])))
  }

  function Ids(rows: seq<Row>): set<Id> {
    set r | r in rows && r.id != "" :: r.id
  }

  /** Keep the first row of every id; rows without an id are all kept. */
  function Dedup(rows: seq<Row>): seq<Row> {
    if rows == [] then []
    else
      var init, last := rows[..|rows| - 1], rows[|rows| - 1];
      if last.id in Ids(init) then Dedup(init) else Dedup(init) + [last]
  }

  function MergedPreds(outputs: seq<Output>): map<Id, Prediction> {
    if outputs == [] then map[]
    else
      var init, last := MergedPreds(outputs[..|outputs| - 1]), outputs[|outputs| - 1];
      if last.preds.Some? then init + last.preds.value else init
  }

  lemma OneMoreLine(rows: seq<Row>, row: Row)
    ensures Dedup(rows + [row]) == if row.id in Ids(rows) then Dedup(rows) else Dedup(rows) + [row]
    ensures Ids(rows + [row]) == if row.id == "" then Ids(rows) else Ids(rows) + {row.id}
  {
    assert (rows + [row])[..|rows|] == rows;
  }

  /** Read one host's lines into the combined results. */
  method MergeLines(before: seq<Row>, combined0: seq<Row>, seen0: set<Id>, lines: seq<Row>)
    returns (combined: seq<Row>, seen: set<Id>)
    requires combined0 == Dedup(before) && seen0 == Ids(before)
    ensures combined == Dedup(before + lines) && seen == Ids(before + lines)
  {
    combined, seen := combined0, seen0;
    assert before + lines[..0] == before;
    for i := 0 to |lines|
      invariant MergedSo(before + lines[..i], combined, seen)
    {
      MergeLine(before, lines, i, combined, seen);
      combined, seen := MergeRow(combined, seen, lines[i]);
    }
    TakeAll(lines);
  }

  method MergeRow(combined0: seq<Row>, seen0: set<Id>, row: Row) returns (combined: seq<Row>, seen: set<Id>)
    ensures combined == if row.id != "" && row.id in seen0 then combined0 else combined0 + [row]
    ensures seen == if row.id == "" then seen0 else seen0 + {row.id}
  {
    combined, seen := combined0, seen0;
    if row.id != "" && row.id in seen {
      return;
    }
    if row.id != "" {
      seen := seen + {row.id};
    }
    combined := combined + [row];
  }

  ghost predicate MergedSo(read: seq<Row>, combined: seq<Row>, seen: set<Id>) {
    combined == Dedup(read) && seen == Ids(read)
  }

  lemma MergeLine(before: seq<Row>, lines: seq<Row>, i: nat, combined: seq<Row>, seen: set<Id>)
    requires i < |lines| && MergedSo(before + lines[..i], combined, seen)
    ensures var row := lines[i];
            MergedSo(before + lines[..i + 1], if row.id != "" && row.id in seen then combined else combined + [row],
                     if row.id == "" then seen else seen + {row.id})
  {
    OneMoreLine(before + lines[..i], lines[i]);
    TakeNext(lines, i);
    Regroup(before, lines[..i], [lines[i]]);
  }

  /** Merge the hosts' files in host order. */
  method MergeOutputs(outputs: seq<Output>) returns (combined: seq<Row>, preds: map<Id, Prediction>, summary: Summary)
    ensures combined == Dedup(AllLines(outputs)) && preds == MergedPreds(outputs) && summary == SummaryOf(combined)
  {
    combined, preds := [], map[];
    var seen: set<Id> := {};
    for i := 0 to |outputs|
      invariant combined == Dedup(AllLines(outputs[..i])) && seen == Ids(AllLines(outputs[..i]))
      invariant preds == MergedPreds(outputs[..i])
    {
      AllLinesStep(outputs, i);
      combined, seen := MergeLines(AllLines(outputs[..i]), combined, seen, Lines(outputs[i]));
      assert outputs[..i + 1][..i] == outputs[..i];
      if outputs[i].preds.Some? {
        preds := preds + outputs[i].preds.value;
      }
    }
    assert outputs[..|outputs|] == outputs;
    summary := SummaryOf(combined);
  }

  lemma AllLinesStep(outputs: seq<Output>, i: nat)
    requires i < |outputs|
    ensures AllLines(outputs[..i + 1]) == AllLines(outputs[..i]) + Lines(outputs[i])
  {
    var parts := seq(i + 1, k requires 0 <= k < i + 1 => Lines(outputs[..i + 1][k]));
    assert parts[..i] == seq(i, k requires 0 <= k < i => Lines(outputs[..i][k]));
  }

  // ---- What survives a merge ----

  /** Number of rows of a problem. */
  function RowsFor(rows: seq<Row>, id: Id): nat {
    if rows == [] then 0 else RowsFor(rows[..|rows| - 1], id) + if rows[|rows| - 1].id == id then 1 else 0
  }

  lemma RowsForAppend(rows: seq<Row>, row: Row, id: Id)
    ensures RowsFor(rows + [row], id) == RowsFor(rows, id) + if row.id == id then 1 else 0
  {
    assert (rows + [row])[..|rows|] == rows;
  }

  /** Exactly one row per id survives, and no id is lost or added. */
  lemma {:induction false} OneRowPerId(rows: seq<Row>, id: Id)
    requires id != ""
    ensures RowsFor(Dedup(rows), id) == if id in Ids(rows) then 1 else 0
  {
    if rows != [] {
      var init, last := rows[..|rows| - 1], rows[|rows| - 1];
      assert rows == init + [last];
      OneRowPerId(init, id);
      OneMoreLine(init, last);
      RowsForAppend(Dedup(init), last, id);
    }
  }

  lemma RowsStep(run: Id -> Outcome, ids: seq<Id>)
    requires ids != []
    ensures var init, last := ids[..|ids| - 1], ids[|ids| - 1];
      ids == init + [last] && Rows(run, ids) == Rows(run, init) + [RowOf(run, last)]
  {
  }

  /** Rows with distinct ids all survive. */
  lemma {:induction false} NothingDropped(run: Id -> Outcome, ids: seq<Id>)
    requires Distinct(ids)
    ensures Dedup(Rows(run, ids)) == Rows(run, ids)
  {
    if ids != [] {
      var init, last := ids[..|ids| - 1], ids[|ids| - 1];
      NothingDropped(run, init);
      RowsStep(run, ids);
      OneMoreLine(Rows(run, init), RowOf(run, last));
      assert last !in init;
      if last != "" {
        IdsOfRows(run, init, last);
      }
    }
  }

  // ---- Order does not matter ----

  lemma {:induction false} RowCount(run: Id -> Outcome, ids: seq<Id>, r: Row)
    ensures multiset(Rows(run, ids))[r] == if RowOf(run, r.id) == r then multiset(ids)[r.id] else 0
  {
    if ids != [] {
      var init, last := ids[..|ids| - 1], ids[|ids| - 1];
      RowCount(run, init, r);
      RowsStep(run, ids);
      CountLast(ids, r.id);
      CountLast(Rows(run, ids), r);
      InitOfAppend(Rows(run, init), RowOf(run, last));
    }
  }

  lemma SameRows(run: Id -> Outcome, a: seq<Id>, b: seq<Id>)
    requires multiset(a) == multiset(b)
    ensures multiset(Rows(run, a)) == multiset(Rows(run, b))
  {
    forall r ensures multiset(Rows(run, a))[r] == multiset(Rows(run, b))[r] {
      RowCount(run, a, r);
      RowCount(run, b, r);
    }
  }

  /** Predictions depend only on which problems were run. */
  lemma {:induction false} PredsByProblem(run: Id -> Outcome, ids: seq<Id>)
    ensures PredsOf(Rows(run, ids)) == map id | id in ids :: Prediction(id, RowOf(run, id).patch)
  {
    if ids != [] {
      var init, last := ids[..|ids| - 1], ids[|ids| - 1];
      PredsByProblem(run, init);
      assert ids == init + [last] && Rows(run, ids)[..|ids| - 1] == Rows(run, init);
    }
  }

  // ---- The shards partition the problems ----

  ghost predicate ShardsOf(shards: seq<seq<Id>>, ids: seq<Id>, hash: Id -> nat, n: nat) {
    0 < n == |shards| && forall i :: 0 <= i < n ==> shards[i] == Bucketed(ids, Bucket(hash, n), i)
  }

  /** Each host ran its shard, in some order. */
  ghost predicate Completes(completed: seq<seq<Id>>, shards: seq<seq<Id>>) {
    |completed| == |shards| && forall i :: 0 <= i < |shards| ==> multiset(completed[i]) == multiset(shards[i])
  }

  lemma {:induction false} BucketedCount(ids: seq<Id>, bucket: Id -> nat, i: nat, x: Id)
    ensures multiset(Bucketed(ids, bucket, i))[x] == if bucket(x) == i then multiset(ids)[x] else 0
  {
    if ids != [] {
      var init, last := ids[..|ids| - 1], ids[|ids| - 1];
      BucketedCount(init, bucket, i, x);
      assert ids == init + [last];
    }
  }

  lemma {:induction false} ShardsCount(shards: seq<seq<Id>>, ids: seq<Id>, hash: Id -> nat, n: nat,
                                       completed: seq<seq<Id>>, k: nat, x: Id)
    requires ShardsOf(shards, ids, hash, n) && Completes(completed, shards) && k <= n
    ensures multiset(Flatten(completed[..k]))[x] == if Bucket(hash, n)(x) < k then multiset(ids)[x] else 0
  {
    if k > 0 {
      ShardsCount(shards, ids, hash, n, completed, k - 1, x);
      BucketedCount(ids, Bucket(hash, n), k - 1, x);
      assert completed[..k][..k - 1] == completed[..k - 1];
    }
  }

  /** No problem is lost, duplicated or invented by sharding. */
  lemma ShardsPartition(shards: seq<seq<Id>>, ids: seq<Id>, hash: Id -> nat, n: nat, completed: seq<seq<Id>>)
    requires ShardsOf(shards, ids, hash, n) && Completes(completed, shards)
    ensures multiset(Flatten(completed)) == multiset(ids)
  {
    assert completed[..n] == completed;
    forall x ensures multiset(Flatten(completed))[x] == multiset(ids)[x] {
      ShardsCount(shards, ids, hash, n, completed, n, x);
    }
  }

  // ---- Refinement ----

  function HostOutput(run: Id -> Outcome, ids: seq<Id>): Output {
    Output(Some(Rows(run, ids)), Some(PredsOf(Rows(run, ids))))
  }

  function HostOutputs(run: Id -> Outcome, completed: seq<seq<Id>>): seq<Output> {
    seq(|completed|, i requires 0 <= i < |completed| => HostOutput(run, completed[i]))
  }

  lemma RowsAppend(run: Id -> Outcome, a: seq<Id>, b: seq<Id>)
    ensures Rows(run, a + b) == Rows(run, a) + Rows(run, b)
  {
  }

  lemma {:induction false} LinesOfHosts(run: Id -> Outcome, completed: seq<seq<Id>>)
    ensures AllLines(HostOutputs(run, completed)) == Rows(run, Flatten(completed))
  {
    if completed != [] {
      var init, last := completed[..|completed| - 1], completed[|completed| - 1];
      LinesOfHosts(run, init);
      var outputs := HostOutputs(run, completed);
      assert outputs[..|init|] == HostOutputs(run, init);
      AllLinesStep(outputs, |init|);
      assert outputs[..|init| + 1] == outputs;
      RowsAppend(run, Flatten(init), last);
    }
  }

  lemma {:induction false} PredsOfHosts(run: Id -> Outcome, completed: seq<seq<Id>>)
    ensures MergedPreds(HostOutputs(run, completed)) == map id | id in Flatten(completed) :: Prediction(id, RowOf(run, id).patch)
  {
    if completed != [] {
      var init, last := completed[..|completed| - 1], completed[|completed| - 1];
      PredsOfHosts(run, init);
      assert HostOutputs(run, completed)[..|init|] == HostOutputs(run, init);
      PredsByProblem(run, last);
      PredsUnion(run, Flatten(init), last);
    }
  }

  lemma PredsUnion(run: Id -> Outcome, a: seq<Id>, b: seq<Id>)
    ensures (map id | id in a :: Prediction(id, RowOf(run, id).patch)) + (map id | id in b :: Prediction(id, RowOf(run, id).patch))
      == map id | id in a + b :: Prediction(id, RowOf(run, id).patch)
  {
  }

  lemma {:induction false} DistinctByCount(ids: seq<Id>)
    ensures Distinct(ids) <==> forall x :: multiset(ids)[x] <= 1
  {
    if ids != [] {
      var init, last := ids[..|ids| - 1], ids[|ids| - 1];
      DistinctByCount(init);
      DistinctStep(ids);
      assert ids == init + [last];
      assert last in init <==> multiset(init)[last] > 0;
      assert forall x :: multiset(ids)[x] == multiset(init)[x] + if x == last then 1 else 0;
    }
  }

  lemma IdsOfRows(run: Id -> Outcome, ids: seq<Id>, x: Id)
    requires x != ""
    ensures x in Ids(Rows(run, ids)) <==> x in ids
  {
    if x in ids {
      var k :| 0 <= k < |ids| && ids[k] == x;
      assert Rows(run, ids)[k].id == x;
    }
  }

  /** The total counts repeated problems once when merged, so it agrees exactly when there are none. */
  lemma {:induction false} TotalAgrees(run: Id -> Outcome, ids: seq<Id>)
    requires "" !in ids
    ensures |Dedup(Rows(run, ids))| <= |ids|
    ensures |Dedup(Rows(run, ids))| == |ids| <==> Distinct(ids)
  {
    if ids != [] {
      var init, last := ids[..|ids| - 1], ids[|ids| - 1];
      TotalAgrees(run, init);
      RowsStep(run, ids);
      OneMoreLine(Rows(run, init), RowOf(run, last));
      IdsOfRows(run, init, last);
      DistinctStep(ids);
    }
  }

  lemma DistinctStep(ids: seq<Id>)
    requires ids != []
    ensures var init, last := ids[..|ids| - 1], ids[|ids| - 1]; Distinct(ids) <==> Distinct(init) && last !in init
  {
  }

  /**
   Sharding, running every shard and merging gives the predictions of the run on one node, whatever
   the hash, the number of shards and the order of completion.
   */
  lemma ShardedPreds(ids: seq<Id>, hash: Id -> nat, n: nat, run: Id -> Outcome,
                     shards: seq<seq<Id>>, completed: seq<seq<Id>>, single: seq<Id>)
    requires ShardsOf(shards, ids, hash, n) && Completes(completed, shards) && multiset(single) == multiset(ids)
    ensures MergedPreds(HostOutputs(run, completed)) == PredsOf(Rows(run, single))
  {
    ShardsPartition(shards, ids, hash, n, completed);
    PredsOfHosts(run, completed);
    PredsByProblem(run, single);
    assert forall x :: x in Flatten(completed) <==> x in multiset(ids);
    assert forall x :: x in single <==> x in multiset(ids);
  }

  /** With distinct ids it also gives the same rows and the same summary. */
  lemma ShardedRunRefines(ids: seq<Id>, hash: Id -> nat, n: nat, run: Id -> Outcome,
                          shards: seq<seq<Id>>, completed: seq<seq<Id>>, single: seq<Id>)
    requires ShardsOf(shards, ids, hash, n) && Completes(completed, shards) && multiset(single) == multiset(ids)
    requires Distinct(ids)
    ensures var combined := Dedup(AllLines(HostOutputs(run, completed)));
      && multiset(combined) == multiset(Rows(run, single))
      && SummaryOf(combined) == SummaryOf(Rows(run, single))
  {
    var all := Flatten(completed);
    ShardsPartition(shards, ids, hash, n, completed);
    LinesOfHosts(run, completed);
    DistinctByCount(ids);
    DistinctByCount(all);
    NothingDropped(run, all);
    SameRows(run, all, single);
    SameTotal(Rows(run, all), Rows(run, single), ResolvedWeight);
    SameTotal(Rows(run, all), Rows(run, single), TurnsWeight);
    assert |multiset(Rows(run, all))| == |multiset(Rows(run, single))|;
  }

  /** The totals agree only then. */
  lemma TotalCondition(ids: seq<Id>, hash: Id -> nat, n: nat, run: Id -> Outcome,
                       shards: seq<seq<Id>>, completed: seq<seq<Id>>, single: seq<Id>)
    requires ShardsOf(shards, ids, hash, n) && Completes(completed, shards) && multiset(single) == multiset(ids)
    requires "" !in ids
    ensures SummaryOf(Dedup(AllLines(HostOutputs(run, completed)))).total == SummaryOf(Rows(run, single)).total <==>
      Distinct(ids)
  {
    var all := Flatten(completed);
    ShardsPartition(shards, ids, hash, n, completed);
    LinesOfHosts(run, completed);
    assert "" !in multiset(ids) && "" !in all;
    TotalAgrees(run, all);
    DistinctByCount(ids);
    DistinctByCount(all);
    assert |multiset(all)| == |multiset(single)|;
  }

  // ---- Host directories ----

  predicate Separator(c: char) {
    c == ':' || c == '/'
  }

  /** Host names become directory names. */
  function Sanitise(host: string): string {
    seq(|host|, k requires 0 <= k < |host| => if Separator(host[k]) then '_' else host[k])
  }

  /** Two hosts share a directory exactly when they differ only in separators and underscores. */
  lemma SanitisedEqual(a: string, b: string)
    ensures Sanitise(a) == Sanitise(b) <==>
      |a| == |b| && forall k :: 0 <= k < |a| ==>
        a[k] == b[k] || ((Separator(a[k]) || a[k] == '_') && (Separator(b[k]) || b[k] == '_'))
  {
    if Sanitise(a) == Sanitise(b) {
      assert |Sanitise(a)| == |Sanitise(b)|;
      forall k | 0 <= k < |a|
        ensures a[k] == b[k] || ((Separator(a[k]) || a[k] == '_') && (Separator(b[k]) || b[k] == '_'))
      {
        assert Sanitise(a)[k] == Sanitise(b)[k];
      }
    }
  }

  /** Hosts that share a directory overwrite each other; `winner` says whose files are there in the end. */
  ghost predicate Winners(dirs: seq<string>, winner: seq<nat>) {
    && |winner| == |dirs|
    && (forall i :: 0 <= i < |dirs| ==> winner[i] < |dirs| && dirs[winner[i]] == dirs[i])
    && (forall i, j :: 0 <= i < |dirs| && 0 <= j < |dirs| && dirs[i] == dirs[j] ==> winner[i] == winner[j])
  }

  ghost function Found(outputs: seq<Output>, winner: seq<nat>): seq<Output>
    requires forall i :: 0 <= i < |winner| ==> winner[i] < |outputs|
  {
    seq(|winner|, i requires 0 <= i < |winner| => outputs[winner[i]])
  }

  /** Sharing is harmless when the hosts that share have nothing to do. */
  lemma SharingHarmless(run: Id -> Outcome, completed: seq<seq<Id>>, dirs: seq<string>, winner: seq<nat>)
    requires |dirs| == |completed| && Winners(dirs, winner)
    requires forall i, j :: 0 <= i < j < |dirs| && dirs[i] == dirs[j] ==> completed[i] == [] && completed[j] == []
    ensures Found(HostOutputs(run, completed), winner) == HostOutputs(run, completed)
  {
    var outputs := HostOutputs(run, completed);
    forall i | 0 <= i < |dirs| ensures outputs[winner[i]] == outputs[i] {
      if winner[i] != i {
        assert completed[i] == [] && completed[winner[i]] == [];
      }
    }
  }

  ghost function FirstWith(dirs: seq<string>, d: string): (k: nat)
    requires d in dirs
    ensures k < |dirs| && dirs[k] == d
  {
    if dirs[0] == d then 0 else 1 + FirstWith(dirs[1..], d)
  }

  /** Otherwise a race can lose a host's whole shard. */
  lemma SharingLoses(ids: seq<Id>, hash: Id -> nat, n: nat, run: Id -> Outcome, shards: seq<seq<Id>>,
                     completed: seq<seq<Id>>, dirs: seq<string>, i: nat, j: nat, x: Id) returns (winner: seq<nat>)
    requires ShardsOf(shards, ids, hash, n) && Completes(completed, shards) && |dirs| == n
    requires i < n && j < n && i != j && dirs[i] == dirs[j] && x in completed[i]
    ensures Winners(dirs, winner)
    ensures forall k :: 0 <= k < n ==> x !in completed[winner[k]]
  {
    winner := seq(n, k requires 0 <= k < n => if dirs[k] == dirs[i] then j else FirstWith(dirs, dirs[k]));
    forall k | 0 <= k < n ensures x !in completed[winner[k]] {
      BucketedCount(ids, Bucket(hash, n), i, x);
      BucketedCount(ids, Bucket(hash, n), winner[k], x);
      assert x in multiset(completed[i]);
      assert winner[k] != i;
      assert x !in multiset(completed[winner[k]]);
    }
  }
}
