/**
 The evaluation worker pool: every endpoint has a fixed number of workers, and every worker runs one
 queued task at a time until the queue is dry. A worker gives up control only while its job runs, so
 a step is one stretch between two waits: the finished job is recorded and the next task is taken.
 */
module WorkerQueue {
  import opened Common

  /** Endpoint and slot. */
  type Worker = (nat, nat)

  datatype Config = Config(endpoints: nat, perEndpoint: nat)

  function Workers(cfg: Config): set<Worker> {
    set e, s | 0 <= e < cfg.endpoints && 0 <= s < cfg.perEndpoint :: (e, s)
  }

  /** What a job does: it returns its trials or it raises. */
  datatype Outcome<Trial, Error> = Trials(trials: seq<Trial>) | Crashed(error: Error)

  datatype Record<Trial, Error> = Graded(trial: Trial) | Failure(task: nat, error: Error)

  /** The records of one finished task. An exception becomes one failure record. */
  function RecordsOf<Trial, Error>(task: nat, o: Outcome<Trial, Error>): seq<Record<Trial, Error>> {
    match o
    case Trials(ts) => seq(|ts|, k requires 0 <= k < |ts| => Graded(ts[k]))
    case Crashed(e) => [Failure(task, e)]
  }

  /** Tasks are known by their position. `history` lists the finished ones in order of completion. */
  datatype Pool<Trial, Error> = Pool(
    queue: seq<nat>,
    unstarted: set<Worker>,
    busy: map<Worker, nat>,
    records: seq<Record<Trial, Error>>,
    persisted: seq<Record<Trial, Error>>,
    history: seq<(nat, Outcome<Trial, Error>)>)

  function Start<Trial, Error>(n: nat, cfg: Config): Pool<Trial, Error> {
    Pool(seq(n, i requires 0 <= i < n => i), Workers(cfg), map[], [], [], [])
  }

  /** The worker takes the next task, or returns when there is none. */
  function TakeNext<Trial, Error>(p: Pool<Trial, Error>, w: Worker): Pool<Trial, Error> {
    if p.queue == [] then p.(busy := p.busy - {w})
    else p.(queue := p.queue[1..], busy := p.busy[w := p.queue[0]])
  }

  datatype Step<Trial, Error> = Begin(w: Worker) | Finish(w: Worker, outcome: Outcome<Trial, Error>)

  predicate Enabled<Trial, Error>(p: Pool<Trial, Error>, step: Step<Trial, Error>) {
    match step
    case Begin(w) => w in p.unstarted
    case Finish(w, _) => w in p.busy
  }

  function Next<Trial, Error>(p: Pool<Trial, Error>, step: Step<Trial, Error>): Pool<Trial, Error>
    requires Enabled(p, step)
  {
    match step
    case Begin(w) => TakeNext(p.(unstarted := p.unstarted - {w}), w)
    case Finish(w, o) =>
      var got := RecordsOf(p.busy[w], o);
      TakeNext(p.(records := p.records + got, persisted := p.persisted + got,
                  history := p.history + [(p.busy[w], o)]), w)
  }

  /** A run of the pool under some interleaving. */
  ghost function Execute<Trial, Error>(p: Pool<Trial, Error>, steps: seq<Step<Trial, Error>>): Option<Pool<Trial, Error>>
    decreases |steps|
  {
    if steps == [] then Some(p)
    else if !Enabled(p, steps[0]) then None
    else Execute(Next(p, steps[0]), steps[1..])
  }

  // ---- The invariant ----

  ghost predicate Finished<Trial, Error>(p: Pool<Trial, Error>, i: nat) {
    exists k :: 0 <= k < |p.history| && p.history[k].0 == i
  }

  ghost predicate Running<Trial, Error>(p: Pool<Trial, Error>, i: nat) {
    exists w :: w in p.busy && p.busy[w] == i
  }

  /** Tasks wait in order; of the others, each is running at one worker or finished once, never both. */
  ghost predicate Partitioned<Trial, Error>(n: nat, p: Pool<Trial, Error>) {
    && |p.queue| <= n
    && (forall i :: 0 <= i < |p.queue| ==> p.queue[i] == n - |p.queue| + i)
    && (forall w :: w in p.busy ==> p.busy[w] < n - |p.queue|)
    && (forall k :: 0 <= k < |p.history| ==> p.history[k].0 < n - |p.queue|)
    && (forall i :: 0 <= i < n - |p.queue| ==> Running(p, i) || Finished(p, i))
    && (forall w :: w in p.busy ==> !Finished(p, p.busy[w]))
    && (forall w, x :: w in p.busy && x in p.busy && p.busy[w] == p.busy[x] ==> w == x)
    && (forall j, k :: 0 <= j < k < |p.history| ==> p.history[j].0 != p.history[k].0)
  }

  /** A worker that started is busy for as long as tasks wait. */
  ghost predicate NeverIdle<Trial, Error>(cfg: Config, p: Pool<Trial, Error>) {
    && p.unstarted <= Workers(cfg) && p.busy.Keys <= Workers(cfg) && p.unstarted !! p.busy.Keys
    && (p.queue != [] ==> p.unstarted + p.busy.Keys == Workers(cfg))
  }

  function Recorded<Trial, Error>(history: seq<(nat, Outcome<Trial, Error>)>): seq<Record<Trial, Error>> {
    if history == [] then []
    else
      var last := history[|history| - 1];
      Recorded(history[..|history| - 1]) + RecordsOf(last.0, last.1)
  }

  ghost predicate Inv<Trial, Error>(n: nat, cfg: Config, p: Pool<Trial, Error>) {
    && Partitioned(n, p) && NeverIdle(cfg, p)
    && p.records == Recorded(p.history) && p.persisted == p.records
  }

  lemma StartInv<Trial, Error>(n: nat, cfg: Config)
    ensures Inv<Trial, Error>(n, cfg, Start(n, cfg))
  {
  }

  lemma BeginPartitioned<Trial, Error>(n: nat, p: Pool<Trial, Error>, w: Worker)
    requires Partitioned(n, p) && w !in p.busy
    ensures Partitioned(n, TakeNext(p, w))
  {
    var p1 := TakeNext(p, w);
    assert forall i :: Finished(p1, i) <==> Finished(p, i);
    if p.queue == [] {
      assert p1.busy == p.busy;
    } else {
      assert p1.busy[w] == n - |p.queue|;
      assert forall x :: x in p.busy ==> x in p1.busy && p1.busy[x] == p.busy[x];
      forall i | 0 <= i < n - |p1.queue| ensures Running(p1, i) || Finished(p1, i) {
        if i < n - |p.queue| {
          assert Running(p, i) || Finished(p, i);
        }
      }
    }
  }

  lemma FinishPartitioned<Trial, Error>(n: nat, p: Pool<Trial, Error>, w: Worker, o: Outcome<Trial, Error>)
    requires Partitioned(n, p) && w in p.busy
    ensures Partitioned(n, p.(busy := p.busy - {w}, history := p.history + [(p.busy[w], o)]))
  {
    var p1 := p.(busy := p.busy - {w}, history := p.history + [(p.busy[w], o)]);
    assert p1.history[|p.history|].0 == p.busy[w];
    forall i | Finished(p, i) ensures Finished(p1, i) {
      var k :| 0 <= k < |p.history| && p.history[k].0 == i;
      assert p1.history[k].0 == i;
    }
    forall i | Running(p, i) ensures Running(p1, i) || Finished(p1, i) {
      var x :| x in p.busy && p.busy[x] == i;
      if x != w {
        assert x in p1.busy;
      }
    }
  }

  lemma RecordedAppend<Trial, Error>(history: seq<(nat, Outcome<Trial, Error>)>, h: (nat, Outcome<Trial, Error>))
    ensures Recorded(history + [h]) == Recorded(history) + RecordsOf(h.0, h.1)
  {
    assert (history + [h])[..|history|] == history;
  }

  /** The partition is about these three fields. */
  lemma SamePartition<Trial, Error>(n: nat, p: Pool<Trial, Error>, q: Pool<Trial, Error>)
    requires Partitioned(n, p) && q.queue == p.queue && q.busy == p.busy && q.history == p.history
    ensures Partitioned(n, q)
  {
    assert forall i :: Finished(q, i) <==> Finished(p, i);
    assert forall i :: Running(q, i) <==> Running(p, i);
  }

  /** Handing in the finished task and taking the next one, as one step. */
  lemma HandOver<Trial, Error>(p: Pool<Trial, Error>, w: Worker, o: Outcome<Trial, Error>)
    requires w in p.busy
    ensures var p1 := TakeNext(p.(busy := p.busy - {w}, history := p.history + [(p.busy[w], o)]), w);
      var p2 := Next(p, Finish(w, o));
      p2.queue == p1.queue && p2.busy == p1.busy && p2.history == p1.history
  {
  }

  lemma NextPartitioned<Trial, Error>(n: nat, p: Pool<Trial, Error>, step: Step<Trial, Error>)
    requires Partitioned(n, p) && Enabled(p, step) && (step.Begin? ==> step.w !in p.busy)
    ensures Partitioned(n, Next(p, step))
  {
    if step.Begin? {
      BeginPartitioned(n, p, step.w);
      SamePartition(n, TakeNext(p, step.w), Next(p, step));
    } else {
      var p1 := p.(busy := p.busy - {step.w}, history := p.history + [(p.busy[step.w], step.outcome)]);
      FinishPartitioned(n, p, step.w, step.outcome);
      BeginPartitioned(n, p1, step.w);
      HandOver(p, step.w, step.outcome);
      SamePartition(n, TakeNext(p1, step.w), Next(p, step));
    }
  }

  lemma NextNeverIdle<Trial, Error>(cfg: Config, p: Pool<Trial, Error>, step: Step<Trial, Error>)
    requires NeverIdle(cfg, p) && Enabled(p, step)
    ensures NeverIdle(cfg, Next(p, step))
  {
    var p1 := Next(p, step);
    assert p1.busy.Keys == if p.queue == [] then p.busy.Keys - {step.w} else p.busy.Keys + {step.w};
  }

  /** Every step keeps the invariant. */
  lemma NextInv<Trial, Error>(n: nat, cfg: Config, p: Pool<Trial, Error>, step: Step<Trial, Error>)
    requires Inv(n, cfg, p) && Enabled(p, step)
    ensures Inv(n, cfg, Next(p, step))
  {
    NextPartitioned(n, p, step);
    NextNeverIdle(cfg, p, step);
    if step.Finish? {
      RecordedAppend(p.history, (p.busy[step.w], step.outcome));
    }
  }

  // ---- Whole runs ----

  /** What is left to do: every step brings it down by exactly one. */
  function Left<Trial, Error>(p: Pool<Trial, Error>): nat {
    |p.queue| + |p.unstarted| + |p.busy|
  }

  lemma SizeAfterPut<K, V>(m: map<K, V>, k: K, v: V)
    ensures |m[k := v]| == if k in m then |m| else |m| + 1
  {
    assert |m| == |m.Keys| && |m[k := v]| == |m[k := v].Keys|;
    assert m[k := v].Keys == m.Keys + {k};
  }

  lemma SizeAfterRemove<K, V>(m: map<K, V>, k: K)
    ensures |m - {k}| == if k in m then |m| - 1 else |m|
  {
    assert |m| == |m.Keys| && |m - {k}| == |(m - {k}).Keys|;
    assert (m - {k}).Keys == m.Keys - {k};
  }

  lemma OneStepLess<Trial, Error>(cfg: Config, p: Pool<Trial, Error>, step: Step<Trial, Error>)
    requires NeverIdle(cfg, p) && Enabled(p, step)
    ensures Left(Next(p, step)) == Left(p) - 1
  {
    if p.queue == [] {
      SizeAfterRemove(p.busy, step.w);
    } else {
      SizeAfterPut(p.busy, step.w, p.queue[0]);
    }
  }

  /** The invariant holds after every run, and the run has as many steps as work was done. */
  lemma {:induction false} EveryRun<Trial, Error>(n: nat, cfg: Config, p: Pool<Trial, Error>, steps: seq<Step<Trial, Error>>)
    requires Inv(n, cfg, p) && Execute(p, steps).Some?
    ensures Inv(n, cfg, Execute(p, steps).value)
    ensures Left(Execute(p, steps).value) + |steps| == Left(p)
    decreases |steps|
  {
    if steps != [] {
      NextInv(n, cfg, p, steps[0]);
      OneStepLess(cfg, p, steps[0]);
      EveryRun(n, cfg, Next(p, steps[0]), steps[1..]);
    }
  }

  /** Tasks running on one endpoint. */
  ghost function RunningOn<Trial, Error>(p: Pool<Trial, Error>, e: nat): set<Worker> {
    set w | w in p.busy && w.0 == e
  }

  function Slots(e: nat, k: nat): set<Worker> {
    set s | 0 <= s < k :: (e, s)
  }

  lemma {:induction false} SlotCount(e: nat, k: nat)
    ensures |Slots(e, k)| == k
  {
    if k == 0 {
      assert Slots(e, 0) == {};
    } else {
      SlotCount(e, k - 1);
      assert Slots(e, k) == Slots(e, k - 1) + {(e, k - 1)};
    }
  }

  lemma {:induction false} SubsetSize<T>(a: set<T>, b: set<T>)
    requires a <= b
    ensures |a| <= |b|
  {
    if a != {} {
      var x :| x in a;
      SubsetSize(a - {x}, b - {x});
    }
  }

  /** No endpoint runs more jobs at once than it has slots. */
  lemma EndpointBound<Trial, Error>(n: nat, cfg: Config, p: Pool<Trial, Error>, e: nat)
    requires Inv(n, cfg, p)
    ensures |RunningOn(p, e)| <= cfg.perEndpoint
  {
    SlotCount(e, cfg.perEndpoint);
    assert RunningOn(p, e) <= Slots(e, cfg.perEndpoint);
    SubsetSize(RunningOn(p, e), Slots(e, cfg.perEndpoint));
  }

  /** All workers have returned. */
  ghost predicate AllReturned<Trial, Error>(p: Pool<Trial, Error>) {
    p.unstarted == {} && p.busy == map[]
  }

  /** Once all workers have returned, every task was finished exactly once. */
  lemma EachTaskOnce<Trial, Error>(n: nat, cfg: Config, p: Pool<Trial, Error>)
    requires Inv(n, cfg, p) && AllReturned(p) && Workers(cfg) != {}
    ensures p.queue == []
    ensures forall i :: 0 <= i < n ==> Finished(p, i)
    ensures forall k :: 0 <= k < |p.history| ==> p.history[k].0 < n
    ensures forall j, k :: 0 <= j < k < |p.history| ==> p.history[j].0 != p.history[k].0
  {
    if p.queue != [] {
      assert false;
    }
    forall i | 0 <= i < n ensures Finished(p, i) {
      assert !Running(p, i);
    }
  }

  // ---- How many records a task has ----

  /** Number of records that task i contributed. */
  function Contribution<Trial, Error>(history: seq<(nat, Outcome<Trial, Error>)>, i: nat): nat {
    if history == [] then 0
    else
      var last := history[|history| - 1];
      Contribution(history[..|history| - 1], i) + if last.0 == i then |RecordsOf(last.0, last.1)| else 0
  }

  lemma {:induction false} ContributionOf<Trial, Error>(history: seq<(nat, Outcome<Trial, Error>)>, k: nat)
    requires k < |history| && forall j, j' :: 0 <= j < j' < |history| ==> history[j].0 != history[j'].0
    ensures Contribution(history, history[k].0) == |RecordsOf(history[k].0, history[k].1)|
  {
    var init := history[..|history| - 1];
    if k < |history| - 1 {
      ContributionOf(init, k);
    } else {
      NoContribution(init, history[k].0);
    }
  }

  lemma {:induction false} NoContribution<Trial, Error>(history: seq<(nat, Outcome<Trial, Error>)>, i: nat)
    requires forall k :: 0 <= k < |history| ==> history[k].0 != i
    ensures Contribution(history, i) == 0
  {
    if history != [] {
      NoContribution(history[..|history| - 1], i);
    }
  }

  /**
   A complete run: whatever the interleaving, each task's only outcome decides its records. A crash
   gives exactly one, and a task is missing from the records exactly when its job returned no trials.
   */
  lemma CompleteRun<Trial, Error>(n: nat, cfg: Config, steps: seq<Step<Trial, Error>>)
    requires Workers(cfg) != {} && Execute(Start<Trial, Error>(n, cfg), steps).Some?
    requires AllReturned(Execute(Start<Trial, Error>(n, cfg), steps).value)
    ensures var p := Execute(Start<Trial, Error>(n, cfg), steps).value;
      && p.queue == [] && (forall i :: 0 <= i < n ==> Finished(p, i))
      && p.persisted == p.records == Recorded(p.history)
      && |steps| == n + |Workers(cfg)|
      && forall k :: 0 <= k < |p.history| ==>
           && (p.history[k].1.Crashed? ==> Contribution(p.history, p.history[k].0) == 1)
           && (Contribution(p.history, p.history[k].0) == 0 <==> p.history[k].1 == Trials([]))
  {
    StartInv<Trial, Error>(n, cfg);
    EveryRun(n, cfg, Start<Trial, Error>(n, cfg), steps);
    var p := Execute(Start<Trial, Error>(n, cfg), steps).value;
    EachTaskOnce(n, cfg, p);
    forall k | 0 <= k < |p.history|
      ensures Contribution(p.history, p.history[k].0) == |RecordsOf(p.history[k].0, p.history[k].1)|
    {
      ContributionOf(p.history, k);
    }
  }

  /** Without a worker nothing runs, and the call returns at once. */
  lemma NoWorkers<Trial, Error>(n: nat, cfg: Config)
    requires Workers(cfg) == {}
    ensures var p := Start<Trial, Error>(n, cfg); AllReturned(p) && |p.queue| == n && p.records == []
  {
  }
}
