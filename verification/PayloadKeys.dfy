/**
 Keys of the payloads that a request stores, the check before a batch is published as ready, and the
 clearing of payloads whose owner is done with them.
 */
module PayloadKeys {
  import opened Common
  import opened Decimal

  // ---- Names ----

  /** Key of trajectory i of n. */
  function Key(request: nat, n: nat, i: nat): string {
    if n == 1 then Print(request) else Print(request) + "_" + Print(i)
  }

  /** The keys of one request; a request has at least one trajectory. */
  function Keys(request: nat, n: int): (r: Result<seq<string>>)
    ensures r.Raised? <==> n < 1
    ensures r.Ok? ==> |r.value| == n
  {
    if n < 1 then Raised else Ok(seq(n, i requires 0 <= i < n => Key(request, n, i)))
  }

  /** The request a key belongs to, read back from the key. */
  function Owner(key: string): nat {
    Parse(key[..DigitRun(key)])
  }

  lemma OwnerOfKey(request: nat, n: nat, i: nat)
    ensures Owner(Key(request, n, i)) == request
  {
    var ds := Print(request);
    ParsePrint(request);
    if n == 1 {
      RunOfDigits(ds, "");
      assert ds + "" == ds && ds[..|ds|] == ds;
    } else {
      var rest := "_" + Print(i);
      RunOfDigits(ds, rest);
      assert ds + "_" + Print(i) == ds + rest;
      assert (ds + rest)[..|ds|] == ds;
    }
  }

  /** Keys of different requests never collide, whatever their trajectory counts. */
  lemma KeysNeverCollide(r: nat, n: nat, i: nat, r': nat, n': nat, i': nat)
    requires Key(r, n, i) == Key(r', n', i')
    ensures r == r' && (n == 1 <==> n' == 1) && (n != 1 ==> i == i')
  {
    OwnerOfKey(r, n, i);
    OwnerOfKey(r', n', i');
    var ds := Print(r);
    if n != 1 {
      assert Key(r, n, i)[|ds|] == '_';
      assert n' != 1;
      assert Key(r, n, i)[|ds| + 1..] == Print(i) && Key(r', n', i')[|ds| + 1..] == Print(i');
      PrintInjective(i, i');
    }
  }

  // ---- Batches ----

  datatype Request = Request(id: nat, n: nat)

  ghost predicate Proper(batch: seq<Request>) {
    forall i :: 0 <= i < |batch| ==> 1 <= batch[i].n
  }

  function KeysOf(r: Request): seq<string> {
    seq(r.n, i requires 0 <= i < r.n => Key(r.id, r.n, i))
  }

  function AllKeys(batch: seq<Request>): seq<string> {
    if batch == [] then [] else AllKeys(batch[..|batch| - 1]) + KeysOf(batch[|batch| - 1])
  }

  ghost predicate Originates(batch: seq<Request>, k: string) {
    exists i :: 0 <= i < |batch| && k in KeysOf(batch[i])
  }

  lemma OriginatesNext(batch: seq<Request>, k: string)
    requires batch != []
    ensures Originates(batch, k) <==> Originates(batch[..|batch| - 1], k) || k in KeysOf(batch[|batch| - 1])
  {
    var init := batch[..|batch| - 1];
    if i :| 0 <= i < |batch| && k in KeysOf(batch[i]) {
      assert i < |init| ==> init[i] == batch[i];
    }
    if i :| 0 <= i < |init| && k in KeysOf(init[i]) {
      assert batch[i] == init[i];
    }
  }

  lemma {:induction false} KeyOrigin(batch: seq<Request>, k: string)
    ensures k in AllKeys(batch) <==> Originates(batch, k)
  {
    if batch != [] {
      KeyOrigin(batch[..|batch| - 1], k);
      OriginatesNext(batch, k);
    }
  }

  ghost predicate DuplicateFree(keys: seq<string>) {
    forall i, j :: 0 <= i < j < |keys| ==> keys[i] != keys[j]
  }

  /** Two requests share keys when they have the same id and both or neither have one trajectory. */
  predicate Clash(r: Request, s: Request) {
    r.id == s.id && (r.n == 1 <==> s.n == 1)
  }

  lemma ClashMeansShared(r: Request, s: Request)
    requires 1 <= r.n && 1 <= s.n
    ensures Clash(r, s) <==> exists k :: k in KeysOf(r) && k in KeysOf(s)
  {
    if Clash(r, s) {
      assert KeysOf(r)[0] == KeysOf(s)[0];
      assert KeysOf(r)[0] in KeysOf(r) && KeysOf(s)[0] in KeysOf(s);
    }
    if k :| k in KeysOf(r) && k in KeysOf(s) {
      var i :| 0 <= i < r.n && KeysOf(r)[i] == k;
      var j :| 0 <= j < s.n && KeysOf(s)[j] == k;
      KeysNeverCollide(r.id, r.n, i, s.id, s.n, j);
    }
  }

  lemma OwnKeysDistinct(r: Request)
    ensures DuplicateFree(KeysOf(r))
  {
    forall i, j | 0 <= i < j < r.n ensures KeysOf(r)[i] != KeysOf(r)[j] {
      if KeysOf(r)[i] == KeysOf(r)[j] {
        KeysNeverCollide(r.id, r.n, i, r.id, r.n, j);
      }
    }
  }

  lemma DuplicateFreeAppend(a: seq<string>, b: seq<string>)
    ensures DuplicateFree(a + b) <==> DuplicateFree(a) && DuplicateFree(b) && forall k :: k in a ==> k !in b
  {
    var ab := a + b;
    if DuplicateFree(ab) {
      forall i, j | 0 <= i < j < |a| ensures a[i] != a[j] {
        assert ab[i] != ab[j];
      }
      forall i, j | 0 <= i < j < |b| ensures b[i] != b[j] {
        assert ab[|a| + i] != ab[|a| + j];
      }
      forall k | k in a ensures k !in b {
        var i :| 0 <= i < |a| && a[i] == k;
        forall j | 0 <= j < |b| ensures b[j] != k {
          assert ab[i] != ab[|a| + j];
        }
      }
    } else {
      var i, j :| 0 <= i < j < |ab| && ab[i] == ab[j];
      if j < |a| {
        assert a[i] == a[j];
      } else if |a| <= i {
        assert b[i - |a|] == b[j - |a|];
      } else {
        assert a[i] in a && b[j - |a|] in b;
      }
    }
  }

  ghost predicate ClashFree(batch: seq<Request>) {
    forall i, j :: 0 <= i < j < |batch| ==> !Clash(batch[i], batch[j])
  }

  /** The keys of a batch are distinct exactly when no two of its requests clash. */
  lemma {:induction false} BatchKeysDistinct(batch: seq<Request>)
    requires Proper(batch)
    ensures DuplicateFree(AllKeys(batch)) <==> ClashFree(batch)
  {
    if batch != [] {
      var init, last := batch[..|batch| - 1], batch[|batch| - 1];
      BatchKeysDistinct(init);
      OwnKeysDistinct(last);
      DuplicateFreeAppend(AllKeys(init), KeysOf(last));
      SharedWithLast(init, last);
      assert ClashFree(batch) <==> ClashFree(init) && forall i :: 0 <= i < |init| ==> !Clash(init[i], last) by {
        assert forall i :: 0 <= i < |init| ==> batch[i] == init[i];
      }
    }
  }

  lemma SharedWithLast(init: seq<Request>, last: Request)
    requires Proper(init) && 1 <= last.n
    ensures (forall k :: k in AllKeys(init) ==> k !in KeysOf(last)) <==> forall i :: 0 <= i < |init| ==> !Clash(init[i], last)
  {
    if i :| 0 <= i < |init| && Clash(init[i], last) {
      ClashMeansShared(init[i], last);
      var k :| k in KeysOf(init[i]) && k in KeysOf(last);
      KeyOrigin(init, k);
    }
    if k :| k in AllKeys(init) && k in KeysOf(last) {
      KeyOrigin(init, k);
      var i :| 0 <= i < |init| && k in KeysOf(init[i]);
      ClashMeansShared(init[i], last);
    }
  }

  // ---- Publishing ----

  datatype Status = Success | Unfinished

  type Partition = map<string, Status>

  /** The check before a batch is published: no repeated, missing or unfinished key. */
  ghost predicate Publishable(keys: seq<string>, p: Partition) {
    && (forall k :: multiset(keys)[k] <= 1)
    && forall i :: 0 <= i < |keys| ==> keys[i] in p && p[keys[i]] == Success
  }

  ghost predicate Committed(r: Request, p: Partition) {
    forall k :: k in KeysOf(r) ==> k in p && p[k] == Success
  }

  lemma {:induction false} CountsAtMostOnce(keys: seq<string>)
    ensures (forall k :: multiset(keys)[k] <= 1) <==> DuplicateFree(keys)
  {
    if keys != [] {
      var init, last := keys[..|keys| - 1], keys[|keys| - 1];
      CountsAtMostOnce(init);
      assert keys == init + [last];
      DuplicateFreeAppend(init, [last]);
      assert forall k :: multiset(keys)[k] == multiset(init)[k] + if k == last then 1 else 0;
      assert last in init <==> multiset(init)[last] >= 1;
    }
  }

  lemma AllCommitted(batch: seq<Request>, p: Partition)
    ensures (forall k :: k in AllKeys(batch) ==> k in p && p[k] == Success) <==>
      forall i :: 0 <= i < |batch| ==> Committed(batch[i], p)
  {
    if forall i :: 0 <= i < |batch| ==> Committed(batch[i], p) {
      forall k | k in AllKeys(batch) ensures k in p && p[k] == Success {
        KeyOrigin(batch, k);
      }
    } else {
      var i :| 0 <= i < |batch| && !Committed(batch[i], p);
      var k :| k in KeysOf(batch[i]) && !(k in p && p[k] == Success);
      KeyOrigin(batch, k);
    }
  }

  /** A batch is ready exactly when no two requests clash and every payload is committed. */
  lemma BatchReady(batch: seq<Request>, p: Partition)
    requires Proper(batch)
    ensures Publishable(AllKeys(batch), p) <==>
      ClashFree(batch) && forall i :: 0 <= i < |batch| ==> Committed(batch[i], p)
  {
    var keys := AllKeys(batch);
    BatchKeysDistinct(batch);
    CountsAtMostOnce(keys);
    AllCommitted(batch, p);
    ByPosition(keys, p);
  }

  lemma ByPosition(keys: seq<string>, p: Partition)
    ensures (forall i :: 0 <= i < |keys| ==> keys[i] in p && p[keys[i]] == Success) <==>
      forall k :: k in keys ==> k in p && p[k] == Success
  {
  }

  // ---- Clearing ----

  datatype Lifecycle = PendingGroup | Occupied | Ready | Dropped | Consumed

  predicate Terminal(s: Lifecycle) {
    s.Dropped? || s.Consumed?
  }

  /** The payload store: partitions of keys. */
  class Store {
    var partitions: map<string, Partition>

    /** Clear those of the keys that are there. Payloads whose owner is not done raise. */
    method ClearPayload(keys: seq<string>, id: string, state: Lifecycle) returns (ok: bool)
      modifies this
      ensures ok <==> Terminal(state)
      ensures partitions == if ok then Cleared(old(partitions), keys, id) else old(partitions)
    {
      if !Terminal(state) {
        return false;
      }
      var existing: seq<string> := [];
      var partition: Partition := if id in partitions then partitions[id] else map[];
      for i := 0 to |keys|
        invariant forall k :: k in existing <==> k in keys[..i] && k in partition
      {
        if keys[i] in partition {
          existing := existing + [keys[i]];
        }
      }
      assert keys[..|keys|] == keys;
      if existing != [] {
        var gone := set k | k in existing;
        assert existing[0] in existing;
        assert partition - gone == partition - (set k | k in keys);
        partitions := partitions[id := partition - gone];
      } else {
        NothingCleared(partitions, keys, id);
      }
      ok := true;
    }
  }

  /** The store without the keys. */
  ghost function Cleared(partitions: map<string, Partition>, keys: seq<string>, id: string): map<string, Partition> {
    if id !in partitions then partitions
    else partitions[id := partitions[id] - (set k | k in keys)]
  }

  lemma NothingCleared(partitions: map<string, Partition>, keys: seq<string>, id: string)
    requires id in partitions ==> forall k :: k in keys ==> k !in partitions[id]
    ensures Cleared(partitions, keys, id) == partitions
  {
    if id in partitions {
      assert partitions[id] - (set k | k in keys) == partitions[id];
    }
  }

  /** A run of clears of whole requests. */
  ghost function ClearedAll(partitions: map<string, Partition>, gone: seq<Request>, id: string): map<string, Partition> {
    if gone == [] then partitions
    else Cleared(ClearedAll(partitions, gone[..|gone| - 1], id), KeysOf(gone[|gone| - 1]), id)
  }

  /** What a run of clears leaves: every key of the cleared requests is gone, and nothing else. */
  lemma {:induction false} ClearedRun(partitions: map<string, Partition>, gone: seq<Request>, id: string)
    ensures ClearedAll(partitions, gone, id) == Cleared(partitions, AllKeys(gone), id)
  {
    if gone == [] {
      NothingCleared(partitions, [], id);
    } else {
      var init, last := gone[..|gone| - 1], KeysOf(gone[|gone| - 1]);
      ClearedRun(partitions, init, id);
      if id in partitions {
        ClearedTwice(partitions[id], AllKeys(init), last);
      }
    }
  }

  lemma ClearedTwice(p: Partition, a: seq<string>, b: seq<string>)
    ensures (p - (set k | k in a)) - (set k | k in b) == p - (set k | k in a + b)
  {
  }

  /** Clearing is idempotent. */
  lemma ClearIdempotent(partitions: map<string, Partition>, gone: seq<Request>, id: string)
    ensures ClearedAll(ClearedAll(partitions, gone, id), gone, id) == ClearedAll(partitions, gone, id)
  {
    var once := ClearedAll(partitions, gone, id);
    ClearedRun(partitions, gone, id);
    ClearedRun(once, gone, id);
    NothingCleared(once, AllKeys(gone), id);
  }

  /** Any run of clears keeps every other request as ready as it was. */
  lemma ClearKeepsOthers(partitions: map<string, Partition>, gone: seq<Request>, id: string, r: Request)
    requires id in partitions && Proper(gone) && 1 <= r.n && forall i :: 0 <= i < |gone| ==> !Clash(gone[i], r)
    ensures id in ClearedAll(partitions, gone, id)
    ensures Committed(r, ClearedAll(partitions, gone, id)[id]) <==> Committed(r, partitions[id])
  {
    ClearedRun(partitions, gone, id);
    SharedWithLast(gone, r);
  }
}
