/**
 Sharding a model for conversion: layers over pipeline ranks by running sums of the shard sizes, and
 experts over expert ranks by equal ranges, with the element count that a rank checks per layer.
 */
module ModelSharding {
  import opened Common
  import opened Division

  // ---- Layers over pipeline ranks ----

  /** Layers before rank k. */
  function Before(shards: seq<nat>, k: nat): nat
    requires k <= |shards|
  {
    if k == 0 then 0 else Before(shards, k - 1) + shards[k - 1]
  }

  /** The running sums of the shard sizes. */
  method CumulativeSum(shards: seq<nat>) returns (sums: seq<nat>)
    ensures |sums| == |shards| && forall k :: 0 <= k < |shards| ==> sums[k] == Before(shards, k + 1)
  {
    sums := [];
    var sum := 0;
    for k := 0 to |shards|
      invariant |sums| == k && sum == Before(shards, k)
      invariant forall i :: 0 <= i < k ==> sums[i] == Before(shards, i + 1)
    {
      sum := sum + shards[k];
      sums := sums + [sum];
    }
  }

  /** The layers of one rank. */
  method LayerRange(shards: seq<nat>, rank: nat) returns (start: nat, end: nat)
    requires rank < |shards|
    ensures start == Before(shards, rank) && end == start + shards[rank]
  {
    var sums := CumulativeSum(shards);
    start := if rank == 0 then 0 else sums[rank - 1];
    end := sums[rank];
  }

  lemma {:induction false} BeforeMonotone(shards: seq<nat>, i: nat, j: nat)
    requires i <= j <= |shards|
    ensures Before(shards, i) <= Before(shards, j)
  {
    if i < j {
      BeforeMonotone(shards, i, j - 1);
    }
  }

  ghost predicate Holds(shards: seq<nat>, rank: nat, layer: nat)
    requires rank < |shards|
  {
    Before(shards, rank) <= layer < Before(shards, rank + 1)
  }

  /** Every layer belongs to exactly one rank. */
  lemma {:induction false} OneRankPerLayer(shards: seq<nat>, layer: nat) returns (rank: nat)
    requires layer < Before(shards, |shards|)
    ensures rank < |shards| && Holds(shards, rank, layer)
    ensures forall r :: 0 <= r < |shards| && Holds(shards, r, layer) ==> r == rank
  {
    rank := 0;
    while Before(shards, rank + 1) <= layer
      invariant rank < |shards| && Before(shards, rank) <= layer
      decreases |shards| - rank
    {
      rank := rank + 1;
    }
    forall r | 0 <= r < |shards| && Holds(shards, r, layer) ensures r == rank {
      if r < rank {
        BeforeMonotone(shards, r + 1, rank);
      } else if rank < r {
        BeforeMonotone(shards, rank + 1, r);
      }
    }
  }

  // ---- Experts over expert ranks ----

  /** The weights of an expert, each as its elements in memory order. */
  datatype Expert = Expert(gate: seq<int>, up: seq<int>, down: seq<int>)

  function Size(e: Expert): nat {
    |e.gate| + |e.up| + |e.down|
  }

  function TotalSize(experts: seq<Expert>): nat {
    if experts == [] then 0 else TotalSize(experts[..|experts| - 1]) + Size(experts[|experts| - 1])
  }

  lemma TotalOfNext(part: seq<Expert>, k: nat)
    requires k < |part|
    ensures TotalSize(part[..k + 1]) == TotalSize(part[..k]) + Size(part[k])
  {
    assert part[..k + 1][..k] == part[..k];
  }

  /** The experts of one rank. */
  function Local(experts: seq<Expert>, rank: nat, local: nat): (part: seq<Expert>)
    requires Times(rank + 1, local) <= |experts|
    ensures |part| == local
  {
    experts[Times(rank, local)..Times(rank + 1, local)]
  }

  lemma LocalRange(count: nat, rank: nat, ranks: nat)
    requires rank < ranks
    ensures Times(rank + 1, count / ranks) <= count
  {
    TimesMonotone(rank + 1, ranks, count / ranks);
    Divided(count, ranks);
    TimesCommutes(count / ranks, ranks);
  }

  /** Slots up to k hold the rank's first k experts. */
  ghost predicate Stored(fc1: array<seq<int>>, fc2: array<seq<int>>, part: seq<Expert>, k: nat)
    reads fc1, fc2
    requires k <= |part| == fc1.Length == fc2.Length
  {
    forall j :: 0 <= j < k ==> fc1[j] == part[j].gate + part[j].up && fc2[j] == part[j].down
  }

  /** Copy one expert into its slot. */
  method CopyExpert(expert: Expert, slot: nat, fc1: array<seq<int>>, fc2: array<seq<int>>, ghost part: seq<Expert>)
    returns (size: nat)
    requires slot < |part| == fc1.Length == fc2.Length && fc1 != fc2 && part[slot] == expert && Stored(fc1, fc2, part, slot)
    modifies fc1, fc2
    ensures Stored(fc1, fc2, part, slot + 1) && size == Size(expert)
  {
    fc1[slot] := expert.gate + expert.up;
    fc2[slot] := expert.down;
    size := |fc1[slot]| + |fc2[slot]|;
  }

  /** Copy the experts start .. end and skip the others, counting what is copied. */
  method CopyRange(experts: seq<Expert>, start: nat, end: nat, fc1: array<seq<int>>, fc2: array<seq<int>>)
    returns (numel: nat, down: Option<nat>)
    requires start <= end <= |experts| && fc1.Length == fc2.Length == end - start && fc1 != fc2
    modifies fc1, fc2
    ensures var part := experts[start..end];
      && Stored(fc1, fc2, part, |part|) && numel == TotalSize(part)
      && down == if part == [] then None else Some(|part[|part| - 1].down|)
  {
    ghost var part, k := experts[start..end], 0;
    numel, down := 0, None;
    for i := 0 to |experts|
      invariant k == (if i < start then 0 else if i < end then i - start else end - start)
      invariant Stored(fc1, fc2, part, k)
      invariant numel == TotalSize(part[..k])
      invariant down == if k == 0 then None else Some(|part[k - 1].down|)
    {
      if i < start || i >= end {
        continue;
      }
      var slot := i - start;
      var size := CopyExpert(experts[i], slot, fc1, fc2, part);
      numel := numel + size;
      down := Some(|experts[i].down|);
      TotalOfNext(part, slot);
      k := k + 1;
    }
    assert part[..|part|] == part;
  }

  /**
   Copy this rank's experts into its local slots, and count the elements. The size of the last copied
   down projection is kept for the count that follows; without a local expert it stays undefined.
   */
  method CopyExperts(experts: seq<Expert>, rank: nat, ranks: nat, fc1: array<seq<int>>, fc2: array<seq<int>>)
    returns (numel: nat, down: Option<nat>)
    requires rank < ranks && fc1.Length == fc2.Length == |experts| / ranks && fc1 != fc2
    modifies fc1, fc2
    ensures Times(rank + 1, fc1.Length) <= |experts|
    ensures var part := Local(experts, rank, fc1.Length);
      && Stored(fc1, fc2, part, |part|) && numel == TotalSize(part)
      && down == if part == [] then None else Some(|part[|part| - 1].down|)
  {
    var local := |experts| / ranks;
    LocalRange(|experts|, rank, ranks);
    numel, down := CopyRange(experts, Times(rank, local), Times(rank + 1, local), fc1, fc2);
  }

  /** Rank r, with `local` experts of its own, copies expert i. */
  predicate Copies(local: nat, r: nat, i: nat) {
    Times(r, local) <= i < Times(r + 1, local)
  }

  lemma OnlyQuotient(local: nat, r: nat, i: nat)
    requires Copies(local, r, i)
    ensures i / local == r && i % local == i - Times(r, local)
  {
    Unique(i, local, r, i - Times(r, local));
  }

  /** No expert goes to two ranks, and an expert's local slot is its remainder. */
  lemma OneRankPerExpert(local: nat, r: nat, s: nat, i: nat)
    requires Copies(local, r, i) && Copies(local, s, i)
    ensures r == s && i - Times(r, local) == i % local < local
  {
    OnlyQuotient(local, r, i);
    OnlyQuotient(local, s, i);
  }

  /** Two experts of one rank never share a slot. */
  lemma DistinctSlots(local: nat, r: nat, i: nat, j: nat)
    requires Copies(local, r, i) && Copies(local, r, j) && i % local == j % local
    ensures i == j
  {
    OnlyQuotient(local, r, i);
    OnlyQuotient(local, r, j);
  }

  ghost predicate Copied(local: nat, ranks: nat, i: nat) {
    exists r :: 0 <= r < ranks && Copies(local, r, i)
  }

  /** Every expert is copied exactly when the ranks divide the experts. */
  lemma AllCopied(count: nat, ranks: nat)
    requires 0 < ranks
    ensures (forall i :: 0 <= i < count ==> Copied(count / ranks, ranks, i)) <==> count % ranks == 0
  {
    var local := count / ranks;
    var covered := Times(ranks, local);
    Divided(count, ranks);
    TimesCommutes(ranks, local);
    if count % ranks == 0 {
      forall i | 0 <= i < count ensures Copied(local, ranks, i) {
        var r, o := Position(i, ranks, local);
        assert Copies(local, r, i);
      }
    } else {
      forall r | 0 <= r < ranks ensures !Copies(local, r, covered) {
        TimesMonotone(r + 1, ranks, local);
      }
      assert !Copied(local, ranks, covered);
    }
  }

  // ---- The per-layer count ----

  ghost predicate EqualSizes(experts: seq<Expert>, c: nat) {
    forall i :: 0 <= i < |experts| ==> |experts[i].gate| == |experts[i].up| == |experts[i].down| == c
  }

  lemma {:induction false} EqualTotal(experts: seq<Expert>, c: nat)
    requires EqualSizes(experts, c)
    ensures TotalSize(experts) == Times(|experts|, Times(c, 3))
  {
    if experts != [] {
      EqualTotal(experts[..|experts| - 1], c);
      TimesCommutes(c, 3);
      Triple(c);
    }
  }

  /** What the rank expects to have copied: the whole layer less the other ranks' share. */
  function Expected(rest: nat, total: nat, count: nat, down: nat, ranks: nat): int
    requires 0 < ranks
  {
    rest + total - Times(Times(Times(down, 3), count) / ranks, ranks - 1)
  }

  /** A rank's share of m elements per expert, when the division leaves r experts over. */
  lemma ShareOfAll(m: nat, count: nat, ranks: nat, local: nat, r: nat, u: nat, v: nat)
    requires count == Times(local, ranks) + r && Times(m, r) == Times(u, ranks) + v
    ensures Times(m, count) == Times(Times(m, local) + u, ranks) + v
  {
    TimesAdd(m, Times(local, ranks), r);
    TimesAssociates(m, local, ranks);
    TimesAddLeft(Times(m, local), u, ranks);
  }

  lemma OneMore(x: nat, n: nat)
    requires 0 < n
    ensures Times(x, n) == Times(x, n - 1) + x
  {
    TimesAdd(x, n - 1, 1);
    TimesIsProduct(x, 1);
  }

  lemma NothingOver(m: nat, r: nat, ranks: nat, u: nat, v: nat)
    requires 0 < m && Times(m, r) == Times(u, ranks) + v && v < ranks
    ensures u + v == 0 <==> r == 0
  {
    if r == 0 {
      TimesCommutes(m, 0);
      SamePosition(u, v, 0, 0, ranks);
    } else {
      TimesGrows(m, 0, r);
      TimesCommutes(u, ranks);
    }
  }

  lemma CountByShare(m: nat, count: nat, ranks: nat, local: nat, r: nat, u: nat, v: nat)
    requires 0 < m && 0 < ranks && count == Times(local, ranks) + r && Times(m, r) == Times(u, ranks) + v && v < ranks
    ensures Times(local, m) == Times(count, m) - Times(Times(m, local) + u, ranks - 1) <==> r == 0
  {
    ShareOfAll(m, count, ranks, local, r, u, v);
    OneMore(Times(m, local) + u, ranks);
    TimesCommutes(count, m);
    TimesCommutes(local, m);
    NothingOver(m, r, ranks, u, v);
  }

  /**
   The count a rank makes agrees with the count it expects exactly when the ranks divide the experts,
   given expert projections of one positive size.
   */
  lemma CountAgrees(rest: nat, count: nat, ranks: nat, c: nat)
    requires 0 < ranks && 0 < c
    ensures rest + Times(count / ranks, Times(c, 3)) == Expected(rest, Times(count, Times(c, 3)), count, c, ranks) <==>
      count % ranks == 0
  {
    var m, local, r := Times(c, 3), count / ranks, count % ranks;
    var u, v := Times(m, r) / ranks, Times(m, r) % ranks;
    Divided(count, ranks);
    Divided(Times(m, r), ranks);
    ShareOfAll(m, count, ranks, local, r, u, v);
    Unique(Times(m, count), ranks, Times(m, local) + u, v);
    TimesIsProduct(c, 3);
    CountByShare(m, count, ranks, local, r, u, v);
  }

  /**
   Convert a mixture-of-experts layer: copy the local experts beside `rest` other elements and assert
   the count. Without a local expert the assertion cannot even be evaluated.
   */
  method ConvertLayer(rest: nat, experts: seq<Expert>, rank: nat, ranks: nat, fc1: array<seq<int>>, fc2: array<seq<int>>,
                      ghost c: nat) returns (r: Result<nat>)
    requires rank < ranks && fc1.Length == fc2.Length == |experts| / ranks && fc1 != fc2
    modifies fc1, fc2
    ensures r.Ok? ==> Times(rank + 1, fc1.Length) <= |experts|
    ensures r.Ok? ==>
      var part := Local(experts, rank, fc1.Length); r.value == rest + TotalSize(part) && Stored(fc1, fc2, part, |part|)
    ensures EqualSizes(experts, c) ==> (r.Ok? <==> ranks <= |experts| && (c == 0 || |experts| % ranks == 0))
  {
    var numel, down := CopyExperts(experts, rank, ranks, fc1, fc2);
    HasLocal(|experts|, ranks);
    if down.None? {
      return Raised;
    }
    r := if rest + numel == Expected(rest, TotalSize(experts), |experts|, down.value, ranks) then Ok(rest + numel) else Raised;
    if EqualSizes(experts, c) {
      var local := fc1.Length;
      EqualTotal(experts, c);
      EqualTotal(Local(experts, rank, local), c);
      if 0 < c {
        CountAgrees(rest, |experts|, ranks, c);
      } else {
        NothingToCount(rest, |experts|, ranks);
      }
    }
  }

  /** A rank has experts of its own exactly when there are as many experts as ranks. */
  lemma HasLocal(count: nat, ranks: nat)
    requires 0 < ranks
    ensures count / ranks == 0 <==> count < ranks
    ensures count % ranks == 0 && count < ranks ==> count == 0
  {
    Divided(count, ranks);
    if 0 < count / ranks {
      TimesMonotone(1, count / ranks, ranks);
    }
  }

  lemma NothingToCount(rest: nat, count: nat, ranks: nat)
    requires 0 < ranks
    ensures Times(count, Times(0, 3)) == 0 && Times(count / ranks, Times(0, 3)) == 0
    ensures Expected(rest, 0, count, 0, ranks) == rest
  {
    TimesIsProduct(count, 0);
    TimesIsProduct(count / ranks, 0);
    TimesIsProduct(0, count);
    TimesIsProduct(0, ranks - 1);
    TimesIsProduct(ranks - 1, 0);
    TimesCommutes(0, ranks - 1);
    Unique(0, ranks, 0, 0);
  }
}
