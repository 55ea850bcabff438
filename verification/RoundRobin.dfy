/**
 The repository-balanced sample: problems are grouped by repository, every group is shuffled and
 capped, and the groups give one problem each in turn until enough are collected.
 */
module RoundRobin {
  import opened Common
  import opened Division

  // ---- Turns ----

  /** The pool whose turn is number i: the pools take turns in a circle. */
  function Whose(i: nat, n: nat): (j: nat)
    requires 0 < n
    ensures j < n
  {
    if i == 0 || Whose(i - 1, n) + 1 == n then 0 else Whose(i - 1, n) + 1
  }

  function Rounds(i: nat, n: nat): nat
    requires 0 < n
  {
    if i == 0 then 0 else Rounds(i - 1, n) + if Whose(i, n) == 0 then 1 else 0
  }

  lemma {:induction false} TurnNumber(i: nat, n: nat)
    requires 0 < n
    ensures i == Times(Rounds(i, n), n) + Whose(i, n)
  {
    if i > 0 {
      TurnNumber(i - 1, n);
    }
  }

  lemma WhoseIsRemainder(i: nat, n: nat)
    requires 0 < n
    ensures Whose(i, n) == i % n
  {
    TurnNumber(i, n);
    Unique(i, n, Rounds(i, n), Whose(i, n));
  }

  /** Visits to pool j among the first i turns over n pools. */
  function Visits(j: nat, i: nat, n: nat): nat
    requires j < n
  {
    if i == 0 then 0 else Visits(j, i - 1, n) + if Whose(i - 1, n) == j then 1 else 0
  }

  lemma {:induction false} VisitsPerRound(j: nat, i: nat, n: nat)
    requires j < n
    ensures Visits(j, i, n) == Rounds(i, n) + if j < Whose(i, n) then 1 else 0
  {
    if i > 0 {
      VisitsPerRound(j, i - 1, n);
    }
  }

  /** No pool is ever two visits ahead of another. */
  lemma VisitsBalanced(j: nat, k: nat, i: nat, n: nat)
    requires j < n && k < n
    ensures Visits(j, i, n) <= Visits(k, i, n) + 1
  {
    VisitsPerRound(j, i, n);
    VisitsPerRound(k, i, n);
  }

  // ---- What the first i turns give ----

  /** Items pool j has given after i turns. */
  function Taken<P>(pools: seq<seq<P>>, j: nat, i: nat): nat
    requires j < |pools|
  {
    Smaller(|pools[j]|, Visits(j, i, |pools|))
  }

  /** The items given by the first i turns, each with the pool it came from. */
  function Given<P>(pools: seq<seq<P>>, i: nat): seq<(nat, P)> {
    if i == 0 || pools == [] then []
    else
      var j := Whose(i - 1, |pools|);
      var v := Visits(j, i - 1, |pools|);
      Given(pools, i - 1) + if v < |pools[j]| then [(j, pools[j][v])] else []
  }

  function Items<P>(given: seq<(nat, P)>): seq<P> {
    seq(|given|, k requires 0 <= k < |given| => given[k].1)
  }

  lemma ItemsAppend<P>(given: seq<(nat, P)>, x: (nat, P))
    ensures Items(given + [x]) == Items(given) + [x.1]
  {
  }

  /** What pool j gave, in order. */
  function From<P>(given: seq<(nat, P)>, j: nat): seq<P> {
    if given == [] then []
    else
      var last := given[|given| - 1];
      From(given[..|given| - 1], j) + if last.0 == j then [last.1] else []
  }

  lemma FromAppend<P>(given: seq<(nat, P)>, x: (nat, P), j: nat)
    ensures From(given + [x], j) == From(given, j) + if x.0 == j then [x.1] else []
  {
    assert (given + [x])[..|given|] == given;
  }

  lemma OneMore<P>(pool: seq<P>, v: nat)
    requires v < |pool|
    ensures pool[..v] + [pool[v]] == pool[..v + 1]
  {
  }

  /** Each pool gives a prefix of its list, of length min(capacity, visits). */
  lemma {:induction false} GivesPrefix<P>(pools: seq<seq<P>>, j: nat, i: nat)
    requires j < |pools|
    ensures From(Given(pools, i), j) == pools[j][..Taken(pools, j, i)]
  {
    if i > 0 {
      GivesPrefix(pools, j, i - 1);
      var k := Whose(i - 1, |pools|);
      var v := Visits(k, i - 1, |pools|);
      assert Visits(j, i, |pools|) == Visits(j, i - 1, |pools|) + if k == j then 1 else 0;
      if v < |pools[k]| {
        assert Given(pools, i) == Given(pools, i - 1) + [(k, pools[k][v])];
        FromAppend(Given(pools, i - 1), (k, pools[k][v]), j);
        OneMore(pools[k], v);
      } else {
        assert Given(pools, i) == Given(pools, i - 1);
      }
    }
  }

  ghost predicate Remaining<P>(groups: seq<seq<P>>, pools: seq<seq<P>>, i: nat) {
    && |pools| == |groups|
    && forall j :: 0 <= j < |pools| ==> pools[j] == groups[j][Taken(groups, j, i)..]
  }

  /** One turn: the pool whose turn it is gives its next item, if it has one. */
  lemma Turn<P>(groups: seq<seq<P>>, pools: seq<seq<P>>, i: nat)
    requires groups != [] && Remaining(groups, pools, i)
    ensures var j := Whose(i, |pools|);
      if pools[j] == [] then
        Given(groups, i + 1) == Given(groups, i) && Remaining(groups, pools, i + 1)
      else
        && Given(groups, i + 1) == Given(groups, i) + [(j, pools[j][0])]
        && Remaining(groups, pools[j := pools[j][1..]], i + 1)
  {
    var j := Whose(i, |pools|);
    forall k | 0 <= k < |groups|
      ensures Visits(k, i + 1, |groups|) == Visits(k, i, |groups|) + if k == j then 1 else 0
    {
    }
    if pools[j] != [] {
      assert pools[j][1..] == groups[j][Taken(groups, j, i) + 1..];
    }
  }

  function Sum(xs: seq<nat>): nat {
    if xs == [] then 0 else xs[0] + Sum(xs[1..])
  }

  lemma {:induction false} SumUpdate(xs: seq<nat>, j: nat, x: nat)
    requires j < |xs|
    ensures Sum(xs[j := x]) == Sum(xs) - xs[j] + x
  {
    if j == 0 {
      assert xs[j := x][1..] == xs[1..];
    } else {
      SumUpdate(xs[1..], j - 1, x);
      assert xs[j := x][1..] == xs[1..][j - 1 := x];
    }
  }

  lemma {:induction false} SumMonotone(xs: seq<nat>, ys: seq<nat>)
    requires |xs| == |ys| && forall k :: 0 <= k < |xs| ==> xs[k] <= ys[k]
    ensures Sum(xs) <= Sum(ys)
    ensures Sum(xs) == Sum(ys) ==> xs == ys
  {
    if xs != [] {
      SumMonotone(xs[1..], ys[1..]);
    }
  }

  function Counts<P>(pools: seq<seq<P>>, i: nat): seq<nat> {
    seq(|pools|, j requires 0 <= j < |pools| => Taken(pools, j, i))
  }

  function Capacities<P>(pools: seq<seq<P>>): seq<nat> {
    seq(|pools|, j requires 0 <= j < |pools| => |pools[j]|)
  }

  lemma {:induction false} AllZero(xs: seq<nat>)
    requires forall k :: 0 <= k < |xs| ==> xs[k] == 0
    ensures Sum(xs) == 0
  {
    if xs != [] {
      AllZero(xs[1..]);
    }
  }

  /** The number of items given is the sum of the pools' shares. */
  lemma {:induction false} GivenLength<P>(pools: seq<seq<P>>, i: nat)
    ensures |Given(pools, i)| == Sum(Counts(pools, i))
  {
    if i == 0 || pools == [] {
      AllZero(Counts(pools, i));
    } else {
      GivenLength(pools, i - 1);
      var j := Whose(i - 1, |pools|);
      SumUpdate(Counts(pools, i - 1), j, Taken(pools, j, i));
      assert Counts(pools, i) == Counts(pools, i - 1)[j := Taken(pools, j, i)];
    }
  }

  // ---- The loop ----

  predicate AnyLeft<P>(pools: seq<seq<P>>) {
    exists j :: 0 <= j < |pools| && pools[j] != []
  }

  /** Turns from turn i to the next turn of pool k. */
  function Distance(i: nat, k: nat, n: nat): nat
    requires k < n
  {
    if Whose(i, n) <= k then k - Whose(i, n) else n - Whose(i, n) + k
  }

  /** Some pool that still has items, if there is one. */
  ghost function NonEmpty<P>(pools: seq<seq<P>>): (k: nat)
    requires pools != []
    ensures k < |pools| && (AnyLeft(pools) ==> pools[k] != [])
  {
    if AnyLeft(pools) then var k :| 0 <= k < |pools| && pools[k] != []; k else 0
  }

  /** Turns until some pool with items is reached. */
  ghost function Wait<P>(pools: seq<seq<P>>, i: nat): nat {
    if pools == [] then 0 else Distance(i, NonEmpty(pools), |pools|)
  }

  lemma StepCloser<P>(pools: seq<seq<P>>, i: nat)
    requires AnyLeft(pools) && pools[Whose(i, |pools|)] == []
    ensures Wait(pools, i + 1) < Wait(pools, i)
  {
  }

  /** Nothing is left exactly when every pool gave all it had. */
  lemma Collected<P>(groups: seq<seq<P>>, i: nat)
    ensures Sum(Counts(groups, i)) <= Sum(Capacities(groups))
    ensures Sum(Counts(groups, i)) == Sum(Capacities(groups)) <==>
      forall j :: 0 <= j < |groups| ==> Taken(groups, j, i) == |groups[j]|
  {
    SumMonotone(Counts(groups, i), Capacities(groups));
    if forall j :: 0 <= j < |groups| ==> Taken(groups, j, i) == |groups[j]| {
      assert Counts(groups, i) == Capacities(groups);
    } else {
      var j :| 0 <= j < |groups| && Taken(groups, j, i) != |groups[j]|;
      assert Counts(groups, i)[j] != Capacities(groups)[j];
    }
  }

  lemma Finished<P>(groups: seq<seq<P>>, pools: seq<seq<P>>, i: nat, total: nat)
    requires Remaining(groups, pools, i) && |Given(groups, i)| <= total
    requires |Given(groups, i)| == total || !AnyLeft(pools)
    ensures |Given(groups, i)| == Smaller(total, Sum(Capacities(groups)))
  {
    Collected(groups, i);
    GivenLength(groups, i);
  }

  method TurnOf(i: nat, n: nat) returns (j: nat)
    requires 0 < n
    ensures j == Whose(i, n)
  {
    WhoseIsRemainder(i, n);
    j := i % n;
  }

  /** Turn i: the pool whose turn it is gives its next item, or is stepped over. */
  method TakeTurn<P>(pools: seq<seq<P>>, result: seq<P>, i: nat, ghost groups: seq<seq<P>>)
    returns (pools1: seq<seq<P>>, result1: seq<P>)
    requires AnyLeft(pools) && Remaining(groups, pools, i) && result == Items(Given(groups, i))
    ensures Remaining(groups, pools1, i + 1) && result1 == Items(Given(groups, i + 1))
    ensures |result1| == |result| + 1 || (result1 == result && Wait(pools1, i + 1) < Wait(pools, i))
  {
    var j := TurnOf(i, |pools|);
    var pool := pools[j];
    Turn(groups, pools, i);
    if pool == [] {
      StepCloser(pools, i);
      return pools, result;
    }
    ItemsAppend(Given(groups, i), (j, pool[0]));
    return pools[j := pool[1..]], result + [pool[0]];
  }

  /**
   One item per turn, stepping over exhausted pools, until enough are collected or nothing is left.
   The loop ends because each step over an empty pool comes closer to a non-empty one.
   */
  method Collect<P>(groups: seq<seq<P>>, total: nat) returns (result: seq<P>, turns: nat)
    ensures result == Items(Given(groups, turns))
    ensures |result| == Smaller(total, Sum(Capacities(groups)))
  {
    var pools, i := groups, 0;
    result := [];
    while |result| < total && AnyLeft(pools)
      invariant Remaining(groups, pools, i)
      invariant result == Items(Given(groups, i))
      invariant |result| <= total
      decreases total - |result|, Wait(pools, i)
    {
      pools, result := TakeTurn(pools, result, i, groups);
      i := i + 1;
    }
    turns := i;
    Finished(groups, pools, i, total);
  }

  // ---- Fairness ----

  /** A pool may be more than one item ahead of another only if the other is exhausted. */
  lemma Balanced<P>(pools: seq<seq<P>>, i: nat, a: nat, b: nat)
    requires a < |pools| && b < |pools| && Taken(pools, a, i) > Taken(pools, b, i) + 1
    ensures Taken(pools, b, i) == |pools[b]|
  {
    VisitsBalanced(a, b, i, |pools|);
  }

  /**
   Max-min fairness. Any other allocation of the same size that gives pool a more takes from a pool
   whose share is at most one above a's.
   */
  lemma MaxMinFair<P>(pools: seq<seq<P>>, i: nat, other: seq<nat>, a: nat) returns (b: nat)
    requires |other| == |pools| && a < |pools|
    requires forall j :: 0 <= j < |pools| ==> other[j] <= |pools[j]|
    requires Sum(other) == Sum(Counts(pools, i)) && Taken(pools, a, i) < other[a]
    ensures b < |pools| && other[b] < Taken(pools, b, i) <= Taken(pools, a, i) + 1
  {
    var counts := Counts(pools, i);
    if forall j :: 0 <= j < |pools| ==> counts[j] <= other[j] {
      SumMonotone(counts, other);
      assert false;
    }
    b :| 0 <= b < |pools| && other[b] < counts[b];
    VisitsBalanced(b, a, i, |pools|);
  }

  // ---- Grouping by repository ----

  /** The problems of repository k, in order. */
  function Group<K(==), P>(problems: seq<P>, key: P -> K, k: K): seq<P> {
    if problems == [] then []
    else
      var last := problems[|problems| - 1];
      var init := Group(problems[..|problems| - 1], key, k);
      if key(last) == k then init + [last] else init
  }

  lemma GroupAppend<K, P>(problems: seq<P>, p: P, key: P -> K, k: K)
    ensures Group(problems + [p], key, k) == if key(p) == k then Group(problems, key, k) + [p] else Group(problems, key, k)
  {
    assert (problems + [p])[..|problems|] == problems;
  }

  /** A group keeps the multiplicity of its own problems and holds no others. */
  lemma {:induction false} GroupCount<K, P>(problems: seq<P>, key: P -> K, k: K, p: P)
    ensures multiset(Group(problems, key, k))[p] == if key(p) == k then multiset(problems)[p] else 0
  {
    if problems != [] {
      var init, last := problems[..|problems| - 1], problems[|problems| - 1];
      GroupCount(init, key, k, p);
      assert problems == init + [last];
    }
  }

  method GroupByRepo<K(==), P>(problems: seq<P>, key: P -> K) returns (groups: map<K, seq<P>>)
    ensures forall p :: p in problems ==> key(p) in groups
    ensures forall k :: k in groups ==> groups[k] == Group(problems, key, k) != []
  {
    groups := map[];
    for i := 0 to |problems|
      invariant forall j :: 0 <= j < i ==> key(problems[j]) in groups
      invariant forall k :: k in groups ==> groups[k] == Group(problems[..i], key, k) != []
      invariant forall k :: k !in groups ==> Group(problems[..i], key, k) == []
    {
      var p := problems[i];
      assert problems[..i + 1] == problems[..i] + [p];
      forall k
        ensures Group(problems[..i + 1], key, k) ==
          if key(p) == k then Group(problems[..i], key, k) + [p] else Group(problems[..i], key, k)
      {
        GroupAppend(problems[..i], p, key, k);
      }
      var so := if key(p) in groups then groups[key(p)] else [];
      assert so == Group(problems[..i], key, key(p));
      groups := groups[key(p) := so + [p]];
    }
    assert problems[..|problems|] == problems;
  }

  // ---- The sample ----

  /** Every item is tagged with the position of its repository. */
  ghost predicate Tagged<K, P>(given: seq<(nat, P)>, key: P -> K, order: seq<K>) {
    forall i :: 0 <= i < |given| ==> given[i].0 < |order| && key(given[i].1) == order[given[i].0]
  }

  lemma {:induction false} GroupOfItems<K, P>(given: seq<(nat, P)>, key: P -> K, order: seq<K>, j: nat)
    requires Distinct(order) && Tagged(given, key, order) && j < |order|
    ensures Group(Items(given), key, order[j]) == From(given, j)
  {
    if given != [] {
      var init, last := given[..|given| - 1], given[|given| - 1];
      GroupOfItems(init, key, order, j);
      assert Items(given)[..|given| - 1] == Items(init);
      assert order[last.0] == order[j] <==> last.0 == j;
    }
  }

  lemma {:induction false} GivenTagged<K, P>(pools: seq<seq<P>>, i: nat, key: P -> K, order: seq<K>)
    requires |pools| == |order|
    requires forall j, p :: 0 <= j < |pools| && p in pools[j] ==> key(p) == order[j]
    ensures Tagged(Given(pools, i), key, order)
  {
    if i > 0 && pools != [] {
      GivenTagged(pools, i - 1, key, order);
    }
  }

  function Capped<P>(pool: seq<P>, cap: Option<int>): seq<P> {
    if cap.Some? && 0 <= cap.value < |pool| then pool[..cap.value] else pool
  }

  /** The largest share repository k can have. */
  function Capacity<K(==), P>(problems: seq<P>, key: P -> K, cap: Option<int>, k: K): nat {
    |Capped(Group(problems, key, k), cap)|
  }

  function Share<K(==), P>(sample: seq<P>, key: P -> K, k: K): nat {
    |Group(sample, key, k)|
  }

  /** An arrangement of the groups: what shuffling in place can lead to. */
  ghost predicate Shuffled<K, P>(problems: seq<P>, key: P -> K, order: seq<K>, shuffled: seq<seq<P>>) {
    && |shuffled| == |order| && Distinct(order)
    && (forall p :: p in problems ==> key(p) in order)
    && forall j :: 0 <= j < |order| ==> multiset(shuffled[j]) == multiset(Group(problems, key, order[j]))
  }

  function Shares<K(==), P>(sample: seq<P>, key: P -> K, order: seq<K>): seq<nat> {
    seq(|order|, j requires 0 <= j < |order| => Share(sample, key, order[j]))
  }

  function Limits<K(==), P>(problems: seq<P>, key: P -> K, cap: Option<int>, order: seq<K>): seq<nat> {
    seq(|order|, j requires 0 <= j < |order| => Capacity(problems, key, cap, order[j]))
  }

  /** Shares of the same total within the limits. */
  ghost predicate Allocates(other: seq<nat>, shares: seq<nat>, limits: seq<nat>) {
    && |other| == |shares| == |limits| && Sum(other) == Sum(shares)
    && forall j :: 0 <= j < |other| ==> other[j] <= limits[j]
  }

  /** Whoever gets more in another allocation gets it from one that has at most one more. */
  ghost predicate MaxMin(shares: seq<nat>, limits: seq<nat>) {
    forall other, a :: Allocates(other, shares, limits) && 0 <= a < |shares| && shares[a] < other[a] ==>
      exists b :: 0 <= b < |shares| && other[b] < shares[b] <= shares[a] + 1
  }

  /** What a sample must be: big enough, drawn from the problems, and max-min fair between repositories. */
  ghost predicate FairSample<K, P(!new)>(problems: seq<P>, key: P -> K, order: seq<K>, total: nat, cap: Option<int>, sample: seq<P>) {
    && |sample| == Smaller(total, Sum(Limits(problems, key, cap, order)))
    && (forall p :: multiset(sample)[p] <= multiset(problems)[p])
    && MaxMin(Shares(sample, key, order), Limits(problems, key, cap, order))
    && Even(Shares(sample, key, order), Limits(problems, key, cap, order))
  }

  function Pools<P>(shuffled: seq<seq<P>>, cap: Option<int>): seq<seq<P>> {
    seq(|shuffled|, j requires 0 <= j < |shuffled| => Capped(shuffled[j], cap))
  }

  lemma PoolsFit<K, P>(problems: seq<P>, key: P -> K, order: seq<K>, shuffled: seq<seq<P>>, cap: Option<int>, j: nat)
    requires Shuffled(problems, key, order, shuffled) && j < |order|
    ensures |Pools(shuffled, cap)[j]| == Capacity(problems, key, cap, order[j])
    ensures forall p :: p in Pools(shuffled, cap)[j] ==> key(p) == order[j]
  {
    var group := Group(problems, key, order[j]);
    assert |multiset(shuffled[j])| == |multiset(group)|;
    forall p | p in Pools(shuffled, cap)[j]
      ensures key(p) == order[j]
    {
      assert p in multiset(shuffled[j]);
      GroupCount(problems, key, order[j], p);
    }
  }

  lemma PoolsTagged<K, P>(problems: seq<P>, key: P -> K, order: seq<K>, shuffled: seq<seq<P>>, cap: Option<int>, i: nat)
    requires Shuffled(problems, key, order, shuffled)
    ensures Tagged(Given(Pools(shuffled, cap), i), key, order)
  {
    var pools := Pools(shuffled, cap);
    forall k, p | 0 <= k < |order| && p in pools[k] ensures key(p) == order[k] {
      PoolsFit(problems, key, order, shuffled, cap, k);
    }
    GivenTagged(pools, i, key, order);
  }

  lemma CappedPrefix<P>(pool: seq<P>, cap: Option<int>, t: nat)
    requires t <= |Capped(pool, cap)|
    ensures t <= |pool| && Capped(pool, cap)[..t] == pool[..t]
  {
  }

  /** A repository's share is what its pool gave: the beginning of its shuffled list. */
  lemma ShareIsTaken<K, P>(problems: seq<P>, key: P -> K, order: seq<K>, shuffled: seq<seq<P>>, cap: Option<int>, i: nat, j: nat)
    requires Shuffled(problems, key, order, shuffled) && j < |order|
    ensures Taken(Pools(shuffled, cap), j, i) <= |shuffled[j]|
    ensures Group(Items(Given(Pools(shuffled, cap), i)), key, order[j]) == shuffled[j][..Taken(Pools(shuffled, cap), j, i)]
  {
    var pools := Pools(shuffled, cap);
    CappedPrefix(shuffled[j], cap, Taken(pools, j, i));
    PoolsTagged(problems, key, order, shuffled, cap, i);
    GroupOfItems(Given(pools, i), key, order, j);
    GivesPrefix(pools, j, i);
  }

  lemma PrefixCount<P>(s: seq<P>, n: nat, p: P)
    requires n <= |s|
    ensures multiset(s[..n])[p] <= multiset(s)[p]
  {
    assert s == s[..n] + s[n..];
  }

  /** No problem is sampled more often than it occurs. */
  lemma SampleWithin<K, P>(problems: seq<P>, key: P -> K, order: seq<K>, shuffled: seq<seq<P>>, cap: Option<int>, i: nat, p: P)
    requires Shuffled(problems, key, order, shuffled)
    ensures multiset(Items(Given(Pools(shuffled, cap), i)))[p] <= multiset(problems)[p]
  {
    var given := Given(Pools(shuffled, cap), i);
    var sample := Items(given);
    if p in sample {
      PoolsTagged(problems, key, order, shuffled, cap, i);
      var x :| 0 <= x < |sample| && sample[x] == p;
      var j := given[x].0;
      ShareIsTaken(problems, key, order, shuffled, cap, i, j);
      GroupCount(sample, key, order[j], p);
      PrefixCount(shuffled[j], Taken(Pools(shuffled, cap), j, i), p);
      GroupCount(problems, key, order[j], p);
    }
  }

  lemma CountsMaxMin<P>(pools: seq<seq<P>>, i: nat)
    ensures MaxMin(Counts(pools, i), Capacities(pools))
  {
    var shares, limits := Counts(pools, i), Capacities(pools);
    forall other, a | Allocates(other, shares, limits) && 0 <= a < |shares| && shares[a] < other[a]
      ensures exists b :: 0 <= b < |shares| && other[b] < shares[b] <= shares[a] + 1
    {
      assert forall j :: 0 <= j < |pools| ==> other[j] <= limits[j] == |pools[j]|;
      var b := MaxMinFair(pools, i, other, a);
      assert shares[b] == Taken(pools, b, i);
    }
  }

  /** Shares and limits are what the pools gave and hold. */
  lemma SharesAreCounts<K, P>(problems: seq<P>, key: P -> K, order: seq<K>, shuffled: seq<seq<P>>, cap: Option<int>, i: nat)
    requires Shuffled(problems, key, order, shuffled)
    ensures Shares(Items(Given(Pools(shuffled, cap), i)), key, order) == Counts(Pools(shuffled, cap), i)
    ensures Limits(problems, key, cap, order) == Capacities(Pools(shuffled, cap))
  {
    var pools := Pools(shuffled, cap);
    var sample := Items(Given(pools, i));
    forall j | 0 <= j < |order|
      ensures |pools[j]| == Capacity(problems, key, cap, order[j])
      ensures Share(sample, key, order[j]) == Taken(pools, j, i)
    {
      PoolsFit(problems, key, order, shuffled, cap, j);
      ShareIsTaken(problems, key, order, shuffled, cap, i, j);
    }
  }

  /** Shares differ by more than one only if the smaller is at its limit. */
  ghost predicate Even(shares: seq<nat>, limits: seq<nat>)
    requires |shares| == |limits|
  {
    && (forall a :: 0 <= a < |shares| ==> shares[a] <= limits[a])
    && forall a, b :: 0 <= a < |shares| && 0 <= b < |shares| && shares[a] > shares[b] + 1 ==> shares[b] == limits[b]
  }

  lemma CountsEven<P>(pools: seq<seq<P>>, i: nat)
    ensures Even(Counts(pools, i), Capacities(pools))
  {
    var shares := Counts(pools, i);
    forall a, b | 0 <= a < |shares| && 0 <= b < |shares| && shares[a] > shares[b] + 1
      ensures shares[b] == Capacities(pools)[b]
    {
      Balanced(pools, i, a, b);
    }
  }

  lemma SampleIsFair<K, P(!new)>(problems: seq<P>, key: P -> K, order: seq<K>, shuffled: seq<seq<P>>,
                                 total: nat, cap: Option<int>, i: nat)
    requires Shuffled(problems, key, order, shuffled)
    requires var pools := Pools(shuffled, cap); |Given(pools, i)| == Smaller(total, Sum(Capacities(pools)))
    ensures FairSample(problems, key, order, total, cap, Items(Given(Pools(shuffled, cap), i)))
  {
    var pools := Pools(shuffled, cap);
    SharesAreCounts(problems, key, order, shuffled, cap, i);
    CountsMaxMin(pools, i);
    CountsEven(pools, i);
    forall p ensures multiset(Items(Given(pools, i)))[p] <= multiset(problems)[p] {
      SampleWithin(problems, key, order, shuffled, cap, i, p);
    }
  }

  /** The repositories of the problems. */
  function Repos<K(==), P(==)>(problems: seq<P>, key: P -> K): set<K> {
    set p | p in problems :: key(p)
  }

  lemma GroupNotEmpty<K, P>(problems: seq<P>, key: P -> K, k: K) returns (p: P)
    requires Group(problems, key, k) != []
    ensures p in problems && key(p) == k
  {
    p := Group(problems, key, k)[0];
    assert p in multiset(Group(problems, key, k));
    GroupCount(problems, key, k, p);
  }

  /** Some enumeration of the repositories, and some rearrangement of each group. */
  ghost predicate Arranges<K(!new), P(!new)>(sorted: set<K> -> seq<K>, shuffle: (nat, seq<P>) -> seq<P>) {
    && (forall ks :: Distinct(sorted(ks)) && forall k :: k in sorted(ks) <==> k in ks)
    && forall j, group :: multiset(shuffle(j, group)) == multiset(group)
  }

  /** Group the problems, order the repositories, shuffle each group. */
  method Arrange<K(==,!new), P(==,!new)>(problems: seq<P>, key: P -> K, sorted: set<K> -> seq<K>, shuffle: (nat, seq<P>) -> seq<P>)
    returns (order: seq<K>, shuffled: seq<seq<P>>)
    requires Arranges(sorted, shuffle)
    ensures order == sorted(Repos(problems, key)) && Shuffled(problems, key, order, shuffled)
  {
    var groups := GroupByRepo(problems, key);
    forall k ensures k in groups <==> k in Repos(problems, key) {
      if k in groups {
        var p := GroupNotEmpty(problems, key, k);
      }
    }
    assert groups.Keys == Repos(problems, key);
    order, shuffled := sorted(groups.Keys), [];
    for j := 0 to |order|
      invariant |shuffled| == j
      invariant forall x :: 0 <= x < j ==> multiset(shuffled[x]) == multiset(Group(problems, key, order[x]))
    {
      assert order[j] in groups;
      shuffled := shuffled + [shuffle(j, groups[order[j]])];
    }
  }

  /**
   The whole sampler: group, order and shuffle, then take turns. A non-positive total or cap raises.
   How the repositories are sorted and the groups are shuffled is arbitrary.
   */
  method RepoBalancedSample<K(==,!new), P(==,!new)>(problems: seq<P>, key: P -> K, total: int, cap: Option<int>,
                                                    sorted: set<K> -> seq<K>, shuffle: (nat, seq<P>) -> seq<P>) returns (r: Result<seq<P>>)
    requires Arranges(sorted, shuffle)
    ensures r.Raised? <==> total <= 0 || (cap.Some? && cap.value <= 0)
    ensures r.Ok? ==> FairSample(problems, key, sorted(Repos(problems, key)), total, cap, r.value)
  {
    if total <= 0 || (cap.Some? && cap.value <= 0) {
      return Raised;
    }
    var order, shuffled := Arrange(problems, key, sorted, shuffle);
    var sample, turns := Collect(Pools(shuffled, cap), total);
    SampleIsFair(problems, key, order, shuffled, total, cap, turns);
    r := Ok(sample);
  }
}
