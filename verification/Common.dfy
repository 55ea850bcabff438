/** Types and set folds shared by the models. */
module Common {

  datatype Option<+T> = None | Some(value: T)

  datatype Result<+T> = Ok(value: T) | Raised

  /** The naturals lo .. hi-1. */
  function Range(lo: nat, hi: nat): (r: set<nat>)
    ensures forall i :: i in r <==> lo <= i < hi
    decreases hi - lo
  {
    if lo >= hi then {} else {lo} + Range(lo + 1, hi)
  }

  predicate AtMost(s: set<nat>, m: nat) {
    forall x :: x in s ==> x <= m
  }

  predicate AtLeast(s: set<nat>, m: nat) {
    forall x :: x in s ==> m <= x
  }

  /** Largest element of a nonempty set. */
  function MaxOf(s: set<nat>): (m: nat)
    requires s != {}
    ensures m in s && AtMost(s, m)
  {
    MaxExists(s);
    var m :| m in s && AtMost(s, m);
    m
  }

  lemma {:induction false} MaxExists(s: set<nat>)
    requires s != {}
    ensures exists m :: m in s && AtMost(s, m)
  {
    var m :| m in s;
    var rest := s - {m};
    assert forall x :: x in s ==> x == m || x in rest;
    if rest == {} {
      assert AtMost(s, m);
    } else {
      MaxExists(rest);
      var n :| n in rest && AtMost(rest, n);
      assert AtMost(s, if m <= n then n else m);
    }
  }

  /** Smallest element of a nonempty set. */
  function MinOf(s: set<nat>): (m: nat)
    requires s != {}
    ensures m in s && AtLeast(s, m)
  {
    MinExists(s);
    var m :| m in s && AtLeast(s, m);
    m
  }

  lemma {:induction false} MinExists(s: set<nat>)
    requires s != {}
    ensures exists m :: m in s && AtLeast(s, m)
  {
    var m :| m in s;
    var rest := s - {m};
    assert forall x :: x in s ==> x == m || x in rest;
    if rest == {} {
      assert AtLeast(s, m);
    } else {
      MinExists(rest);
      var n :| n in rest && AtLeast(rest, n);
      assert AtLeast(s, if n <= m then n else m);
    }
  }

  /** A sequence is what comes before its last element, and that element. */
  function Smaller(a: int, b: int): int {
    if a <= b then a else b
  }

  ghost predicate Distinct<T>(xs: seq<T>) {
    forall i, j :: 0 <= i < j < |xs| ==> xs[i] != xs[j]
  }

  /** One element more of a prefix. */
  lemma TakeNext<T>(s: seq<T>, i: nat)
    requires i < |s|
    ensures s[..i + 1] == s[..i] + [s[i]] && s[..i + 1][..i] == s[..i]
  {
  }

  /** One element more of a slice. */
  lemma SliceNext<T>(s: seq<T>, lo: nat, i: nat)
    requires lo <= i < |s|
    ensures s[lo..i + 1] == s[lo..i] + [s[i]] && s[i..i + 1] == [s[i]]
  {
  }

  lemma TakeAll<T>(s: seq<T>)
    ensures s[..|s|] == s
  {
  }

  lemma Halves<T>(s: seq<T>, n: nat)
    requires n <= |s|
    ensures s[..n] + s[n..] == s
  {
  }

  lemma SliceOfPrefix<T>(s: seq<T>, n: nat, lo: nat, hi: nat)
    requires lo <= hi <= n <= |s|
    ensures s[..n][lo..hi] == s[lo..hi]
  {
  }

  lemma Regroup<T>(a: seq<T>, b: seq<T>, c: seq<T>)
    ensures a + (b + c) == a + b + c
  {
  }

  lemma InitOfAppend<T>(s: seq<T>, x: T)
    ensures (s + [x])[..|s|] == s
  {
  }

  lemma InitLast<T>(s: seq<T>)
    requires s != []
    ensures s == s[..|s| - 1] + [s[|s| - 1]]
  {
  }

  lemma CountLast<T>(s: seq<T>, x: T)
    requires s != []
    ensures multiset(s)[x] == multiset(s[..|s| - 1])[x] + if s[|s| - 1] == x then 1 else 0
  {
    InitLast(s);
  }

  // ---- Totals ----

  function Total<T>(s: seq<T>, weight: T -> nat): nat {
    if s == [] then 0 else weight(s[0]) + Total(s[1..], weight)
  }

  lemma {:induction false} TotalAppend<T>(a: seq<T>, b: seq<T>, weight: T -> nat)
    ensures Total(a + b, weight) == Total(a, weight) + Total(b, weight)
  {
    if a == [] {
      assert a + b == b;
    } else {
      TotalAppend(a[1..], b, weight);
      assert (a + b)[1..] == a[1..] + b;
    }
  }

  function Remove<T>(s: seq<T>, k: nat): seq<T>
    requires k < |s|
  {
    s[..k] + s[k + 1..]
  }

  lemma RemoveOne<T>(s: seq<T>, k: nat)
    requires k < |s|
    ensures multiset(Remove(s, k)) == multiset(s) - multiset{s[k]}
  {
    assert s == s[..k] + [s[k]] + s[k + 1..];
  }

  lemma TotalRemove<T>(s: seq<T>, k: nat, weight: T -> nat)
    requires k < |s|
    ensures Total(s, weight) == weight(s[k]) + Total(Remove(s, k), weight)
  {
    assert s == s[..k] + s[k..] && s[k..][1..] == s[k + 1..];
    TotalAppend(s[..k], s[k..], weight);
    TotalAppend(s[..k], s[k + 1..], weight);
  }

  /** A total depends only on which elements there are. */
  lemma {:induction false} SameTotal<T>(a: seq<T>, b: seq<T>, weight: T -> nat)
    requires multiset(a) == multiset(b)
    ensures Total(a, weight) == Total(b, weight)
  {
    if a == [] {
      assert |multiset(b)| == 0;
    } else {
      assert a[0] in multiset(b);
      var k :| 0 <= k < |b| && b[k] == a[0];
      RemoveOne(a, 0);
      RemoveOne(b, k);
      assert Remove(a, 0) == a[1..];
      SameTotal(a[1..], Remove(b, k), weight);
      TotalRemove(b, k, weight);
    }
  }

  lemma SomeMember<T>(s: set<T>) returns (x: T)
    requires 0 < |s|
    ensures x in s
  {
    x :| x in s;
  }
}
