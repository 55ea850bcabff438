/** A sequence seen as equal groups, and groups joined to a sequence. */
module Groups {
  import opened Common
  import opened Division

  /** All parts have size w. */
  ghost predicate Uniform<T>(parts: seq<seq<T>>, w: nat) {
    forall g :: 0 <= g < |parts| ==> |parts[g]| == w
  }

  /** The rows regrouped as n groups of a. */
  function View<T>(rows: seq<T>, n: nat, a: nat): (parts: seq<seq<T>>)
    requires |rows| == Times(n, a)
    ensures |parts| == n && Uniform(parts, a)
    decreases n
  {
    if n == 0 then [] else View(rows[..Times(n - 1, a)], n - 1, a) + [rows[Times(n - 1, a)..]]
  }

  function Flatten<T>(parts: seq<seq<T>>): seq<T> {
    if parts == [] then [] else Flatten(parts[..|parts| - 1]) + parts[|parts| - 1]
  }

  lemma FlattenAppend<T>(parts: seq<seq<T>>, part: seq<T>)
    ensures Flatten(parts + [part]) == Flatten(parts) + part
  {
    InitOfAppend(parts, part);
  }

  lemma {:induction false} FlattenSize<T>(parts: seq<seq<T>>, w: nat)
    requires Uniform(parts, w)
    ensures |Flatten(parts)| == Times(|parts|, w)
  {
    if parts != [] {
      FlattenSize(parts[..|parts| - 1], w);
    }
  }

  /** Element o of group g of the joined sequence. */
  lemma {:induction false} FlattenIndex<T>(parts: seq<seq<T>>, w: nat, g: nat, o: nat)
    requires Uniform(parts, w) && g < |parts| && o < w
    ensures Times(g, w) + o < |Flatten(parts)| && Flatten(parts)[Times(g, w) + o] == parts[g][o]
  {
    var n := |parts| - 1;
    FlattenSize(parts, w);
    FlattenSize(parts[..n], w);
    InRange(g, |parts|, o, w);
    if g < n {
      FlattenIndex(parts[..n], w, g, o);
    }
  }

  /** Viewing and flattening undo each other. */
  lemma {:induction false} FlattenView<T>(rows: seq<T>, n: nat, a: nat)
    requires |rows| == Times(n, a)
    ensures Flatten(View(rows, n, a)) == rows
    decreases n
  {
    if n > 0 {
      var m := Times(n - 1, a);
      FlattenView(rows[..m], n - 1, a);
      FlattenAppend(View(rows[..m], n - 1, a), rows[m..]);
      Halves(rows, m);
    }
  }

  lemma {:induction false} ViewFlatten<T>(parts: seq<seq<T>>, w: nat)
    requires Uniform(parts, w)
    ensures |Flatten(parts)| == Times(|parts|, w) && View(Flatten(parts), |parts|, w) == parts
  {
    FlattenSize(parts, w);
    if parts != [] {
      var n := |parts| - 1;
      ViewFlatten(parts[..n], w);
      var rows := Flatten(parts);
      assert rows[..Times(n, w)] == Flatten(parts[..n]) && rows[Times(n, w)..] == parts[n];
      assert parts == parts[..n] + [parts[n]];
    }
  }

  lemma ViewIndex<T>(rows: seq<T>, n: nat, a: nat, g: nat, o: nat)
    requires |rows| == Times(n, a) && g < n && o < a
    ensures Times(g, a) + o < |rows| && View(rows, n, a)[g][o] == rows[Times(g, a) + o]
  {
    FlattenView(rows, n, a);
    FlattenIndex(View(rows, n, a), a, g, o);
  }
}
