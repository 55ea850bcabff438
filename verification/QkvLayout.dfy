/**
 Fusing separate Q, K and V projections into one matrix whose rows are interleaved per group of
 query heads. A tensor is the sequence of its rows (or of its biases) in memory order; a view regroups
 that order, and concatenating along the group's own dimension joins the groups pairwise.
 */
module QkvLayout {
  import opened Division
  import opened Groups

  /** Concatenation along the groups' own dimension. */
  function Cat3<T>(q: seq<seq<T>>, k: seq<seq<T>>, v: seq<seq<T>>): (r: seq<seq<T>>)
    requires |q| == |k| == |v|
    ensures |r| == |q|
  {
    seq(|q|, g requires 0 <= g < |q| => q[g] + k[g] + v[g])
  }

  // ---- The fused layout ----

  /** Fuse n groups of a query rows and h key and value rows each. */
  function Fuse<T>(q: seq<T>, k: seq<T>, v: seq<T>, n: nat, a: nat, h: nat): seq<T>
    requires |q| == Times(n, a) && |k| == |v| == Times(n, h)
  {
    Flatten(Cat3(View(q, n, a), View(k, n, h), View(v, n, h)))
  }

  /** A row of one of the three projections. */
  datatype Origin = Query(row: nat) | Key(row: nat) | Value(row: nat)

  predicate Within<T>(q: seq<T>, k: seq<T>, v: seq<T>, at: Origin) {
    match at case Query(i) => i < |q| case Key(i) => i < |k| case Value(i) => i < |v|
  }

  function Pick<T>(q: seq<T>, k: seq<T>, v: seq<T>, at: Origin): T
    requires Within(q, k, v, at)
  {
    match at case Query(i) => q[i] case Key(i) => k[i] case Value(i) => v[i]
  }

  /** Where offset o of group g comes from. */
  function OriginOf(g: nat, o: nat, a: nat, h: nat): Origin {
    if o < a then Query(Times(g, a) + o)
    else if o < a + h then Key(Times(g, h) + (o - a))
    else Value(Times(g, h) + (o - a - h))
  }

  /** Every row of the fused matrix is the row of Q, K or V that its position says. */
  lemma FusedRow<T>(q: seq<T>, k: seq<T>, v: seq<T>, n: nat, a: nat, h: nat, g: nat, o: nat)
    requires |q| == Times(n, a) && |k| == |v| == Times(n, h) && g < n && o < a + h + h
    ensures Within(q, k, v, OriginOf(g, o, a, h)) && Times(g, a + h + h) + o < |Fuse(q, k, v, n, a, h)|
    ensures Fuse(q, k, v, n, a, h)[Times(g, a + h + h) + o] == Pick(q, k, v, OriginOf(g, o, a, h))
  {
    FlattenIndex(Cat3(View(q, n, a), View(k, n, h), View(v, n, h)), a + h + h, g, o);
    if o < a {
      ViewIndex(q, n, a, g, o);
    } else if o < a + h {
      ViewIndex(k, n, h, g, o - a);
    } else {
      ViewIndex(v, n, h, g, o - a - h);
    }
  }

  lemma FusedSize<T>(q: seq<T>, k: seq<T>, v: seq<T>, n: nat, a: nat, h: nat)
    requires |q| == Times(n, a) && |k| == |v| == Times(n, h)
    ensures |Fuse(q, k, v, n, a, h)| == Times(n, a + h + h)
  {
    FlattenSize(Cat3(View(q, n, a), View(k, n, h), View(v, n, h)), a + h + h);
  }

  /** Two positions never hold the same row. */
  lemma OriginInjective(a: nat, h: nat, g: nat, o: nat, g': nat, o': nat)
    requires o < a + h + h && o' < a + h + h && OriginOf(g, o, a, h) == OriginOf(g', o', a, h)
    ensures g == g' && o == o'
  {
    match OriginOf(g, o, a, h)
    case Query(_) => SamePosition(g, o, g', o', a);
    case Key(_) => SamePosition(g, o - a, g', o' - a, h);
    case Value(_) => SamePosition(g, o - a - h, g', o' - a - h, h);
  }

  /** Every row has a position. */
  lemma OriginSurjective<T>(q: seq<T>, k: seq<T>, v: seq<T>, n: nat, a: nat, h: nat, at: Origin) returns (g: nat, o: nat)
    requires |q| == Times(n, a) && |k| == |v| == Times(n, h) && Within(q, k, v, at)
    ensures g < n && o < a + h + h && OriginOf(g, o, a, h) == at
  {
    match at {
      case Query(i) =>
        g, o := Position(i, n, a);
      case Key(i) =>
        g, o := Position(i, n, h);
        o := o + a;
      case Value(i) =>
        g, o := Position(i, n, h);
        o := o + a + h;
    }
  }

  // ---- Splitting a fused tensor ----

  /** Offsets lo .. lo+len of every group. */
  function Columns<T>(parts: seq<seq<T>>, lo: nat, len: nat): (r: seq<seq<T>>)
    requires forall g :: 0 <= g < |parts| ==> lo + len <= |parts[g]|
    ensures |r| == |parts| && Uniform(r, len)
  {
    seq(|parts|, g requires 0 <= g < |parts| => parts[g][lo..lo + len])
  }

  datatype Projections<T> = Projections(q: seq<T>, k: seq<T>, v: seq<T>)

  /** The three projections, taken out of the fused tensor group by group. */
  function Split<T>(fused: seq<T>, n: nat, a: nat, h: nat): Projections<T>
    requires |fused| == Times(n, a + h + h)
  {
    var parts := View(fused, n, a + h + h);
    Projections(Flatten(Columns(parts, 0, a)), Flatten(Columns(parts, a, h)), Flatten(Columns(parts, a + h, h)))
  }

  lemma ColumnsOfCat<T>(q: seq<seq<T>>, k: seq<seq<T>>, v: seq<seq<T>>, a: nat, h: nat)
    requires |q| == |k| == |v| && Uniform(q, a) && Uniform(k, h) && Uniform(v, h)
    ensures var parts := Cat3(q, k, v);
      Columns(parts, 0, a) == q && Columns(parts, a, h) == k && Columns(parts, a + h, h) == v
  {
    var parts := Cat3(q, k, v);
    forall g | 0 <= g < |q|
      ensures parts[g][0..a] == q[g] && parts[g][a..a + h] == k[g] && parts[g][a + h..a + h + h] == v[g]
    {
    }
  }

  lemma CatOfColumns<T>(parts: seq<seq<T>>, a: nat, h: nat, w: nat)
    requires w == a + h + h && Uniform(parts, w)
    ensures Cat3(Columns(parts, 0, a), Columns(parts, a, h), Columns(parts, a + h, h)) == parts
  {
    forall g | 0 <= g < |parts|
      ensures parts[g][0..a] + parts[g][a..a + h] + parts[g][a + h..a + h + h] == parts[g]
    {
    }
  }

  /** Splitting the fused tensor gives back exactly Q, K and V. */
  lemma SplitOfFuse<T>(q: seq<T>, k: seq<T>, v: seq<T>, n: nat, a: nat, h: nat)
    requires |q| == Times(n, a) && |k| == |v| == Times(n, h)
    ensures |Fuse(q, k, v, n, a, h)| == Times(n, a + h + h)
    ensures Split(Fuse(q, k, v, n, a, h), n, a, h) == Projections(q, k, v)
  {
    ViewFlatten(Cat3(View(q, n, a), View(k, n, h), View(v, n, h)), a + h + h);
    ColumnsOfCat(View(q, n, a), View(k, n, h), View(v, n, h), a, h);
    FlattenView(q, n, a);
    FlattenView(k, n, h);
    FlattenView(v, n, h);
  }

  lemma FuseOfParts<T>(q: seq<seq<T>>, k: seq<seq<T>>, v: seq<seq<T>>, n: nat, a: nat, h: nat)
    requires |q| == |k| == |v| == n && Uniform(q, a) && Uniform(k, h) && Uniform(v, h)
    ensures |Flatten(q)| == Times(n, a) && |Flatten(k)| == |Flatten(v)| == Times(n, h)
    ensures Fuse(Flatten(q), Flatten(k), Flatten(v), n, a, h) == Flatten(Cat3(q, k, v))
  {
    ViewFlatten(q, a);
    ViewFlatten(k, h);
    ViewFlatten(v, h);
  }

  lemma SplitParts<T>(parts: seq<seq<T>>, n: nat, a: nat, h: nat, w: nat)
    requires w == a + h + h && |parts| == n && Uniform(parts, w)
    ensures var q, k, v := Flatten(Columns(parts, 0, a)), Flatten(Columns(parts, a, h)), Flatten(Columns(parts, a + h, h));
      |q| == Times(n, a) && |k| == |v| == Times(n, h) && Fuse(q, k, v, n, a, h) == Flatten(parts)
  {
    FuseOfParts(Columns(parts, 0, a), Columns(parts, a, h), Columns(parts, a + h, h), n, a, h);
    CatOfColumns(parts, a, h, w);
  }

  /** And every fused tensor is the fusion of its parts, so nothing else has this layout. */
  lemma FuseOfSplit<T>(fused: seq<T>, n: nat, a: nat, h: nat)
    requires |fused| == Times(n, a + h + h)
    ensures var s := Split(fused, n, a, h);
      |s.q| == Times(n, a) && |s.k| == |s.v| == Times(n, h) && Fuse(s.q, s.k, s.v, n, a, h) == fused
  {
    SplitParts(View(fused, n, a + h + h), n, a, h, a + h + h);
    FlattenView(fused, n, a + h + h);
  }

  // ---- Linear layers ----

  function Dot(row: seq<int>, x: seq<int>): int {
    if row == [] || x == [] then 0 else row[0] * x[0] + Dot(row[1..], x[1..])
  }

  /** y = W x + b. */
  function Linear(weight: seq<seq<int>>, bias: seq<int>, x: seq<int>): seq<int>
    requires |weight| == |bias|
  {
    seq(|weight|, i requires 0 <= i < |weight| => Dot(weight[i], x) + bias[i])
  }

  /** Three projections with their biases fit n groups of a and h rows. */
  ghost predicate Fits(w: Projections<seq<int>>, b: Projections<int>, n: nat, a: nat, h: nat) {
    |w.q| == |b.q| == Times(n, a) && |w.k| == |b.k| == Times(n, h) && |w.v| == |b.v| == Times(n, h)
  }

  function Outputs(w: Projections<seq<int>>, b: Projections<int>, x: seq<int>): Projections<int>
    requires |w.q| == |b.q| && |w.k| == |b.k| && |w.v| == |b.v|
  {
    Projections(Linear(w.q, b.q, x), Linear(w.k, b.k, x), Linear(w.v, b.v, x))
  }

  function Fused<T>(p: Projections<T>, n: nat, a: nat, h: nat): seq<T>
    requires |p.q| == Times(n, a) && |p.k| == |p.v| == Times(n, h)
  {
    Fuse(p.q, p.k, p.v, n, a, h)
  }

  lemma FusedLayerAt(w: Projections<seq<int>>, b: Projections<int>, n: nat, a: nat, h: nat, x: seq<int>, i: nat)
    requires Fits(w, b, n, a, h) && i < Times(n, a + h + h)
    ensures i < |Fused(w, n, a, h)| && i < |Fused(b, n, a, h)| && i < |Fused(Outputs(w, b, x), n, a, h)|
    ensures Dot(Fused(w, n, a, h)[i], x) + Fused(b, n, a, h)[i] == Fused(Outputs(w, b, x), n, a, h)[i]
  {
    var y := Outputs(w, b, x);
    var g, o := Position(i, n, a + h + h);
    FusedRow(w.q, w.k, w.v, n, a, h, g, o);
    FusedRow(b.q, b.k, b.v, n, a, h, g, o);
    FusedRow(y.q, y.k, y.v, n, a, h, g, o);
  }

  /** On every input the fused layer computes the same permutation of the three separate layers. */
  lemma FusedLayer(w: Projections<seq<int>>, b: Projections<int>, n: nat, a: nat, h: nat, x: seq<int>)
    requires Fits(w, b, n, a, h)
    ensures |Fused(w, n, a, h)| == |Fused(b, n, a, h)| == Times(n, a + h + h)
    ensures Linear(Fused(w, n, a, h), Fused(b, n, a, h), x) == Fused(Outputs(w, b, x), n, a, h)
  {
    var y := Outputs(w, b, x);
    var fw, fb, fy := Fused(w, n, a, h), Fused(b, n, a, h), Fused(y, n, a, h);
    FusedSize(w.q, w.k, w.v, n, a, h);
    FusedSize(b.q, b.k, b.v, n, a, h);
    FusedSize(y.q, y.k, y.v, n, a, h);
    forall i | 0 <= i < |fy| ensures Linear(fw, fb, x)[i] == fy[i] {
      FusedLayerAt(w, b, n, a, h, x, i);
    }
  }

  /** Splitting the fused layer's output gives the outputs of the three layers. */
  lemma FusedLayerSplits(w: Projections<seq<int>>, b: Projections<int>, n: nat, a: nat, h: nat, x: seq<int>)
    requires Fits(w, b, n, a, h)
    ensures |Fused(w, n, a, h)| == |Fused(b, n, a, h)| == Times(n, a + h + h)
    ensures Split(Linear(Fused(w, n, a, h), Fused(b, n, a, h), x), n, a, h) == Outputs(w, b, x)
  {
    var y := Outputs(w, b, x);
    FusedLayer(w, b, n, a, h, x);
    SplitOfFuse(y.q, y.k, y.v, n, a, h);
  }
}
