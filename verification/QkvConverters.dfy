/**
 The converters' own shape arithmetic: the dense 3-D form, its bias, the 4-D form of the
 vision-language model and the transposing form of its vision tower. All give the one fused layout.
 */
module QkvConverters {
  import opened Common
  import opened Division
  import opened Groups
  import opened QkvLayout

  // ---- Dense: view by group ----

  /** The weight conversion; a view whose sizes do not fit raises, as does a division by zero heads. */
  function Dense<T>(q: seq<T>, k: seq<T>, v: seq<T>, heads: nat, groups: nat, headDim: nat): Result<seq<T>> {
    if groups == 0 then Raised
    else
      var a := Times(headDim, heads) / groups;
      if |q| != Times(groups, a) || |k| != Times(groups, headDim) || |v| != Times(groups, headDim) then Raised
      else Ok(Fuse(q, k, v, groups, a, headDim))
  }

  /** The group size that a view infers. */
  function Inferred(len: nat, groups: nat): Option<nat> {
    if groups == 0 || len % groups != 0 then None else Some(len / groups)
  }

  /** The bias conversion infers every group size from the length. */
  function DenseBias<T>(q: seq<T>, k: seq<T>, v: seq<T>, groups: nat): Result<seq<T>> {
    var a, h, h' := Inferred(|q|, groups), Inferred(|k|, groups), Inferred(|v|, groups);
    if a.None? || h.None? || h'.None? then Raised
    else
      Exact(|q|, groups); Exact(|k|, groups); Exact(|v|, groups);
      Ok(Flatten(Cat3(View(q, groups, a.value), View(k, groups, h.value), View(v, groups, h'.value))))
  }

  /** Weight and bias get one and the same layout. The conversion succeeds exactly when the groups divide the query rows. */
  lemma DenseConverts<T, U>(q: seq<T>, k: seq<T>, v: seq<T>, qb: seq<U>, kb: seq<U>, vb: seq<U>,
                            heads: nat, groups: nat, headDim: nat)
    requires 0 < groups && |q| == |qb| == Times(headDim, heads)
    requires |k| == |kb| == Times(groups, headDim) && |v| == |vb| == Times(groups, headDim)
    ensures Dense(q, k, v, heads, groups, headDim).Ok? <==> |q| % groups == 0
    ensures DenseBias(qb, kb, vb, groups).Ok? <==> |q| % groups == 0
    ensures |q| % groups == 0 ==>
      var a := |q| / groups;
      && |q| == |qb| == Times(groups, a)
      && Dense(q, k, v, heads, groups, headDim) == Ok(Fuse(q, k, v, groups, a, headDim))
      && DenseBias(qb, kb, vb, groups) == Ok(Fuse(qb, kb, vb, groups, a, headDim))
  {
    Quotient(groups, headDim);
    Quotient(groups, |q| / groups);
    if |q| % groups == 0 {
      Exact(|q|, groups);
    }
  }

  /** Key-value heads that divide the query heads are enough. */
  lemma WholeHeads(heads: nat, groups: nat, headDim: nat)
    requires 0 < groups && heads % groups == 0
    ensures Times(headDim, heads) % groups == 0 && Times(headDim, heads) / groups == Times(heads / groups, headDim)
  {
    var r := heads / groups;
    Exact(heads, groups);
    TimesCommutes(headDim, heads);
    TimesAssociates(groups, r, headDim);
    Quotient(groups, Times(r, headDim));
  }

  // ---- Vision-language model: view by head ----

  lemma {:induction false} FlattenAppend<T>(a: seq<seq<T>>, b: seq<seq<T>>)
    ensures Flatten(a + b) == Flatten(a) + Flatten(b)
  {
    if b == [] {
      assert a + b == a;
    } else {
      var n := |b| - 1;
      FlattenAppend(a, b[..n]);
      assert (a + b)[..|a + b| - 1] == a + b[..n];
    }
  }

  /** Groups of heads of rows. */
  function View4<T>(rows: seq<T>, n: nat, heads: nat, headDim: nat): (r: seq<seq<seq<T>>>)
    requires |rows| == Times(n, Times(heads, headDim))
    ensures |r| == n
  {
    var groups := View(rows, n, Times(heads, headDim));
    seq(n, g requires 0 <= g < n => View(groups[g], heads, headDim))
  }

  function FlattenEach<T>(parts: seq<seq<seq<T>>>): seq<seq<T>> {
    seq(|parts|, g requires 0 <= g < |parts| => Flatten(parts[g]))
  }

  /** Fuse by concatenating heads within each group. */
  function FuseHeads<T>(q: seq<T>, k: seq<T>, v: seq<T>, n: nat, r: nat, s: nat, t: nat, headDim: nat): seq<T>
    requires |q| == Times(n, Times(r, headDim)) && |k| == Times(n, Times(s, headDim)) && |v| == Times(n, Times(t, headDim))
  {
    Flatten(FlattenEach(Cat3(View4(q, n, r, headDim), View4(k, n, s, headDim), View4(v, n, t, headDim))))
  }

  /** Concatenating heads places every row where concatenating groups does. */
  lemma HeadsAgree<T>(q: seq<T>, k: seq<T>, v: seq<T>, n: nat, r: nat, s: nat, headDim: nat)
    requires |q| == Times(n, Times(r, headDim)) && |k| == |v| == Times(n, Times(s, headDim))
    ensures FuseHeads(q, k, v, n, r, s, s, headDim) == Fuse(q, k, v, n, Times(r, headDim), Times(s, headDim))
  {
    var q4, k4, v4 := View4(q, n, r, headDim), View4(k, n, s, headDim), View4(v, n, s, headDim);
    var q3, k3, v3 := View(q, n, Times(r, headDim)), View(k, n, Times(s, headDim)), View(v, n, Times(s, headDim));
    forall g | 0 <= g < n ensures FlattenEach(Cat3(q4, k4, v4))[g] == Cat3(q3, k3, v3)[g] {
      FlattenAppend(q4[g] + k4[g], v4[g]);
      FlattenAppend(q4[g], k4[g]);
      FlattenView(q3[g], r, headDim);
      FlattenView(k3[g], s, headDim);
      FlattenView(v3[g], s, headDim);
    }
    assert FlattenEach(Cat3(q4, k4, v4)) == Cat3(q3, k3, v3);
  }

  /** The head-wise weight conversion; the number of heads per group is inferred. */
  function ByHead<T>(q: seq<T>, k: seq<T>, v: seq<T>, n: nat, headDim: nat): Result<seq<T>> {
    var unit := Times(n, headDim);
    var r, s, t := Inferred(|q|, unit), Inferred(|k|, unit), Inferred(|v|, unit);
    if r.None? || s.None? || t.None? then Raised
    else
      Heads(|q|, n, headDim); Heads(|k|, n, headDim); Heads(|v|, n, headDim);
      Ok(FuseHeads(q, k, v, n, r.value, s.value, t.value, headDim))
  }

  lemma Heads(len: nat, n: nat, headDim: nat)
    requires Inferred(len, Times(n, headDim)).Some?
    ensures len == Times(n, Times(Inferred(len, Times(n, headDim)).value, headDim))
  {
    var r := len / Times(n, headDim);
    Exact(len, Times(n, headDim));
    TimesAssociates(n, headDim, r);
    TimesCommutes(headDim, r);
  }

  /** A length of whole heads splits into groups of r whole heads exactly when there are r per group. */
  lemma HeadsInferred(heads: nat, n: nat, headDim: nat)
    requires 0 < n && 0 < headDim
    ensures Inferred(Times(headDim, heads), Times(n, headDim)) == Inferred(heads, n)
  {
    var unit := Times(n, headDim);
    TimesIsProduct(n, headDim);
    assert 0 < unit;
    TimesCommutes(n, headDim);
    if heads % n == 0 {
      var r := heads / n;
      Exact(heads, n);
      TimesAssociates(headDim, n, r);
      Quotient(unit, r);
    } else if Times(headDim, heads) % unit == 0 {
      var r := Times(headDim, heads) / unit;
      Exact(Times(headDim, heads), unit);
      TimesAssociates(headDim, n, r);
      TimesCancels(headDim, heads, Times(n, r));
      Quotient(n, r);
    }
  }

  lemma OneHead(groups: nat, headDim: nat)
    requires 0 < groups && 0 < headDim
    ensures Inferred(Times(groups, headDim), Times(groups, headDim)) == Some(1) && Times(1, headDim) == headDim
  {
    HeadsInferred(groups, groups, headDim);
    TimesCommutes(groups, headDim);
    TimesIsProduct(groups, 1);
    Quotient(groups, 1);
  }

  lemma ByHeadValue<T>(q: seq<T>, k: seq<T>, v: seq<T>, heads: nat, groups: nat, headDim: nat)
    requires 0 < groups && 0 < headDim && |q| == Times(headDim, heads) && |k| == |v| == Times(groups, headDim)
    requires heads % groups == 0
    ensures |q| == Times(groups, Times(heads / groups, headDim))
    ensures ByHead(q, k, v, groups, headDim) == Ok(Fuse(q, k, v, groups, Times(heads / groups, headDim), headDim))
  {
    HeadsInferred(heads, groups, headDim);
    OneHead(groups, headDim);
    Heads(|q|, groups, headDim);
    HeadsAgree(q, k, v, groups, heads / groups, 1, headDim);
  }

  /** The head-wise conversion succeeds exactly for whole heads per group, and then agrees with the dense one. */
  lemma ByHeadAgrees<T>(q: seq<T>, k: seq<T>, v: seq<T>, heads: nat, groups: nat, headDim: nat)
    requires 0 < groups && 0 < headDim && |q| == Times(headDim, heads) && |k| == |v| == Times(groups, headDim)
    ensures ByHead(q, k, v, groups, headDim).Ok? <==> heads % groups == 0
    ensures heads % groups == 0 ==> ByHead(q, k, v, groups, headDim) == Dense(q, k, v, heads, groups, headDim)
  {
    if heads % groups == 0 {
      ByHeadValue(q, k, v, heads, groups, headDim);
      WholeHeads(heads, groups, headDim);
      DenseConverts(q, k, v, q, k, v, heads, groups, headDim);
    } else {
      HeadsInferred(heads, groups, headDim);
    }
  }

  // ---- Vision tower: transpose ----

  /** Blocks t, g of a tensor seen as 3 by n by w. */
  function Blocks<T>(rows: seq<T>, n: nat, w: nat): (r: seq<seq<seq<T>>>)
    requires |rows| == Times(3, Times(n, w))
    ensures |r| == 3 && forall t :: 0 <= t < 3 ==> |r[t]| == n
  {
    var thirds := View(rows, 3, Times(n, w));
    seq(3, t requires 0 <= t < 3 => View(thirds[t], n, w))
  }

  function Transpose<T>(blocks: seq<seq<seq<T>>>, n: nat): seq<seq<seq<T>>>
    requires |blocks| == 3 && forall t :: 0 <= t < 3 ==> |blocks[t]| == n
  {
    seq(n, g requires 0 <= g < n => seq(3, t requires 0 <= t < 3 => blocks[t][g]))
  }

  /** The converted tensor of the vision tower. */
  function Transposed<T>(rows: seq<T>, n: nat, w: nat): seq<T>
    requires |rows| == Times(3, Times(n, w))
  {
    Flatten(FlattenEach(Transpose(Blocks(rows, n, w), n)))
  }

  /** The weight is seen by head, so its length must be a multiple of the head size too. */
  function Vision<T>(rows: seq<T>, n: nat, headDim: nat): Result<seq<T>> {
    var heads := Inferred(|rows|, Times(3, Times(n, headDim)));
    if heads.None? then Raised
    else
      VisionRows(|rows|, n, headDim);
      Ok(Transposed(rows, n, Times(heads.value, headDim)))
  }

  function VisionBias<T>(rows: seq<T>, n: nat): Result<seq<T>> {
    var w := Inferred(|rows|, Times(3, n));
    if w.None? then Raised
    else
      Exact(|rows|, Times(3, n));
      TimesAssociates(3, n, w.value);
      Ok(Transposed(rows, n, w.value))
  }

  lemma VisionRows(len: nat, n: nat, headDim: nat)
    requires Inferred(len, Times(3, Times(n, headDim))).Some?
    ensures var w := Times(Inferred(len, Times(3, Times(n, headDim))).value, headDim);
      len == Times(3, Times(n, w)) && Inferred(len, Times(3, n)) == Some(w)
  {
    var h := len / Times(3, Times(n, headDim));
    var w := Times(h, headDim);
    Exact(len, Times(3, Times(n, headDim)));
    TimesAssociates(3, Times(n, headDim), h);
    TimesAssociates(n, headDim, h);
    TimesCommutes(headDim, h);
    TimesAssociates(3, n, w);
    TimesIsProduct(n, headDim);
    assert 0 < Times(3, n);
    Quotient(Times(3, n), w);
  }

  lemma FlattenThree<T>(parts: seq<seq<T>>)
    requires |parts| == 3
    ensures Flatten(parts) == parts[0] + parts[1] + parts[2]
  {
    assert parts == [parts[0]] + [parts[1]] + [parts[2]];
    FlattenAppend([parts[0]] + [parts[1]], [parts[2]]);
    FlattenAppend([parts[0]], [parts[1]]);
  }

  lemma ViewThirds<T>(q: seq<T>, k: seq<T>, v: seq<T>)
    requires |q| == |k| == |v|
    ensures |q + k + v| == Times(3, |q|) && View(q + k + v, 3, |q|) == [q, k, v]
  {
    var parts := [q, k, v];
    FlattenThree(parts);
    ViewFlatten(parts, |q|);
  }

  /** The transposing form is the fusion of the three thirds. */
  lemma TransposedIsFused<T>(q: seq<T>, k: seq<T>, v: seq<T>, n: nat, w: nat)
    requires |q| == |k| == |v| == Times(n, w)
    ensures |q + k + v| == Times(3, Times(n, w))
    ensures Transposed(q + k + v, n, w) == Fuse(q, k, v, n, w, w)
  {
    Triple(Times(n, w));
    var rows := q + k + v;
    var thirds := View(rows, 3, Times(n, w));
    ViewThirds(q, k, v);
    assert thirds[0] == q && thirds[1] == k && thirds[2] == v;
    var blocks := Blocks(rows, n, w);
    var parts := Cat3(View(q, n, w), View(k, n, w), View(v, n, w));
    forall g | 0 <= g < n ensures FlattenEach(Transpose(blocks, n))[g] == parts[g] {
      FlattenThree(Transpose(blocks, n)[g]);
    }
    assert FlattenEach(Transpose(blocks, n)) == parts;
  }

  /** Weight and bias of the same length get the same permutation. */
  lemma VisionConverts<T, U>(rows: seq<T>, bias: seq<U>, n: nat, headDim: nat) returns (w: nat)
    requires |rows| == |bias| && Vision(rows, n, headDim).Ok?
    ensures |rows| == |bias| == Times(3, Times(n, w))
    ensures Vision(rows, n, headDim) == Ok(Transposed(rows, n, w))
    ensures VisionBias(bias, n) == Ok(Transposed(bias, n, w))
  {
    w := Times(Inferred(|rows|, Times(3, Times(n, headDim))).value, headDim);
    VisionRows(|rows|, n, headDim);
  }

  function Thirds<T>(rows: seq<T>, m: nat): Projections<T>
    requires |rows| == m + m + m
  {
    Projections(rows[..m], rows[m..m + m], rows[m + m..])
  }

  lemma TransposedThirds<T>(rows: seq<T>, n: nat, w: nat)
    requires |rows| == Times(3, Times(n, w))
    ensures |rows| == Times(n, w) + Times(n, w) + Times(n, w)
    ensures Transposed(rows, n, w) == Fused(Thirds(rows, Times(n, w)), n, w, w)
  {
    Triple(Times(n, w));
    var p := Thirds(rows, Times(n, w));
    assert p.q + p.k + p.v == rows;
    TransposedIsFused(p.q, p.k, p.v, n, w);
  }

  lemma LayerSlice(weight: seq<seq<int>>, bias: seq<int>, i: nat, j: nat, x: seq<int>)
    requires |weight| == |bias| && i <= j <= |bias|
    ensures Linear(weight[i..j], bias[i..j], x) == Linear(weight, bias, x)[i..j]
  {
  }

  lemma ThirdsOfLayer(weight: seq<seq<int>>, bias: seq<int>, m: nat, x: seq<int>)
    requires |weight| == |bias| == m + m + m
    ensures Outputs(Thirds(weight, m), Thirds(bias, m), x) == Thirds(Linear(weight, bias, x), m)
  {
    LayerSlice(weight, bias, 0, m, x);
    LayerSlice(weight, bias, m, m + m, x);
    LayerSlice(weight, bias, m + m, m + m + m, x);
    var y := Linear(weight, bias, x);
    assert weight[..m] == weight[0..m] && bias[..m] == bias[0..m] && y[..m] == y[0..m];
    assert weight[m + m..] == weight[m + m..m + m + m] && bias[m + m..] == bias[m + m..m + m + m];
    assert y[m + m..] == y[m + m..m + m + m];
  }

  /** On every input the converted vision layer computes the same permutation of the original layer. */
  lemma VisionLayer(weight: seq<seq<int>>, bias: seq<int>, n: nat, w: nat, x: seq<int>)
    requires |weight| == |bias| == Times(3, Times(n, w))
    ensures |Transposed(weight, n, w)| == |Transposed(bias, n, w)|
    ensures Linear(Transposed(weight, n, w), Transposed(bias, n, w), x) == Transposed(Linear(weight, bias, x), n, w)
  {
    var m := Times(n, w);
    TransposedThirds(weight, n, w);
    TransposedThirds(bias, n, w);
    TransposedThirds(Linear(weight, bias, x), n, w);
    FusedLayer(Thirds(weight, m), Thirds(bias, m), n, w, w, x);
    ThirdsOfLayer(weight, bias, m, x);
  }
}
