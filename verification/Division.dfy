/** Products, quotients and remainders of natural numbers. */
module Division {

  /** n * w as a repeated sum: the size of n groups of w. */
  function Times(n: nat, w: nat): nat {
    if n == 0 then 0 else Times(n - 1, w) + w
  }

  lemma {:induction false} TimesIsProduct(n: nat, w: nat)
    ensures Times(n, w) == n * w
  {
    if n > 0 {
      TimesIsProduct(n - 1, w);
      assert (n - 1) * w + w == n * w;
    }
  }

  lemma {:induction false} TimesMonotone(a: nat, b: nat, w: nat)
    requires a <= b
    ensures Times(a, w) <= Times(b, w)
  {
    if a < b {
      TimesMonotone(a, b - 1, w);
    }
  }

  lemma {:induction false} TimesAdd(n: nat, a: nat, b: nat)
    ensures Times(n, a + b) == Times(n, a) + Times(n, b)
  {
    if n > 0 {
      TimesAdd(n - 1, a, b);
    }
  }

  /** Offset o of group g is inside n groups. */
  lemma InRange(g: nat, n: nat, o: nat, w: nat)
    requires g < n && o < w
    ensures Times(g, w) + o < Times(n, w)
  {
    TimesMonotone(g + 1, n, w);
  }

  /** Every position of n groups of w is an offset of a group. */
  lemma {:induction false} Position(i: nat, n: nat, w: nat) returns (g: nat, o: nat)
    requires i < Times(n, w)
    ensures g < n && o < w && i == Times(g, w) + o
  {
    if i < Times(n - 1, w) {
      g, o := Position(i, n - 1, w);
    } else {
      g, o := n - 1, i - Times(n - 1, w);
    }
  }

  /** Of only one group and by only one offset. */
  lemma SamePosition(g: nat, o: nat, g': nat, o': nat, w: nat)
    requires o < w && o' < w && Times(g, w) + o == Times(g', w) + o'
    ensures g == g' && o == o'
  {
    if g < g' {
      InRange(g, g', o, w);
    } else if g' < g {
      InRange(g', g, o', w);
    }
  }

  /** Quotient and remainder are that group and offset. */
  lemma Unique(x: nat, w: nat, g: nat, o: nat)
    requires o < w && x == Times(g, w) + o
    ensures x / w == g && x % w == o
  {
    Divided(x, w);
    SamePosition(x / w, x % w, g, o, w);
  }

  lemma Divided(x: nat, w: nat)
    requires 0 < w
    ensures x == Times(x / w, w) + x % w && x % w < w
  {
    Euclid(x, w);
    TimesIsProduct(x / w, w);
  }

  lemma Euclid(x: nat, w: nat)
    requires 0 < w
    ensures x == (x / w) * w + x % w && x % w < w
  {
  }

  lemma TimesCommutes(a: nat, b: nat)
    ensures Times(a, b) == Times(b, a)
  {
    TimesIsProduct(a, b);
    TimesIsProduct(b, a);
  }

  lemma {:induction false} TimesAddLeft(a: nat, b: nat, w: nat)
    ensures Times(a + b, w) == Times(a, w) + Times(b, w)
  {
    if b > 0 {
      TimesAddLeft(a, b - 1, w);
    }
  }

  lemma {:induction false} TimesAssociates(a: nat, b: nat, c: nat)
    ensures Times(Times(a, b), c) == Times(a, Times(b, c))
  {
    if a > 0 {
      TimesAssociates(a - 1, b, c);
      TimesAddLeft(Times(a - 1, b), b, c);
    }
  }

  lemma Triple(x: nat)
    ensures Times(3, x) == x + x + x
  {
    assert Times(1, x) == Times(0, x) + x;
    assert Times(2, x) == Times(1, x) + x;
  }

  /** A multiple is that many groups. */
  lemma Exact(x: nat, n: nat)
    requires 0 < n && x % n == 0
    ensures x == Times(n, x / n)
  {
    Divided(x, n);
    TimesCommutes(x / n, n);
  }

  lemma Quotient(n: nat, a: nat)
    requires 0 < n
    ensures Times(n, a) % n == 0 && Times(n, a) / n == a
  {
    TimesCommutes(n, a);
    Unique(Times(n, a), n, a, 0);
  }

  lemma {:induction false} TimesGrows(n: nat, a: nat, b: nat)
    requires 0 < n && a < b
    ensures Times(n, a) < Times(n, b)
  {
    if n > 1 {
      TimesGrows(n - 1, a, b);
    }
  }

  lemma TimesCancels(n: nat, a: nat, b: nat)
    requires 0 < n && Times(n, a) == Times(n, b)
    ensures a == b
  {
    if a < b {
      TimesGrows(n, a, b);
    } else if b < a {
      TimesGrows(n, b, a);
    }
  }

  /** x / w rounded up: the groups of w that x elements need. */
  function Ceiling(x: nat, w: nat): nat
    requires 0 < w
  {
    (x + w - 1) / w
  }

  lemma RoundedUp(x: nat, w: nat)
    requires 0 < w
    ensures x <= Times(Ceiling(x, w), w) < x + w
  {
    Divided(x + w - 1, w);
  }

  /** It is the only number of groups that holds x without wasting one. */
  lemma CeilingUnique(x: nat, w: nat, c: nat)
    requires 0 < w && x <= Times(c, w) < x + w
    ensures c == Ceiling(x, w)
  {
    Unique(x + w - 1, w, c, x + w - 1 - Times(c, w));
  }

  lemma CeilingAtMost(x: nat, w: nat, c: nat)
    requires 0 < w && x <= Times(c, w)
    ensures Ceiling(x, w) <= c
  {
    RoundedUp(x, w);
    if c < Ceiling(x, w) {
      TimesMonotone(c + 1, Ceiling(x, w), w);
    }
  }
}
