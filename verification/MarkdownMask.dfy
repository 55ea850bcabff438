/**
 Masking protected spans, rewriting what is left and restoring the spans verbatim.
 */
module MarkdownMask {
  import opened Common
  import opened Decimal
  import opened MarkdownRewrite
  import opened MarkdownSpelling

  // ---- Masking ----

  /** Spans inside the text, in order and without overlap. */
  ghost predicate Ordered(text: string, spans: seq<Span>) {
    && (forall i :: 0 <= i < |spans| ==> spans[i].lo <= spans[i].hi <= |text|)
    && forall i, j :: 0 <= i < j < |spans| ==> spans[i].hi <= spans[j].lo
  }

  /** The k-th span becomes placeholder k. */
  ghost function Masked(text: string, spans: seq<Span>): Text
    requires Ordered(text, spans)
    decreases |spans|
  {
    if spans == [] then Chars(text)
    else
      var n := |spans| - 1;
      Masked(text[..spans[n].lo], spans[..n]) + [Hold(n)] + Chars(text[spans[n].hi..])
  }

  ghost function Saved(text: string, spans: seq<Span>): seq<string>
    requires Ordered(text, spans)
  {
    seq(|spans|, i requires 0 <= i < |spans| => text[spans[i].lo..spans[i].hi])
  }

  /** Substitute placeholders from left to right, saving what they stand for. */
  method Mask(text: string, spans: seq<Span>) returns (masked: string, saved: seq<string>)
    requires Ordered(text, spans)
    ensures Chars(masked) == Spelled(Masked(text, spans)) && saved == Saved(text, spans)
  {
    masked, saved := "", [];
    var at: nat := 0;
    MaskBegin(text, spans);
    for i := 0 to |spans|
      invariant MaskedSo(text, spans, i, at, masked)
      invariant saved == Saved(text, spans)[..i]
    {
      var s := spans[i];
      MaskStep(text, spans, i, at, masked);
      TakeNext(Saved(text, spans), i);
      masked := masked + text[at..s.lo] + Written(|saved|);
      saved := saved + [text[s.lo..s.hi]];
      at := s.hi;
    }
    TakeAll(Saved(text, spans));
    MaskEnd(text, spans, at, masked);
    masked := masked + text[at..];
  }

  /** The first i spans are masked, and the text is read up to `at`. */
  ghost predicate MaskedSo(text: string, spans: seq<Span>, i: nat, at: nat, masked: string)
    requires i <= |spans|
  {
    && at == (if i == 0 then 0 else spans[i - 1].hi) && at <= |text|
    && Ordered(text[..at], spans[..i]) && Chars(masked) == Spelled(Masked(text[..at], spans[..i]))
  }

  lemma MaskBegin(text: string, spans: seq<Span>)
    ensures MaskedSo(text, spans, 0, 0, "")
  {
    assert text[..0] == "" && spans[..0] == [] && Chars("") == [];
  }

  lemma MaskStep(text: string, spans: seq<Span>, i: nat, at: nat, masked: string)
    requires Ordered(text, spans) && i < |spans| && MaskedSo(text, spans, i, at, masked)
    ensures at <= spans[i].lo <= spans[i].hi <= |text|
    ensures MaskedSo(text, spans, i + 1, spans[i].hi, masked + text[at..spans[i].lo] + Written(i))
  {
    assert spans[i].lo <= spans[i].hi <= |text| && (i > 0 ==> spans[i - 1].hi <= spans[i].lo);
    MaskedExtend(text, spans, i, at);
    SpellNext(masked, Masked(text[..at], spans[..i]), text[at..spans[i].lo], i);
  }

  lemma MaskEnd(text: string, spans: seq<Span>, at: nat, masked: string)
    requires MaskedSo(text, spans, |spans|, at, masked)
    ensures at <= |text| && Ordered(text, spans) && Chars(masked + text[at..]) == Spelled(Masked(text, spans))
  {
    assert spans[..|spans|] == spans;
    MaskedRest(text, spans, at);
    SpellRest(masked, Masked(text[..at], spans), text[at..]);
  }

  lemma SpellRest(masked: string, t: Text, plain: string)
    requires Chars(masked) == Spelled(t)
    ensures Chars(masked + plain) == Spelled(t + Chars(plain))
  {
    CharsAppend(masked, plain);
    SpelledAppend(t, Chars(plain));
    SpelledPlain(Chars(plain));
  }

  lemma SpellNext(masked: string, t: Text, plain: string, k: nat)
    requires Chars(masked) == Spelled(t)
    ensures Chars(masked + plain + Written(k)) == Spelled(t + Chars(plain) + [Hold(k)])
  {
    SpellRest(masked, t, plain);
    CharsAppend(masked + plain, Written(k));
    SpelledAppend(t + Chars(plain), [Hold(k)]);
    assert Spelled([Hold(k)]) == Spell(Hold(k)) + Spelled([]) == Chars(Written(k));
  }

  lemma CharsAppend(a: string, b: string)
    ensures Chars(a + b) == Chars(a) + Chars(b)
  {
  }

  lemma TailParts(text: string, hi: nat, at: nat, end: nat)
    requires hi <= at <= end <= |text|
    ensures text[..end][hi..] == text[..at][hi..] + text[at..end]
  {
  }

  /** Text behind the last span is appended as it is. */
  lemma MaskedTail(text: string, spans: seq<Span>, at: nat, end: nat)
    requires at <= end <= |text| && Ordered(text[..at], spans) && (spans == [] ==> at == 0)
    ensures Ordered(text[..end], spans) && Masked(text[..end], spans) == Masked(text[..at], spans) + Chars(text[at..end])
  {
    if spans != [] {
      var n := |spans| - 1;
      var last := spans[n];
      assert text[..end][..last.lo] == text[..at][..last.lo];
      TailParts(text, last.hi, at, end);
      CharsAppend(text[..at][last.hi..], text[at..end]);
      Regroup(Masked(text[..at][..last.lo], spans[..n]) + [Hold(n)], Chars(text[..at][last.hi..]), Chars(text[at..end]));
    } else {
      assert text[..end] == text[at..end];
    }
  }

  lemma MaskedRest(text: string, spans: seq<Span>, at: nat)
    requires at <= |text| && Ordered(text[..at], spans) && (spans == [] ==> at == 0)
    ensures Ordered(text, spans) && Masked(text, spans) == Masked(text[..at], spans) + Chars(text[at..])
  {
    MaskedTail(text, spans, at, |text|);
    assert text[..|text|] == text && text[at..|text|] == text[at..];
  }

  lemma MaskedExtend(text: string, spans: seq<Span>, i: nat, at: nat)
    requires Ordered(text, spans) && i < |spans| && at <= spans[i].lo
    requires at == if i == 0 then 0 else spans[i - 1].hi
    requires Ordered(text[..at], spans[..i])
    ensures Ordered(text[..spans[i].hi], spans[..i + 1])
    ensures Masked(text[..spans[i].hi], spans[..i + 1]) ==
      Masked(text[..at], spans[..i]) + Chars(text[at..spans[i].lo]) + [Hold(i)]
  {
    var s := spans[i];
    MaskedTail(text, spans[..i], at, s.lo);
    assert spans[..i + 1][..i] == spans[..i];
    assert text[..s.hi][..s.lo] == text[..s.lo] && text[..s.hi][s.hi..] == "";
    assert Chars("") == [];
  }

  // ---- Restoring ----

  function Lookup(saved: seq<string>, k: nat): string {
    if k < |saved| then saved[k] else ""
  }

  /** Every placeholder becomes what it stands for. */
  function Restored(t: Text, saved: seq<string>): string {
    if t == [] then "" else (if t[0].C? then [t[0].c] else Lookup(saved, t[0].k)) + Restored(t[1..], saved)
  }

  lemma {:induction false} RestoredAppend(a: Text, b: Text, saved: seq<string>)
    ensures Restored(a + b, saved) == Restored(a, saved) + Restored(b, saved)
  {
    if a == [] {
      assert a + b == b;
    } else {
      RestoredAppend(a[1..], b, saved);
      TailOfAppend(a, b);
      Around(if a[0].C? then [a[0].c] else Lookup(saved, a[0].k), Restored(a[1..], saved), Restored(b, saved));
    }
  }

  lemma Around(a: string, b: string, c: string)
    ensures a + (b + c) == a + b + c
  {
  }

  lemma {:induction false} RestoredChars(s: string, saved: seq<string>)
    ensures Restored(Chars(s), saved) == s
  {
    if s != "" {
      RestoredChars(s[1..], saved);
      assert Chars(s)[1..] == Chars(s[1..]);
    }
  }

  lemma RestoredAround(head: Text, k: nat, tail: Text, saved: seq<string>)
    ensures Restored(head + [Hold(k)] + tail, saved) == Restored(head, saved) + Lookup(saved, k) + Restored(tail, saved)
  {
    RestoredAppend(head + [Hold(k)], tail, saved);
    RestoredAppend(head, [Hold(k)], saved);
    assert Restored([], saved) == "" && Restored([Hold(k)], saved) == Lookup(saved, k);
  }

  ghost predicate Saves(text: string, spans: seq<Span>, saved: seq<string>)
    requires Ordered(text, spans)
  {
    |spans| <= |saved| && forall i :: 0 <= i < |spans| ==> saved[i] == text[spans[i].lo..spans[i].hi]
  }

  lemma SavesBefore(text: string, spans: seq<Span>, saved: seq<string>)
    requires spans != [] && Ordered(text, spans) && Saves(text, spans, saved)
    ensures var n := |spans| - 1; Ordered(text[..spans[n].lo], spans[..n]) && Saves(text[..spans[n].lo], spans[..n], saved)
  {
    var n := |spans| - 1;
    var before, init := text[..spans[n].lo], spans[..n];
    forall i | 0 <= i < n ensures saved[i] == before[init[i].lo..init[i].hi] {
      assert before[init[i].lo..init[i].hi] == text[spans[i].lo..spans[i].hi];
    }
  }

  /** Without a rewrite in between, restoring undoes masking. */
  lemma {:induction false} RestoreMask(text: string, spans: seq<Span>, saved: seq<string>)
    requires Ordered(text, spans) && Saves(text, spans, saved)
    ensures Restored(Masked(text, spans), saved) == text
    decreases |spans|
  {
    if spans == [] {
      RestoredChars(text, saved);
    } else {
      var n := |spans| - 1;
      var last := spans[n];
      var before, init := text[..last.lo], spans[..n];
      SavesBefore(text, spans, saved);
      assert saved[n] == text[last.lo..last.hi];
      RestoreMask(before, init, saved);
      RestoredAround(Masked(before, init), n, Chars(text[last.hi..]), saved);
      RestoredChars(text[last.hi..], saved);
      assert Masked(text, spans) == Masked(before, init) + [Hold(n)] + Chars(text[last.hi..]);
      ThreeParts(text, last.lo, last.hi);
    }
  }

  lemma ThreeParts(text: string, lo: nat, hi: nat)
    requires lo <= hi <= |text|
    ensures text == text[..lo] + text[lo..hi] + text[hi..]
  {
  }

  // ---- Protected spans survive ----

  /** The placeholders of a text, in order. */
  function Holds(t: Text): seq<nat> {
    if t == [] then [] else if t[0].Hold? then [t[0].k] + Holds(t[1..]) else Holds(t[1..])
  }

  lemma {:induction false} HoldsAppend(a: Text, b: Text)
    ensures Holds(a + b) == Holds(a) + Holds(b)
  {
    if a == [] {
      assert a + b == b;
    } else {
      HoldsAppend(a[1..], b);
      assert (a + b)[1..] == a[1..] + b;
    }
  }

  lemma {:induction false} HoldsChars(s: string)
    ensures Holds(Chars(s)) == []
  {
    if s != "" {
      HoldsChars(s[1..]);
      assert Chars(s)[1..] == Chars(s[1..]);
    }
  }

  lemma {:induction false} HoldsOfContent(al: Alphabet, t: Text)
    ensures Holds(Content(al, t)) == Holds(t)
  {
    if t != [] {
      HoldsOfContent(al, t[1..]);
      if !Skipped(al, t[0]) {
        if t[0].Hold? {
          HoldsAppend([t[0]], Content(al, t[1..]));
        } else {
          HoldsChars(al.fold(t[0].c));
          HoldsAppend(Chars(al.fold(t[0].c)), Content(al, t[1..]));
        }
      }
    }
  }

  function UpTo(k: nat, n: nat): seq<nat>
    requires k <= n
  {
    seq(n - k, i requires 0 <= i < n - k => k + i)
  }

  lemma {:induction false} HoldsOfMasked(text: string, spans: seq<Span>)
    requires Ordered(text, spans)
    ensures Holds(Masked(text, spans)) == UpTo(0, |spans|)
    decreases |spans|
  {
    if spans == [] {
      HoldsChars(text);
    } else {
      var n := |spans| - 1;
      var last := spans[n];
      var head, tail := Masked(text[..last.lo], spans[..n]), Chars(text[last.hi..]);
      HoldsOfMasked(text[..last.lo], spans[..n]);
      HoldsChars(text[last.hi..]);
      HoldsAppend(head + [Hold(n)], tail);
      HoldsAppend(head, [Hold(n)]);
      assert Holds([Hold(n)]) == [n] + Holds([]);
    }
  }

  /** The plain text between placeholders. */
  function Segments(t: Text): (segs: seq<string>)
    ensures segs != []
  {
    if t == [] then [""]
    else
      var rest := Segments(t[1..]);
      if t[0].Hold? then [""] + rest else [[t[0].c] + rest[0]] + rest[1..]
  }

  function Interleave(segs: seq<string>, saved: seq<string>): string
    requires |segs| == |saved| + 1
  {
    if saved == [] then segs[0] else segs[0] + saved[0] + Interleave(segs[1..], saved[1..])
  }

  lemma UpToRest(k: nat, n: nat)
    requires k < n
    ensures UpTo(k, n) == [k] + UpTo(k + 1, n)
  {
  }

  /** A leading placeholder closes an empty segment. */
  lemma HoldFirst(t: Text, saved: seq<string>, k: nat)
    requires t != [] && t[0] == Hold(k) && k < |saved| && |Segments(t[1..])| == |saved| - k
    ensures |Segments(t)| == |saved| - k + 1
    ensures Interleave(Segments(t), saved[k..]) == saved[k] + Interleave(Segments(t[1..]), saved[k + 1..])
  {
    var rest := Segments(t[1..]);
    assert Segments(t) == [""] + rest && ([""] + rest)[1..] == rest;
    assert saved[k..][1..] == saved[k + 1..];
  }

  lemma FirstNext(k: nat, rest: seq<nat>, n: nat)
    requires k <= n
    requires [k] + rest == UpTo(k, n)
    ensures k < n && rest == UpTo(k + 1, n)
  {
    assert |[k] + rest| == |UpTo(k, n)|;
    UpToRest(k, n);
    assert rest == ([k] + rest)[1..] && UpTo(k + 1, n) == UpTo(k, n)[1..];
  }

  /** A text whose placeholders are in order restores to its plain parts and the saved spans in turn. */
  lemma {:induction false} RestoredInOrder(t: Text, saved: seq<string>, k: nat)
    requires k <= |saved| && Holds(t) == UpTo(k, |saved|)
    ensures |Segments(t)| == |saved| - k + 1
    ensures Restored(t, saved) == Interleave(Segments(t), saved[k..])
  {
    if t == [] {
      assert |UpTo(k, |saved|)| == 0;
    } else if t[0].Hold? {
      assert UpTo(k, |saved|)[0] == t[0].k;
      FirstNext(k, Holds(t[1..]), |saved|);
      RestoredInOrder(t[1..], saved, k + 1);
      HoldFirst(t, saved, k);
    } else {
      RestoredInOrder(t[1..], saved, k);
      FirstSegment(t[0].c, Segments(t[1..]), saved[k..]);
    }
  }

  lemma FirstSegment(c: char, rest: seq<string>, saved: seq<string>)
    requires |rest| == |saved| + 1
    ensures Interleave([[c] + rest[0]] + rest[1..], saved) == [c] + Interleave(rest, saved)
  {
    var segs := [[c] + rest[0]] + rest[1..];
    assert segs[1..] == rest[1..];
    if saved != [] {
      assert ([c] + rest[0]) + saved[0] + Interleave(rest[1..], saved[1..]) ==
             [c] + (rest[0] + saved[0] + Interleave(rest[1..], saved[1..]));
    }
  }

  ghost predicate Clean(s: string) {
    forall k :: 0 <= k < |s| ==> !Mark(s[k])
  }

  lemma {:induction false} CleanSegments(t: Text)
    requires MarkFree(t)
    ensures forall i :: 0 <= i < |Segments(t)| ==> Clean(Segments(t)[i])
  {
    if t != [] {
      assert MarkFree(t[1..]) by {
        forall c | Mark(c) ensures Free(t[1..], c) {
          assert Free(t, c);
        }
      }
      CleanSegments(t[1..]);
      if t[0].C? {
        assert Mark(t[0].c) ==> Free(t, t[0].c);
      }
    }
  }

  // ---- Placeholders as strings ----

  function Encoded(t: Text): string {
    if t == [] then "" else (if t[0].C? then [t[0].c] else Written(t[0].k)) + Encoded(t[1..])
  }

  /** Number and length of the placeholder at the beginning of s. */
  function FoundAt(s: string): (r: Option<(nat, nat)>)
    ensures r.Some? ==> 0 < r.value.1 <= |s|
  {
    if |s| < 3 || s[0] != NUL || s[1] != 'P' || s[2] != 'H' then None
    else
      var d := DigitRun(s[3..]);
      if d > 0 && 3 + d < |s| && s[3 + d] == NUL then Some((Parse(s[3..][..d]), 4 + d)) else None
  }

  function Prefixed(a: string, r: Result<string>): Result<string> {
    if r.Ok? then Ok(a + r.value) else Raised
  }

  /** Substitute placeholders from left to right; a number without a saved span raises. */
  function RestoredString(s: string, saved: seq<string>): Result<string>
    decreases |s|
  {
    if s == "" then Ok("")
    else
      match FoundAt(s)
      case Some((k, n)) => if k < |saved| then Prefixed(saved[k], RestoredString(s[n..], saved)) else Raised
      case None => Prefixed([s[0]], RestoredString(s[1..], saved))
  }

  lemma WrittenIsFound(k: nat, rest: string)
    ensures FoundAt(Written(k) + rest) == Some((k, |Written(k)|))
  {
    var s, ds := Written(k) + rest, Print(k);
    var tail := [NUL] + rest;
    assert s[3..] == ds + tail;
    RunOfDigits(ds, tail);
    assert s[3..][..|ds|] == ds && s[3 + |ds|] == tail[0];
    ParsePrint(k);
  }

  /** In text without the mark, string substitution finds exactly the placeholders. */
  lemma {:induction false} RestoreEncoded(t: Text, saved: seq<string>)
    requires Free(t, NUL) && forall i :: 0 <= i < |t| && t[i].Hold? ==> t[i].k < |saved|
    ensures RestoredString(Encoded(t), saved) == Ok(Restored(t, saved))
  {
    if t != [] {
      assert Free(t[1..], NUL);
      RestoreEncoded(t[1..], saved);
      var rest := Encoded(t[1..]);
      if t[0].C? {
        assert t[0] != C(NUL);
        assert ([t[0].c] + rest)[1..] == rest;
      } else {
        WrittenIsFound(t[0].k, rest);
        assert (Written(t[0].k) + rest)[|Written(t[0].k)|..] == rest;
      }
    }
  }

  lemma {:induction false} EncodedIsSpelled(t: Text)
    ensures Chars(Encoded(t)) == Spelled(t)
  {
    if t != [] {
      EncodedIsSpelled(t[1..]);
      CharsAppend(if t[0].C? then [t[0].c] else Written(t[0].k), Encoded(t[1..]));
    }
  }

  /** The string a text without placeholders is. */
  function Letters(t: Text): string
    requires NoHolds(t)
  {
    seq(|t|, k requires 0 <= k < |t| => t[k].c)
  }

  lemma SpelledLetters(t: Text)
    ensures NoHolds(Spelled(t)) && Letters(Spelled(t)) == Encoded(t)
  {
    SpelledIsPlain(t);
    EncodedIsSpelled(t);
    assert |Chars(Encoded(t))| == |Encoded(t)|;
    forall k | 0 <= k < |Encoded(t)| ensures Letters(Spelled(t))[k] == Encoded(t)[k] {
      assert Chars(Encoded(t))[k] == C(Encoded(t)[k]);
    }
  }

  // ---- Words between the protected spans ----

  /** The prose before span i, or behind the last one. */
  function Gap(text: string, spans: seq<Span>, i: nat): string
    requires Ordered(text, spans) && i <= |spans|
  {
    text[(if i == 0 then 0 else spans[i - 1].hi)..(if i == |spans| then |text| else spans[i].lo)]
  }

  lemma {:induction false} SegmentsAtHold(a: Text, k: nat, plain: string)
    ensures Segments(a + [Hold(k)] + Chars(plain)) == Segments(a) + [plain]
  {
    var t := a + [Hold(k)] + Chars(plain);
    if a == [] {
      SegmentsPlain(plain);
      assert t[0] == Hold(k) && t[1..] == Chars(plain);
    } else {
      SegmentsAtHold(a[1..], k, plain);
      assert t[0] == a[0] && t[1..] == a[1..] + [Hold(k)] + Chars(plain);
    }
  }

  lemma {:induction false} SegmentsPlain(plain: string)
    ensures Segments(Chars(plain)) == [plain]
  {
    if plain != "" {
      SegmentsPlain(plain[1..]);
      assert Chars(plain)[1..] == Chars(plain[1..]);
      assert [plain[0]] + plain[1..] == plain;
    }
  }

  lemma GapBefore(text: string, spans: seq<Span>, i: nat)
    requires spans != [] && Ordered(text, spans) && i < |spans|
    requires Ordered(text[..spans[|spans| - 1].lo], spans[..|spans| - 1])
    ensures Gap(text[..spans[|spans| - 1].lo], spans[..|spans| - 1], i) == Gap(text, spans, i)
  {
    var n := |spans| - 1;
    var lo, hi := if i == 0 then 0 else spans[i - 1].hi, spans[i].lo;
    assert lo <= hi <= spans[n].lo;
    SliceOfPrefix(text, spans[n].lo, lo, hi);
  }

  ghost function Gaps(text: string, spans: seq<Span>): seq<string>
    requires Ordered(text, spans)
  {
    seq(|spans| + 1, i requires 0 <= i <= |spans| => Gap(text, spans, i))
  }

  lemma GapsExtend(text: string, spans: seq<Span>)
    requires spans != [] && Ordered(text, spans)
    requires Ordered(text[..spans[|spans| - 1].lo], spans[..|spans| - 1])
    ensures Gaps(text, spans) == Gaps(text[..spans[|spans| - 1].lo], spans[..|spans| - 1]) + [text[spans[|spans| - 1].hi..]]
  {
    var n := |spans| - 1;
    var short := Gaps(text[..spans[n].lo], spans[..n]);
    forall i | 0 <= i <= n
      ensures short[i] == Gaps(text, spans)[i]
    {
      GapBefore(text, spans, i);
    }
    assert Gaps(text, spans)[n + 1] == text[spans[n].hi..|text|] == text[spans[n].hi..];
  }

  lemma {:induction false} SegmentsOfMasked(text: string, spans: seq<Span>)
    requires Ordered(text, spans)
    ensures Segments(Masked(text, spans)) == Gaps(text, spans)
    decreases |spans|
  {
    if spans == [] {
      SegmentsPlain(text);
      assert Gap(text, spans, 0) == text[0..|text|] == text;
    } else {
      var n := |spans| - 1;
      var last := spans[n];
      var before, init := text[..last.lo], spans[..n];
      SegmentsOfMasked(before, init);
      SegmentsAtHold(Masked(before, init), n, text[last.hi..]);
      GapsExtend(text, spans);
    }
  }

  /** The words of plain text, without case. */
  function Words(al: Alphabet, s: string): string {
    if s == "" then ""
    else (if al.white(s[0]) || Punctuation(s[0]) then "" else al.fold(s[0])) + Words(al, s[1..])
  }

  lemma {:induction false} SegmentsShifted(head: string, t: Text)
    ensures var segs := Segments(t); Segments(Chars(head) + t) == [head + segs[0]] + segs[1..]
  {
    if head == "" {
      assert Chars(head) + t == t && head + Segments(t)[0] == Segments(t)[0];
      assert Segments(t) == [Segments(t)[0]] + Segments(t)[1..];
    } else {
      var rest := Chars(head[1..]) + t;
      SegmentsShifted(head[1..], t);
      assert Chars(head) + t == [C(head[0])] + rest && (Chars(head) + t)[1..] == rest;
      assert [head[0]] + (head[1..] + Segments(t)[0]) == head + Segments(t)[0];
    }
  }

  lemma WordsFirst(al: Alphabet, c: char, s: string)
    ensures Words(al, [c] + s) == (if al.white(c) || Punctuation(c) then "" else al.fold(c)) + Words(al, s)
  {
    assert ([c] + s)[1..] == s;
  }

  /** What a leading character adds to the words of the first segment. */
  lemma ContentFirst(al: Alphabet, t: Text)
    requires t != [] && t[0].C?
    ensures var words := Segments(Content(al, t[1..]));
            Segments(Content(al, t)) == [(if Skipped(al, t[0]) then "" else al.fold(t[0].c)) + words[0]] + words[1..]
  {
    var rest := Content(al, t[1..]);
    if Skipped(al, t[0]) {
      SegmentsShifted("", rest);
      assert Chars("") + rest == rest;
    } else {
      SegmentsShifted(al.fold(t[0].c), rest);
    }
  }

  function AllWords(al: Alphabet, segs: seq<string>): seq<string> {
    seq(|segs|, i requires 0 <= i < |segs| => Words(al, segs[i]))
  }

  lemma AllWordsFirst(al: Alphabet, seg: string, rest: seq<string>)
    ensures AllWords(al, [seg] + rest) == [Words(al, seg)] + AllWords(al, rest)
  {
  }

  lemma SegmentsOfHold(k: nat, t: Text)
    ensures Segments([Hold(k)] + t) == [""] + Segments(t)
  {
    TailOfAppend([Hold(k)], t);
  }

  /** The words of a text segment by segment. */
  lemma {:induction false} SegmentsOfContent(al: Alphabet, t: Text)
    ensures Segments(Content(al, t)) == AllWords(al, Segments(t))
  {
    if t != [] {
      var rest := Segments(t[1..]);
      SegmentsOfContent(al, t[1..]);
      if t[0].Hold? {
        SegmentsOfHold(t[0].k, Content(al, t[1..]));
        AllWordsFirst(al, "", rest);
      } else {
        ContentFirst(al, t);
        FirstWords(al, t[0].c, rest);
      }
    }
  }

  /** The words of the segments with one more character in front. */
  lemma FirstWords(al: Alphabet, c: char, segs: seq<string>)
    requires segs != []
    ensures var words := AllWords(al, segs);
            AllWords(al, [[c] + segs[0]] + segs[1..]) ==
            [(if Skipped(al, C(c)) then "" else al.fold(c)) + words[0]] + words[1..]
  {
    WordsFirst(al, c, segs[0]);
    AllWordsFirst(al, [c] + segs[0], segs[1..]);
    AllWordsFirst(al, segs[0], segs[1..]);
    assert segs == [segs[0]] + segs[1..];
  }

  /** No stretch of prose contains c. */
  ghost predicate Without(text: string, spans: seq<Span>, c: char)
    requires Ordered(text, spans)
  {
    forall i :: 0 <= i <= |spans| ==> c !in Gap(text, spans, i)
  }

  lemma {:induction false} FreeOfSegments(t: Text, c: char)
    requires forall i :: 0 <= i < |Segments(t)| ==> c !in Segments(t)[i]
    ensures Free(t, c)
  {
    if t != [] {
      var segs, rest := Segments(t), Segments(t[1..]);
      if t[0].C? {
        assert segs[0][0] == t[0].c;
        forall i | 0 <= i < |rest| ensures c !in rest[i] {
          assert i == 0 ==> segs[0] == [t[0].c] + rest[0];
          assert i > 0 ==> segs[i] == rest[i];
        }
      } else {
        forall i | 0 <= i < |rest| ensures c !in rest[i] {
          assert segs[i + 1] == rest[i];
        }
      }
      FreeOfSegments(t[1..], c);
    }
  }

  // ---- The whole transformation ----

  /**
   The protected spans stand in the result verbatim and in order; between them is text without marks
   that has the words of the source there.
   */
  ghost predicate Protects(al: Alphabet, text: string, spans: seq<Span>, r: string)
    requires Ordered(text, spans)
  {
    exists segs: seq<string> ::
      && |segs| == |spans| + 1 && r == Interleave(segs, Saved(text, spans))
      && forall i :: 0 <= i < |segs| ==> Clean(segs[i]) && Words(al, segs[i]) == Words(al, Gap(text, spans, i))
  }

  lemma SameWords(al: Alphabet, t: Text, u: Text)
    requires Content(al, u) == Content(al, t)
    ensures AllWords(al, Segments(u)) == AllWords(al, Segments(t))
  {
    SegmentsOfContent(al, t);
    SegmentsOfContent(al, u);
  }

  lemma SameWordsAt(al: Alphabet, a: seq<string>, b: seq<string>)
    requires AllWords(al, a) == AllWords(al, b)
    ensures |a| == |b| && forall i :: 0 <= i < |a| ==> Words(al, a[i]) == Words(al, b[i])
  {
    assert |AllWords(al, a)| == |AllWords(al, b)|;
    forall i | 0 <= i < |a| ensures Words(al, a[i]) == Words(al, b[i]) {
      assert AllWords(al, a)[i] == AllWords(al, b)[i];
    }
  }

  lemma {:induction false} HeldIsListed(t: Text, i: nat)
    requires i < |t| && t[i].Hold?
    ensures t[i].k in Holds(t)
  {
    if i > 0 {
      HeldIsListed(t[1..], i - 1);
    }
  }

  /** A text with the placeholders of the masked one names saved spans only. */
  lemma HeldIsSaved(al: Alphabet, text: string, spans: seq<Span>, u: Text)
    requires Ordered(text, spans) && Content(al, u) == Content(al, Masked(text, spans))
    ensures forall i :: 0 <= i < |u| && u[i].Hold? ==> u[i].k < |spans|
  {
    HoldsOfMasked(text, spans);
    HoldsOfContent(al, Masked(text, spans));
    HoldsOfContent(al, u);
    forall i | 0 <= i < |u| && u[i].Hold? ensures u[i].k < |spans| {
      HeldIsListed(u, i);
    }
  }

  /** Restoring a text with the words and placeholders of the masked one. */
  lemma RestoredProtects(al: Alphabet, text: string, spans: seq<Span>, u: Text)
    requires Ordered(text, spans) && Content(al, u) == Content(al, Masked(text, spans)) && MarkFree(u)
    ensures Protects(al, text, spans, Restored(u, Saved(text, spans)))
  {
    var t, saved := Masked(text, spans), Saved(text, spans);
    HoldsOfMasked(text, spans);
    HoldsOfContent(al, t);
    HoldsOfContent(al, u);
    RestoredInOrder(u, saved, 0);
    assert saved[0..] == saved;
    CleanSegments(u);
    SameWords(al, t, u);
    SameWordsAt(al, Segments(u), Segments(t));
    SegmentsOfMasked(text, spans);
  }

  /** Mask, rewrite and restore, on strings. */
  ghost function Transformed(al: Alphabet, text: string, spans: seq<Span>, labels: Text -> seq<Span>): Result<string>
    requires Proper(al) && (forall x :: Matches(al, x, labels(x))) && Ordered(text, spans)
  {
    var t := Rewriting(al, Spelled(Masked(text, spans)), labels);
    if NoHolds(t) then RestoredString(Letters(t), Saved(text, spans)) else Raised
  }

  lemma RewritingIsPlain(al: Alphabet, t: Text, labels: Text -> seq<Span>)
    requires Proper(al) && forall x :: Matches(al, x, labels(x))
    ensures NoHolds(Rewriting(al, Spelled(t), labels))
  {
    var u := RewritingSpelled(al, t, labels);
    SpelledIsPlain(u);
  }

  /** On prose without NUL the spelled placeholders do what symbols of their own would. */
  lemma TransformedProtects(al: Alphabet, text: string, spans: seq<Span>, labels: Text -> seq<Span>)
    requires Proper(al) && (forall x :: Matches(al, x, labels(x))) && Ordered(text, spans) && Without(text, spans, NUL)
    ensures var r := Transformed(al, text, spans, labels); r.Ok? && Protects(al, text, spans, r.value)
  {
    var t, saved := Masked(text, spans), Saved(text, spans);
    var u := RewritingSpelled(al, t, labels);
    SegmentsOfMasked(text, spans);
    FreeOfSegments(t, NUL);
    assert Barred(NUL) && Free(u, NUL);
    SpelledLetters(u);
    HeldIsSaved(al, text, spans, u);
    RestoreEncoded(u, saved);
    RestoredProtects(al, text, spans, u);
  }

  method TransformProse(al: Alphabet, text: string, protect: string -> seq<Span>, labels: Text -> seq<Span>) returns (r: Result<string>)
    requires Proper(al) && (forall x :: Matches(al, x, labels(x))) && Ordered(text, protect(text))
    ensures r == Transformed(al, text, protect(text), labels)
    ensures Without(text, protect(text), NUL) ==> r.Ok? && Protects(al, text, protect(text), r.value)
  {
    var spans := protect(text);
    var masked, saved := Mask(text, spans);
    RewritingIsPlain(al, Masked(text, spans), labels);
    if Without(text, spans, NUL) {
      TransformedProtects(al, text, spans, labels);
    }
    var rewritten := Rewrite(al, Chars(masked), labels);
    r := RestoredString(Letters(rewritten), saved);
  }

  // ---- Prose with NUL ----

  lemma NoLabels(al: Alphabet, t: Text, labels: Text -> seq<Span>)
    requires Proper(al) && (forall x :: Matches(al, x, labels(x))) && Free(t, EM_DASH)
    ensures LabelFix(al, t, labels) == t
  {
    LabelPass(al, t, labels(t));
    NoDashes(t);
  }

  /** Text without marks and commas is not rewritten. */
  lemma PlainUntouched(al: Alphabet, t: Text, labels: Text -> seq<Span>)
    requires Proper(al) && (forall x :: Matches(al, x, labels(x))) && MarkFree(t) && Free(t, ',')
    ensures Rewriting(al, t, labels) == t
  {
    MarkFreeUntouched(al, t);
    NoLabels(al, t, labels);
  }

  const FAKE := [NUL, 'P', 'H', '0', NUL]

  lemma FakeIsWritten()
    ensures FAKE == Written(0) && Spelled(Chars(FAKE)) == Chars(FAKE) && MarkFree(Chars(FAKE)) && Free(Chars(FAKE), ',')
  {
    assert Print(0) == ['0'];
    SpelledPlain(Chars(FAKE));
  }

  /** Prose that spells a placeholder itself, with nothing saved, makes the restoration raise. */
  lemma FakePlaceholderRaises(al: Alphabet, labels: Text -> seq<Span>)
    requires Proper(al) && forall x :: Matches(al, x, labels(x))
    ensures Transformed(al, FAKE, [], labels).Raised?
  {
    FakeIsWritten();
    PlainUntouched(al, Chars(FAKE), labels);
    WrittenIsFound(0, "");
    assert Written(0) + "" == FAKE && Letters(Chars(FAKE)) == FAKE;
  }
}
