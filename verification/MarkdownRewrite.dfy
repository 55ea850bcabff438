/**
 Rewriting the punctuation of prose. Protected spans are replaced by placeholders before and put back
 after; in between, a placeholder is a symbol of its own that is no letter, no blank and no mark.
 */
module MarkdownRewrite {
  import opened Common

  const EN_DASH := '\U{2013}'
  const EM_DASH := '\U{2014}'

  /** A character or the k-th placeholder. */
  datatype Symbol = C(c: char) | Hold(k: nat)

  type Text = seq<Symbol>

  /** What the rewriter must know about characters; `fold` forgets upper and lower case. */
  datatype Alphabet = Alphabet(white: char -> bool, alpha: char -> bool, upper: char -> string, fold: char -> string)

  predicate Mark(c: char) {
    c == EN_DASH || c == EM_DASH || c == ';'
  }

  /** The characters the rewriter trades for one another. */
  predicate Punctuation(c: char) {
    Mark(c) || c == '-' || c == ':' || c == ',' || c == '.'
  }

  const NUL := '\0'

  /** Characters that no step may bring in: the marks, and the NUL around a placeholder's number. */
  predicate Barred(c: char) {
    Mark(c) || c == NUL
  }

  /** The characters a placeholder is spelled with. */
  predicate Spelling(c: char) {
    c == NUL || c == 'P' || c == 'H' || '0' <= c <= '9'
  }

  /**
   White space contains no mark and nothing of a placeholder, NUL is no letter, and a capital is the
   same letter and neither a mark nor NUL.
   */
  ghost predicate Proper(al: Alphabet) {
    && al.white(' ') && al.white('\t') && al.white('\n') && !al.alpha(NUL)
    && (forall c :: al.white(c) ==> !Mark(c) && !Spelling(c))
    && (forall c, k :: al.alpha(c) && 0 <= k < |al.upper(c)| ==> !Barred(al.upper(c)[k]))
    && (forall c :: al.alpha(c) ==> Content(al, Chars(al.upper(c))) == Content(al, [C(c)]))
  }

  predicate Blank(s: Symbol) {
    s == C(' ') || s == C('\t')
  }

  predicate White(al: Alphabet, s: Symbol) {
    s.C? && al.white(s.c)
  }

  // ---- Placeholders and marks of a text ----

  function Chars(s: string): Text {
    seq(|s|, k requires 0 <= k < |s| => C(s[k]))
  }

  predicate Skipped(al: Alphabet, s: Symbol) {
    s.C? && (al.white(s.c) || Punctuation(s.c))
  }

  /** The words of a text without case, and its placeholders, in order. */
  function Content(al: Alphabet, t: Text): Text {
    if t == [] then []
    else if Skipped(al, t[0]) then Content(al, t[1..])
    else (if t[0].Hold? then [t[0]] else Chars(al.fold(t[0].c))) + Content(al, t[1..])
  }

  ghost predicate Free(t: Text, c: char) {
    forall k :: 0 <= k < |t| ==> t[k] != C(c)
  }

  lemma {:induction false} ContentAppend(al: Alphabet, a: Text, b: Text)
    ensures Content(al, a + b) == Content(al, a) + Content(al, b)
  {
    if a == [] {
      assert a + b == b;
    } else {
      ContentAppend(al, a[1..], b);
      assert (a + b)[1..] == a[1..] + b;
    }
  }

  lemma {:induction false} NoContent(al: Alphabet, t: Text)
    requires forall k :: 0 <= k < |t| ==> Skipped(al, t[k])
    ensures Content(al, t) == []
  {
    if t != [] {
      NoContent(al, t[1..]);
    }
  }

  /** A text may stand for another: the same words and placeholders in the same order, and no new marks and no NUL. */
  ghost predicate Keeps(al: Alphabet, t: Text, r: Text) {
    && Content(al, r) == Content(al, t)
    && forall c :: Barred(c) && Free(t, c) ==> Free(r, c)
  }

  lemma KeepsAppend(al: Alphabet, a: Text, b: Text, a': Text, b': Text)
    requires Keeps(al, a, a') && Keeps(al, b, b')
    ensures Keeps(al, a + b, a' + b')
  {
    ContentAppend(al, a, b);
    ContentAppend(al, a', b');
    forall c | Barred(c) && Free(a + b, c) ensures Free(a' + b', c) {
      assert forall k :: 0 <= k < |a| ==> a[k] == (a + b)[k];
      assert forall k :: 0 <= k < |b| ==> b[k] == (a + b)[|a| + k];
    }
  }

  lemma KeepsTrans(al: Alphabet, a: Text, b: Text, c: Text)
    requires Keeps(al, a, b) && Keeps(al, b, c)
    ensures Keeps(al, a, c)
  {
  }

  /** Text without placeholders may become other text without placeholders and marks. */
  lemma KeepsPlain(al: Alphabet, a: Text, b: Text)
    requires forall k :: 0 <= k < |a| ==> Skipped(al, a[k])
    requires forall k :: 0 <= k < |b| ==> Skipped(al, b[k]) && !Barred(b[k].c)
    ensures Keeps(al, a, b)
  {
    NoContent(al, a);
    NoContent(al, b);
  }

  /** Rewriting a prefix and, independently, the rest. */
  lemma KeepsCut(al: Alphabet, t: Text, n: nat, a: Text, b: Text)
    requires n <= |t| && Keeps(al, t[..n], a) && Keeps(al, t[n..], b)
    ensures Keeps(al, t, a + b)
  {
    KeepsAppend(al, t[..n], t[n..], a, b);
    assert t == t[..n] + t[n..];
  }

  /** Length of the leading run of symbols satisfying p. */
  function Run(t: Text, p: Symbol -> bool): (n: nat)
    ensures n <= |t| && (forall k :: 0 <= k < n ==> p(t[k])) && (n < |t| ==> !p(t[n]))
  {
    if t == [] || !p(t[0]) then 0 else 1 + Run(t[1..], p)
  }

  // ---- 1. En dashes ----

  function Swap(t: Text, from: char, to: char): Text {
    seq(|t|, k requires 0 <= k < |t| => if t[k] == C(from) then C(to) else t[k])
  }

  lemma {:induction false} SwapKeeps(al: Alphabet, t: Text, from: char, to: char)
    requires Punctuation(from) && Punctuation(to) && from != to && !Mark(to)
    ensures Keeps(al, t, Swap(t, from, to)) && Free(Swap(t, from, to), from)
  {
    if t != [] {
      SwapKeeps(al, t[1..], from, to);
      assert Swap(t, from, to)[1..] == Swap(t[1..], from, to);
    }
  }

  // ---- 2. Em dashes after labels ----

  datatype Span = Span(lo: nat, hi: nat)

  /** White space, an em dash, white space. */
  ghost predicate Dashed(al: Alphabet, t: Text, s: Span) {
    && s.lo < s.hi <= |t|
    && exists m :: s.lo < m < s.hi - 1 && t[m] == C(EM_DASH)
                   && (forall k :: s.lo <= k < m ==> White(al, t[k])) && forall k :: m < k < s.hi ==> White(al, t[k])
  }

  /** Matches in order and without overlap. */
  ghost predicate Matches(al: Alphabet, t: Text, spans: seq<Span>) {
    && (forall i :: 0 <= i < |spans| ==> Dashed(al, t, spans[i]))
    && forall i, j :: 0 <= i < j < |spans| ==> spans[i].hi <= spans[j].lo
  }

  /** Every match becomes a colon and a space. */
  function Labelled(t: Text, spans: seq<Span>): Text
    requires forall i :: 0 <= i < |spans| ==> spans[i].lo <= spans[i].hi <= |t|
    requires forall i, j :: 0 <= i < j < |spans| ==> spans[i].hi <= spans[j].lo
    decreases |spans|
  {
    if spans == [] then t
    else
      var last := spans[|spans| - 1];
      Labelled(t[..last.lo], spans[..|spans| - 1]) + [C(':'), C(' ')] + t[last.hi..]
  }

  function Dashes(t: Text): nat {
    if t == [] then 0 else (if t[0] == C(EM_DASH) then 1 else 0) + Dashes(t[1..])
  }

  lemma {:induction false} DashesAppend(a: Text, b: Text)
    ensures Dashes(a + b) == Dashes(a) + Dashes(b)
  {
    if a == [] {
      assert a + b == b;
    } else {
      DashesAppend(a[1..], b);
      assert (a + b)[1..] == a[1..] + b;
    }
  }

  lemma {:induction false} NoDashes(t: Text)
    requires Free(t, EM_DASH)
    ensures Dashes(t) == 0
  {
    if t != [] {
      NoDashes(t[1..]);
    }
  }

  lemma OneDash(t: Text, m: nat)
    requires m < |t| && t[m] == C(EM_DASH) && forall k :: 0 <= k < |t| && k != m ==> t[k] != C(EM_DASH)
    ensures Dashes(t) == 1
  {
    NoDashes(t[..m]);
    NoDashes(t[m..][1..]);
    DashesAppend(t[..m], t[m..]);
    assert t == t[..m] + t[m..];
  }

  lemma DashedOnce(al: Alphabet, t: Text, s: Span)
    requires Proper(al) && Dashed(al, t, s)
    ensures Dashes(t[s.lo..s.hi]) == 1 && forall k :: s.lo <= k < s.hi ==> Skipped(al, t[k])
  {
    var m :| s.lo < m < s.hi - 1 && t[m] == C(EM_DASH)
      && (forall k :: s.lo <= k < m ==> White(al, t[k])) && forall k :: m < k < s.hi ==> White(al, t[k]);
    OneDashIn(al, t, s, m);
  }

  lemma OneDashIn(al: Alphabet, t: Text, s: Span, m: nat)
    requires Proper(al) && s.lo <= m < s.hi <= |t| && t[m] == C(EM_DASH)
    requires forall k :: s.lo <= k < s.hi && k != m ==> White(al, t[k])
    ensures Dashes(t[s.lo..s.hi]) == 1
  {
    var part, n := t[s.lo..s.hi], m - s.lo;
    assert part[n] == C(EM_DASH);
    forall k | 0 <= k < |part| && k != n ensures part[k] != C(EM_DASH) {
      assert part[k] == t[s.lo + k] && White(al, t[s.lo + k]);
    }
    OneDash(part, n);
  }

  lemma DashesCut(t: Text, n: nat)
    requires n <= |t|
    ensures Dashes(t) == Dashes(t[..n]) + Dashes(t[n..])
  {
    DashesAppend(t[..n], t[n..]);
    assert t == t[..n] + t[n..];
  }

  lemma CutSpan(t: Text, s: Span)
    requires s.lo <= s.hi <= |t|
    ensures Dashes(t) == Dashes(t[..s.lo]) + Dashes(t[s.lo..s.hi]) + Dashes(t[s.hi..])
  {
    var tail := t[s.lo..];
    assert tail[..s.hi - s.lo] == t[s.lo..s.hi] && tail[s.hi - s.lo..] == t[s.hi..];
    DashesCut(t, s.lo);
    DashesCut(tail, s.hi - s.lo);
  }

  lemma MatchesBefore(al: Alphabet, t: Text, spans: seq<Span>)
    requires spans != [] && Matches(al, t, spans)
    ensures Matches(al, t[..spans[|spans| - 1].lo], spans[..|spans| - 1])
  {
    var last := spans[|spans| - 1];
    var init, head := spans[..|spans| - 1], t[..last.lo];
    forall i | 0 <= i < |init| ensures Dashed(al, head, init[i]) {
      var s := init[i];
      assert s == spans[i] && Dashed(al, t, s) && s.hi <= last.lo;
      var m :| s.lo < m < s.hi - 1 && t[m] == C(EM_DASH)
        && (forall k :: s.lo <= k < m ==> White(al, t[k])) && forall k :: m < k < s.hi ==> White(al, t[k]);
      assert head[m] == C(EM_DASH);
    }
  }

  /** A match may become a colon and a space. */
  lemma KeepsColon(al: Alphabet, t: Text, s: Span, head: Text)
    requires Proper(al) && Dashed(al, t, s) && Keeps(al, t[..s.lo], head)
    ensures Keeps(al, t, head + [C(':'), C(' ')] + t[s.hi..])
  {
    var colon := [C(':'), C(' ')];
    DashedOnce(al, t, s);
    KeepsPlain(al, t[s.lo..s.hi], colon);
    KeepsAppend(al, t[..s.lo], t[s.lo..s.hi], head, colon);
    assert t[..s.hi] == t[..s.lo] + t[s.lo..s.hi];
    KeepsCut(al, t, s.hi, head + colon, t[s.hi..]);
  }

  lemma ColonCounts(al: Alphabet, t: Text, s: Span, head: Text)
    requires Proper(al) && Dashed(al, t, s)
    ensures Dashes(head + [C(':'), C(' ')] + t[s.hi..]) + Dashes(t[..s.lo]) + 1 == Dashes(head) + Dashes(t)
  {
    var colon := [C(':'), C(' ')];
    DashedOnce(al, t, s);
    CutSpan(t, s);
    DashesAppend(head + colon, t[s.hi..]);
    DashesAppend(head, colon);
    NoDashes(colon);
  }

  /** A pass keeps the placeholders, brings in no mark, and lowers the number of em dashes by its matches. */
  lemma {:induction false} LabelPass(al: Alphabet, t: Text, spans: seq<Span>)
    requires Proper(al) && Matches(al, t, spans)
    ensures Keeps(al, t, Labelled(t, spans))
    ensures Dashes(Labelled(t, spans)) + |spans| == Dashes(t)
    decreases |spans|
  {
    if spans != [] {
      var last, init := spans[|spans| - 1], spans[..|spans| - 1];
      assert Dashed(al, t, last);
      MatchesBefore(al, t, spans);
      LabelPass(al, t[..last.lo], init);
      KeepsColon(al, t, last, Labelled(t[..last.lo], init));
      ColonCounts(al, t, last, Labelled(t[..last.lo], init));
    }
  }

  /** Passes until there is no match. */
  ghost function LabelFix(al: Alphabet, t: Text, labels: Text -> seq<Span>): Text
    requires Proper(al) && forall x :: Matches(al, x, labels(x))
    decreases Dashes(t)
  {
    if labels(t) == [] then t
    else
      LabelPass(al, t, labels(t));
      LabelFix(al, Labelled(t, labels(t)), labels)
  }

  lemma {:induction false} LabelFixKeeps(al: Alphabet, t: Text, labels: Text -> seq<Span>)
    requires Proper(al) && forall x :: Matches(al, x, labels(x))
    ensures Keeps(al, t, LabelFix(al, t, labels)) && labels(LabelFix(al, t, labels)) == []
    decreases Dashes(t)
  {
    if labels(t) != [] {
      LabelPass(al, t, labels(t));
      LabelFixKeeps(al, Labelled(t, labels(t)), labels);
      KeepsTrans(al, t, Labelled(t, labels(t)), LabelFix(al, t, labels));
    }
  }

  /** Substitute until the text stops changing. Each effective pass lowers the number of em dashes. */
  method RewriteLabels(al: Alphabet, text: Text, labels: Text -> seq<Span>) returns (r: Text)
    requires Proper(al) && forall x :: Matches(al, x, labels(x))
    ensures r == LabelFix(al, text, labels)
  {
    r := text;
    var prev: Option<Text> := None;
    while prev != Some(r)
      invariant LabelFix(al, r, labels) == LabelFix(al, text, labels)
      invariant prev == Some(r) ==> labels(r) == []
      decreases Dashes(r), if prev == Some(r) then 0 else 1
    {
      prev := Some(r);
      LabelPass(al, r, labels(r));
      r := Labelled(r, labels(r));
    }
  }

  // ---- 3. Remaining em dashes ----

  function Whites(al: Alphabet): Symbol -> bool {
    s => White(al, s)
  }

  function Comma(): Text {
    [C(','), C(' ')]
  }

  /** Length of an em dash with the white space around it, at the beginning of t; 0 if there is none. */
  function DashAt(al: Alphabet, t: Text): (n: nat)
    ensures n <= |t| && (forall k :: 0 <= k < n ==> Skipped(al, t[k]))
    ensures n == 0 && t != [] ==> t[0] != C(EM_DASH) || White(al, t[0])
    ensures n > 0 ==> exists k :: 0 <= k < n && t[k] == C(EM_DASH)
  {
    var a := Run(t, Whites(al));
    if a < |t| && t[a] == C(EM_DASH) then
      var b := Run(t[a + 1..], Whites(al));
      assert forall k :: a < k < a + 1 + b ==> t[k] == t[a + 1..][k - a - 1];
      a + 1 + b
    else 0
  }

  /** Every em dash, with the white space around it, becomes a comma and a space. */
  function DashesToCommas(al: Alphabet, t: Text): Text
    decreases |t|
  {
    if t == [] then []
    else
      var n := DashAt(al, t);
      if n > 0 then Comma() + DashesToCommas(al, t[n..]) else [t[0]] + DashesToCommas(al, t[1..])
  }

  /** A step that copies the first symbol and goes on. */
  lemma KeepsFirst(al: Alphabet, t: Text, rest: Text)
    requires t != [] && Keeps(al, t[1..], rest)
    ensures Keeps(al, t, [t[0]] + rest)
  {
    assert t[..1] == [t[0]];
    KeepsCut(al, t, 1, [t[0]], rest);
  }

  /** A step that replaces a plain prefix by mark-free text and goes on. */
  lemma KeepsPrefix(al: Alphabet, t: Text, n: nat, put: Text, rest: Text)
    requires n <= |t| && forall k :: 0 <= k < n ==> Skipped(al, t[k])
    requires (forall k :: 0 <= k < |put| ==> Skipped(al, put[k]) && !Barred(put[k].c)) && Keeps(al, t[n..], rest)
    ensures Keeps(al, t, put + rest)
  {
    KeepsPlain(al, t[..n], put);
    KeepsCut(al, t, n, put, rest);
  }

  lemma {:induction false} DashesToCommasFree(al: Alphabet, t: Text)
    requires Proper(al)
    ensures Free(DashesToCommas(al, t), EM_DASH)
    decreases |t|
  {
    if t != [] {
      var n := DashAt(al, t);
      if n > 0 {
        DashesToCommasFree(al, t[n..]);
        FreeAppend(Comma(), DashesToCommas(al, t[n..]), EM_DASH);
      } else {
        DashesToCommasFree(al, t[1..]);
        FreeAppend([t[0]], DashesToCommas(al, t[1..]), EM_DASH);
      }
    }
  }

  lemma FreeAppend(a: Text, b: Text, c: char)
    requires Free(a, c) && Free(b, c)
    ensures Free(a + b, c)
  {
  }

  lemma {:induction false} DashesToCommasKeeps(al: Alphabet, t: Text)
    requires Proper(al)
    ensures Keeps(al, t, DashesToCommas(al, t))
    decreases |t|
  {
    if t != [] {
      var n := DashAt(al, t);
      if n > 0 {
        DashesToCommasKeeps(al, t[n..]);
        KeepsPrefix(al, t, n, Comma(), DashesToCommas(al, t[n..]));
      } else {
        DashesToCommasKeeps(al, t[1..]);
        KeepsFirst(al, t, DashesToCommas(al, t[1..]));
      }
    }
  }

  // ---- 4. Semicolons ----

  /** Capitalise the first symbol behind blanks if it is a letter. */
  function Capital(al: Alphabet, line: Text): Text {
    if line == [] then []
    else if line[0].C? && al.alpha(line[0].c) then Chars(al.upper(line[0].c)) + line[1..]
    else if !Blank(line[0]) then line
    else [line[0]] + Capital(al, line[1..])
  }

  lemma {:induction false} CapitalKeeps(al: Alphabet, line: Text)
    requires Proper(al)
    ensures Keeps(al, line, Capital(al, line))
  {
    if line != [] {
      if line[0].C? && al.alpha(line[0].c) {
        var capital := Chars(al.upper(line[0].c));
        assert line[..1] == [line[0]] && Keeps(al, [line[0]], capital);
        KeepsCut(al, line, 1, capital, line[1..]);
      } else if Blank(line[0]) {
        CapitalKeeps(al, line[1..]);
        KeepsFirst(al, line, Capital(al, line[1..]));
      }
    }
  }

  function Stop(): Text {
    [C('.'), C('\n')]
  }

  predicate InLine(s: Symbol) {
    s != C('\n')
  }

  /** A line-ending semicolon: where the next line starts, where its blanks and where it end. */
  datatype Ending = NoEnding | Ending(line: nat, first: nat, end: nat)

  function EndingAt(t: Text): (e: Ending)
    ensures e.Ending? ==> e.line <= e.first <= e.end <= |t| && 0 < e.line
    ensures e.Ending? ==> forall k :: 0 <= k < e.line ==> t[k] == C(';') || t[k] == C('\n') || Blank(t[k])
  {
    if t == [] || t[0] != C(';') then NoEnding
    else
      var b := 1 + Run(t[1..], Blank);
      if b < |t| && t[b] == C('\n') then
        assert forall k :: 1 <= k < b ==> t[k] == t[1..][k - 1];
        var p := b + 1 + Run(t[b + 1..], Blank);
        Ending(b + 1, p, p + Run(t[p..], InLine))
      else NoEnding
  }

  /** A line-ending semicolon becomes a period, and the next line a sentence. */
  function LineEnds(al: Alphabet, t: Text): Text
    decreases |t|
  {
    if t == [] then []
    else
      match EndingAt(t)
      case NoEnding => [t[0]] + LineEnds(al, t[1..])
      case Ending(line, first, end) =>
        Stop() + (t[line..first] + Capital(al, t[first..end]) + LineEnds(al, t[end..]))
  }

  lemma NextLineKeeps(al: Alphabet, t: Text, lo: nat, p: nat, n: nat, rest: Text)
    requires Proper(al) && lo <= p <= n <= |t| && Keeps(al, t[n..], rest)
    ensures Keeps(al, t[lo..], t[lo..p] + Capital(al, t[p..n]) + rest)
  {
    CapitalKeeps(al, t[p..n]);
    KeepsAppend(al, t[lo..p], t[p..n], t[lo..p], Capital(al, t[p..n]));
    KeepsAppend(al, t[lo..p] + t[p..n], t[n..], t[lo..p] + Capital(al, t[p..n]), rest);
    ThreePieces(t, lo, p, n);
  }

  lemma ThreePieces(t: Text, lo: nat, p: nat, n: nat)
    requires lo <= p <= n <= |t|
    ensures t[lo..] == t[lo..p] + t[p..n] + t[n..]
  {
  }

  lemma {:induction false} LineEndsKeeps(al: Alphabet, t: Text)
    requires Proper(al)
    ensures Keeps(al, t, LineEnds(al, t))
    decreases |t|
  {
    if t != [] {
      match EndingAt(t)
      case NoEnding =>
        LineEndsKeeps(al, t[1..]);
        KeepsFirst(al, t, LineEnds(al, t[1..]));
      case Ending(line, first, end) =>
        var rest := LineEnds(al, t[end..]);
        LineEndsKeeps(al, t[end..]);
        NextLineKeeps(al, t, line, first, end, rest);
        KeepsPrefix(al, t, line, Stop(), t[line..first] + Capital(al, t[first..end]) + rest);
    }
  }

  /** Length of a semicolon with the blanks behind it; 0 if there are none. */
  function PauseAt(t: Text): (n: nat)
    ensures n <= |t| && forall k :: 0 <= k < n ==> t[k] == C(';') || Blank(t[k])
    ensures n > 0 ==> t[0] == C(';')
  {
    if t == [] || t[0] != C(';') then 0
    else
      var b := Run(t[1..], Blank);
      assert forall k :: 1 <= k < 1 + b ==> t[k] == t[1..][k - 1];
      if b == 0 then 0 else 1 + b
  }

  /** A semicolon followed by blanks becomes a comma and a space. */
  function MidSentence(t: Text): Text
    decreases |t|
  {
    if t == [] then []
    else
      var n := PauseAt(t);
      if n > 0 then Comma() + MidSentence(t[n..]) else [t[0]] + MidSentence(t[1..])
  }

  lemma {:induction false} MidSentenceKeeps(al: Alphabet, t: Text)
    requires Proper(al)
    ensures Keeps(al, t, MidSentence(t))
    decreases |t|
  {
    if t != [] {
      var n := PauseAt(t);
      if n > 0 {
        MidSentenceKeeps(al, t[n..]);
        KeepsPrefix(al, t, n, Comma(), MidSentence(t[n..]));
      } else {
        MidSentenceKeeps(al, t[1..]);
        KeepsFirst(al, t, MidSentence(t[1..]));
      }
    }
  }

  // ---- 5. Comma sequences ----

  /** Length of a comma, white space and `stop`; 0 if they are not there. */
  function CommaAt(al: Alphabet, t: Text, stop: char): (n: nat)
    ensures n <= |t| && forall k :: 0 <= k < n ==> t[k] == C(',') || t[k] == C(stop) || White(al, t[k])
  {
    if t == [] || t[0] != C(',') then 0
    else
      var w := 1 + Run(t[1..], Whites(al));
      assert forall k :: 1 <= k < w ==> t[k] == t[1..][k - 1];
      if w < |t| && t[w] == C(stop) then w + 1 else 0
  }

  /** A comma, white space and `stop` become `stop`. */
  function Collapse(al: Alphabet, t: Text, stop: char): Text
    decreases |t|
  {
    if t == [] then []
    else
      var n := CommaAt(al, t, stop);
      if n > 0 then [C(stop)] + Collapse(al, t[n..], stop) else [t[0]] + Collapse(al, t[1..], stop)
  }

  lemma {:induction false} CollapseKeeps(al: Alphabet, t: Text, stop: char)
    requires Punctuation(stop) && !Mark(stop)
    ensures Keeps(al, t, Collapse(al, t, stop))
    decreases |t|
  {
    if t != [] {
      var n := CommaAt(al, t, stop);
      if n > 0 {
        CollapseKeeps(al, t[n..], stop);
        KeepsPrefix(al, t, n, [C(stop)], Collapse(al, t[n..], stop));
      } else {
        CollapseKeeps(al, t[1..], stop);
        KeepsFirst(al, t, Collapse(al, t[1..], stop));
      }
    }
  }

  // ---- The whole rewrite ----

  ghost predicate MarkFree(t: Text) {
    forall c :: Mark(c) ==> Free(t, c)
  }

  /** What follows the label passes. */
  function AfterLabels(al: Alphabet, t: Text): Text {
    var plain := Swap(MidSentence(LineEnds(al, DashesToCommas(al, t))), ';', ',');
    Collapse(al, Collapse(al, plain, ','), '.')
  }

  lemma AfterLabelsKeeps(al: Alphabet, t: Text)
    requires Proper(al)
    ensures Keeps(al, t, AfterLabels(al, t))
    ensures Free(AfterLabels(al, t), EM_DASH) && Free(AfterLabels(al, t), ';')
  {
    var t1 := DashesToCommas(al, t);
    var t2 := LineEnds(al, t1);
    var t3 := MidSentence(t2);
    var t4 := Swap(t3, ';', ',');
    var t5 := Collapse(al, t4, ',');
    DashesToCommasKeeps(al, t);
    DashesToCommasFree(al, t);
    LineEndsKeeps(al, t1);
    MidSentenceKeeps(al, t2);
    SwapKeeps(al, t3, ';', ',');
    CollapseKeeps(al, t4, ',');
    CollapseKeeps(al, t5, '.');
  }

  // ---- Nothing else changes ----

  lemma {:induction false} NoDashUntouched(al: Alphabet, t: Text)
    requires Free(t, EM_DASH)
    ensures DashesToCommas(al, t) == t
  {
    if t != [] {
      assert DashAt(al, t) == 0;
      NoDashUntouched(al, t[1..]);
    }
  }

  lemma {:induction false} NoSemicolonUntouched(al: Alphabet, t: Text)
    requires Free(t, ';')
    ensures LineEnds(al, t) == t && MidSentence(t) == t && Swap(t, ';', ',') == t
  {
    if t != [] {
      assert t[0] != C(';');
      assert EndingAt(t).NoEnding? && PauseAt(t) == 0;
      NoSemicolonUntouched(al, t[1..]);
    }
  }

  lemma {:induction false} NoCommaUntouched(al: Alphabet, t: Text, stop: char)
    requires Free(t, ',')
    ensures Collapse(al, t, stop) == t
  {
    if t != [] {
      assert t[0] != C(',') && CommaAt(al, t, stop) == 0;
      NoCommaUntouched(al, t[1..], stop);
    }
  }

  /** Text without marks is left alone, up to the collapsing of comma sequences. */
  lemma MarkFreeUntouched(al: Alphabet, t: Text)
    requires MarkFree(t)
    ensures AfterLabels(al, t) == Collapse(al, Collapse(al, t, ','), '.') && Swap(t, EN_DASH, '-') == t
    ensures Free(t, ',') ==> AfterLabels(al, t) == t
  {
    assert Free(t, EM_DASH) && Free(t, ';') && Free(t, EN_DASH);
    NoDashUntouched(al, t);
    NoSemicolonUntouched(al, t);
    if Free(t, ',') {
      NoCommaUntouched(al, t, ',');
      NoCommaUntouched(al, t, '.');
    }
  }

  /** All steps in order. */
  ghost function Rewriting(al: Alphabet, text: Text, labels: Text -> seq<Span>): Text
    requires Proper(al) && forall x :: Matches(al, x, labels(x))
  {
    if text == [] then [] else AfterLabels(al, LabelFix(al, Swap(text, EN_DASH, '-'), labels))
  }

  /** Words and placeholders survive in their order, and no mark does. */
  method Rewrite(al: Alphabet, text: Text, labels: Text -> seq<Span>) returns (r: Text)
    requires Proper(al) && forall x :: Matches(al, x, labels(x))
    ensures r == Rewriting(al, text, labels)
    ensures Content(al, r) == Content(al, text) && MarkFree(r)
  {
    if text == [] {
      return text;
    }
    r := Swap(text, EN_DASH, '-');
    SwapKeeps(al, text, EN_DASH, '-');
    LabelFixKeeps(al, r, labels);
    r := RewriteLabels(al, r, labels);
    AfterLabelsKeeps(al, r);
    r := DashesToCommas(al, r);
    r := LineEnds(al, r);
    r := MidSentence(r);
    r := Swap(r, ';', ',');
    r := Collapse(al, r, ',');
    r := Collapse(al, r, '.');
  }
}
