/**
 A placeholder in the text is not one symbol but the string NUL, "PH", its number, NUL. Rewriting the
 spelled text is spelling the rewritten text, step by step.
 */
module MarkdownSpelling {
  import opened Common
  import opened Decimal
  import opened MarkdownRewrite

  /** A placeholder's number between two marks that no prose contains. */
  function Written(k: nat): (w: string)
    ensures |w| > 3 && w[0] == NUL && forall i :: 0 <= i < |w| ==> Spelling(w[i])
  {
    [NUL, 'P', 'H'] + Print(k) + [NUL]
  }

  function Spell(s: Symbol): (t: Text)
    ensures t != []
  {
    if s.C? then [s] else Chars(Written(s.k))
  }

  /** The text with every placeholder spelled out. */
  function Spelled(t: Text): Text {
    if t == [] then [] else Spell(t[0]) + Spelled(t[1..])
  }

  lemma {:induction false} SpelledAppend(a: Text, b: Text)
    ensures Spelled(a + b) == Spelled(a) + Spelled(b)
  {
    if a == [] {
      assert a + b == b;
    } else {
      SpelledAppend(a[1..], b);
      TailOfAppend(a, b);
      Regroup(Spell(a[0]), Spelled(a[1..]), Spelled(b));
    }
  }

  lemma TailOfAppend(a: Text, b: Text)
    requires a != []
    ensures (a + b)[0] == a[0] && (a + b)[1..] == a[1..] + b
  {
  }

  predicate NoHolds(t: Text) {
    forall k :: 0 <= k < |t| ==> t[k].C?
  }

  lemma {:induction false} SpelledPlain(t: Text)
    requires NoHolds(t)
    ensures Spelled(t) == t
  {
    if t != [] {
      SpelledPlain(t[1..]);
    }
  }

  lemma {:induction false} SpelledIsPlain(t: Text)
    ensures NoHolds(Spelled(t))
  {
    if t != [] {
      SpelledIsPlain(t[1..]);
    }
  }

  /** A plain prefix is not touched. */
  lemma PlainPrefix(t: Text, n: nat)
    requires n <= |t| && NoHolds(t[..n])
    ensures n <= |Spelled(t)| && Spelled(t)[..n] == t[..n] && Spelled(t)[n..] == Spelled(t[n..])
  {
    SpelledPlain(t[..n]);
    SpelledAppend(t[..n], t[n..]);
    Halves(t, n);
  }

  lemma SpelledFirst(t: Text)
    requires t != []
    ensures Spelled(t) != [] && Spelled(t)[0] == if t[0].C? then t[0] else C(NUL)
  {
  }

  lemma SpelledSplit(t: Text, n: nat)
    requires n <= |t|
    ensures Spelled(t) == Spelled(t[..n]) + Spelled(t[n..])
  {
    Halves(t, n);
    SpelledAppend(t[..n], t[n..]);
  }

  /** Runs of symbols that are neither placeholders nor NUL end at the same place. */
  lemma {:induction false} RunSpelled(t: Text, p: Symbol -> bool)
    requires (forall k :: !p(Hold(k))) && !p(C(NUL))
    ensures Run(Spelled(t), p) == Run(t, p)
  {
    if t != [] {
      SpelledFirst(t);
      if t[0].C? && p(t[0]) {
        RunSpelled(t[1..], p);
        assert Spelled(t)[1..] == Spelled(t[1..]);
      }
    }
  }

  /** A run of plain symbols and what follows it, in both texts. */
  lemma RunPrefix(t: Text, p: Symbol -> bool, n: nat)
    requires (forall k :: !p(Hold(k))) && !p(C(NUL)) && n == Run(t, p)
    ensures n == Run(Spelled(t), p) && n <= |Spelled(t)| && Spelled(t)[n..] == Spelled(t[n..])
    ensures n < |t| <==> n < |Spelled(t)|
    ensures n < |t| ==> Spelled(t)[n] == if t[n].C? then t[n] else C(NUL)
    ensures n < |t| && t[n].C? ==> Spelled(t)[n + 1..] == Spelled(t[n + 1..])
  {
    RunSpelled(t, p);
    assert NoHolds(t[..n]);
    PlainPrefix(t, n);
    if n < |t| {
      SpelledFirst(t[n..]);
      assert Spelled(t)[n..][0] == Spelled(t)[n];
      if t[n].C? {
        assert t[n..][1..] == t[n + 1..] && Spelled(t)[n..][1..] == Spelled(t)[n + 1..];
      }
    }
  }

  // ---- Functions that copy the spelling ----

  /** f copies a leading symbol of a placeholder's spelling. */
  ghost predicate Copies(f: Text -> Text) {
    forall c, rest :: Spelling(c) ==> f([C(c)] + rest) == [C(c)] + f(rest)
  }

  lemma {:induction false} CopiesChars(f: Text -> Text, w: string, rest: Text)
    requires Copies(f) && forall i :: 0 <= i < |w| ==> Spelling(w[i])
    ensures f(Chars(w) + rest) == Chars(w) + f(rest)
  {
    if w == "" {
      assert Chars(w) + rest == rest;
    } else {
      CopiesChars(f, w[1..], rest);
      assert Chars(w) == [C(w[0])] + Chars(w[1..]);
      assert Chars(w) + rest == [C(w[0])] + (Chars(w[1..]) + rest);
    }
  }

  /** A placeholder that f leaves alone is left alone when it is spelled. */
  lemma CopiesHold(f: Text -> Text, t: Text)
    requires Copies(f) && t != [] && t[0].Hold? && f(t) == [t[0]] + f(t[1..])
    requires f(Spelled(t[1..])) == Spelled(f(t[1..]))
    ensures f(Spelled(t)) == Spelled(f(t))
  {
    CopiesChars(f, Written(t[0].k), Spelled(t[1..]));
    assert f(t)[1..] == f(t[1..]);
  }

  /** So is a character that f copies. */
  lemma CopiesFirst(f: Text -> Text, t: Text)
    requires t != [] && t[0].C? && f(t) == [t[0]] + f(t[1..])
    requires f(Spelled(t)) == [t[0]] + f(Spelled(t[1..])) && f(Spelled(t[1..])) == Spelled(f(t[1..]))
    ensures f(Spelled(t)) == Spelled(f(t))
  {
    assert f(t)[1..] == f(t[1..]);
  }

  // ---- Swapping characters ----

  lemma SwapAppend(a: Text, b: Text, from: char, to: char)
    ensures Swap(a + b, from, to) == Swap(a, from, to) + Swap(b, from, to)
  {
  }

  lemma {:induction false} SwapSpelled(t: Text, from: char, to: char)
    requires !Spelling(from)
    ensures Swap(Spelled(t), from, to) == Spelled(Swap(t, from, to))
  {
    if t != [] {
      SwapSpelled(t[1..], from, to);
      var head, tail := Spell(t[0]), Spelled(t[1..]);
      SwapAppend(head, tail, from, to);
      assert Swap(t, from, to)[1..] == Swap(t[1..], from, to);
      if t[0].Hold? {
        assert Swap(head, from, to) == head;
      }
    }
  }

  // ---- Remaining em dashes ----

  /** Two texts with the same white space around the same symbol. */
  lemma DashAtSame(al: Alphabet, t: Text, s: Text, a: nat)
    requires a == Run(t, Whites(al)) == Run(s, Whites(al)) && (a < |t| <==> a < |s|)
    requires a < |t| ==> (t[a] == C(EM_DASH) <==> s[a] == C(EM_DASH))
    requires a < |t| && t[a] == C(EM_DASH) ==> Run(t[a + 1..], Whites(al)) == Run(s[a + 1..], Whites(al))
    ensures DashAt(al, s) == DashAt(al, t)
  {
  }

  lemma DashAtSpelled(al: Alphabet, t: Text)
    requires Proper(al)
    ensures DashAt(al, Spelled(t)) == DashAt(al, t)
  {
    var a := Run(t, Whites(al));
    RunPrefix(t, Whites(al), a);
    if a < |t| && t[a] == C(EM_DASH) {
      RunSpelled(t[a + 1..], Whites(al));
    }
    DashAtSame(al, t, Spelled(t), a);
  }

  lemma DashesCopy(al: Alphabet)
    requires Proper(al)
    ensures Copies(t => DashesToCommas(al, t))
  {
    forall c, rest: Text | Spelling(c)
      ensures DashesToCommas(al, [C(c)] + rest) == [C(c)] + DashesToCommas(al, rest)
    {
      var t := [C(c)] + rest;
      assert Run(t, Whites(al)) == 0 && DashAt(al, t) == 0 && t[1..] == rest;
    }
  }

  lemma {:induction false} DashesSpelled(al: Alphabet, t: Text)
    requires Proper(al)
    ensures DashesToCommas(al, Spelled(t)) == Spelled(DashesToCommas(al, t))
    decreases |t|
  {
    if t != [] {
      var n := DashAt(al, t);
      DashAtSpelled(al, t);
      if n > 0 {
        DashesSpelled(al, t[n..]);
        PlainTo(t, n);
        ReplacedPrefix(t, n, Comma(), DashesToCommas(al, t[n..]));
      } else {
        DashesSpelled(al, t[1..]);
        CopyStep(al, t);
      }
    }
  }

  lemma CopyStep(al: Alphabet, t: Text)
    requires Proper(al) && t != [] && DashAt(al, t) == 0 == DashAt(al, Spelled(t))
    requires DashesToCommas(al, Spelled(t[1..])) == Spelled(DashesToCommas(al, t[1..]))
    ensures DashesToCommas(al, Spelled(t)) == Spelled(DashesToCommas(al, t))
  {
    var f := (x: Text) => DashesToCommas(al, x);
    if t[0].Hold? {
      DashesCopy(al);
      CopiesHold(f, t);
    } else {
      assert Spelled(t)[1..] == Spelled(t[1..]);
      CopiesFirst(f, t);
    }
  }

  lemma PlainTo(t: Text, n: nat)
    requires n <= |t| && forall k :: 0 <= k < n ==> t[k].C?
    ensures NoHolds(t[..n])
  {
  }

  /** A plain prefix of n symbols that gives way to other plain text. */
  lemma ReplacedPrefix(t: Text, n: nat, put: Text, rest: Text)
    requires n <= |t| && NoHolds(t[..n]) && NoHolds(put)
    ensures n <= |Spelled(t)| && Spelled(t)[n..] == Spelled(t[n..]) && Spelled(put + rest) == put + Spelled(rest)
  {
    PlainPrefix(t, n);
    Replaced(put, rest);
  }

  /** Plain text put in front. */
  lemma Replaced(put: Text, rest: Text)
    requires NoHolds(put)
    ensures Spelled(put + rest) == put + Spelled(rest)
  {
    SpelledAppend(put, rest);
    SpelledPlain(put);
  }

  // ---- Semicolons ----

  lemma SpelledUpTo(t: Text, n: nat)
    requires t != [] && n <= |t| - 1
    ensures Spelled(t[..n + 1]) == Spell(t[0]) + Spelled(t[1..][..n])
  {
    CutFirst(t, n);
  }

  lemma {:induction false} LineSpelled(t: Text)
    ensures Run(Spelled(t), InLine) == |Spelled(t[..Run(t, InLine)])|
  {
    if t != [] && InLine(t[0]) {
      LineSpelled(t[1..]);
      RunOver(Spell(t[0]), Spelled(t[1..]));
      SpelledUpTo(t, Run(t[1..], InLine));
    } else if t != [] {
      SpelledFirst(t);
    }
  }

  lemma {:induction false} RunOver(a: Text, b: Text)
    requires forall k :: 0 <= k < |a| ==> InLine(a[k])
    ensures Run(a + b, InLine) == |a| + Run(b, InLine)
  {
    if a == [] {
      assert a + b == b;
    } else {
      RunOver(a[1..], b);
      assert (a + b)[1..] == a[1..] + b;
    }
  }

  lemma {:induction false} CapitalSpelled(al: Alphabet, line: Text)
    requires Proper(al)
    ensures Capital(al, Spelled(line)) == Spelled(Capital(al, line))
  {
    if line != [] {
      SpelledFirst(line);
      if line[0].C? {
        assert Spelled(line)[1..] == Spelled(line[1..]);
        if al.alpha(line[0].c) {
          Replaced(Chars(al.upper(line[0].c)), line[1..]);
        } else if Blank(line[0]) {
          CapitalSpelled(al, line[1..]);
          Replaced([line[0]], Capital(al, line[1..]));
        }
      }
    }
  }

  /** n symbols from i on, up to j. */
  lemma CutAt(t: Text, i: nat, n: nat, j: nat)
    requires i + n == j <= |t|
    ensures t[i..][..n] == t[i..j] && t[i..][n..] == t[j..]
  {
  }

  /** The blanks from i to j, and the symbol behind them, in both texts. */
  lemma BlanksSpelled(t: Text, s: Text, i: nat, j: nat)
    requires i <= |t| && i <= |s| && s[i..] == Spelled(t[i..]) && j == i + Run(t[i..], Blank)
    ensures j == i + Run(s[i..], Blank) && i <= j <= |t| && j <= |s|
    ensures s[i..j] == t[i..j] && s[j..] == Spelled(t[j..])
  {
    var n := Run(t[i..], Blank);
    RunPrefix(t[i..], Blank, n);
    PlainPrefix(t[i..], n);
    CutAt(t, i, n, j);
    CutAt(s, i, n, j);
  }

  /** The symbol at j and what follows it, in both texts. */
  lemma SymbolSpelled(t: Text, s: Text, j: nat)
    requires j <= |t| && j <= |s| && s[j..] == Spelled(t[j..])
    ensures j < |t| <==> j < |s|
    ensures j < |t| ==> s[j] == if t[j].C? then t[j] else C(NUL)
    ensures j < |t| && t[j].C? ==> s[j + 1..] == Spelled(t[j + 1..])
  {
    if j < |t| {
      SpelledFirst(t[j..]);
      assert s[j..][0] == s[j] && t[j..][0] == t[j];
      if t[j].C? {
        assert t[j..][1..] == t[j + 1..] && s[j..][1..] == s[j + 1..];
      }
    }
  }

  lemma CutBehind(whole: Text, a: Text, b: Text)
    requires whole == a + b
    ensures whole[..|a|] == a && whole[|a|..] == b
  {
  }

  /** The line from i to its end, in both texts. */
  lemma RestOfLine(t: Text, s: Text, i: nat, end: nat, end': nat)
    requires i <= |t| && i <= |s| && s[i..] == Spelled(t[i..])
    requires end == i + Run(t[i..], InLine) && end' == i + Run(s[i..], InLine)
    ensures i <= end <= |t| && i <= end' <= |s| && s[i..end'] == Spelled(t[i..end]) && s[end'..] == Spelled(t[end..])
  {
    var n, m := Run(t[i..], InLine), Run(s[i..], InLine);
    LineSpelled(t[i..]);
    SpelledSplit(t[i..], n);
    CutBehind(s[i..], Spelled(t[i..][..n]), Spelled(t[i..][n..]));
    CutAt(t, i, n, end);
    CutAt(s, i, m, end');
  }

  lemma NoEndingSpelled(t: Text)
    requires t != [] && t[0] != C(';')
    ensures EndingAt(Spelled(t)).NoEnding?
  {
    SpelledFirst(t);
  }

  /** A line-ending semicolon from its parts: newline at b, then the line, its first symbol behind blanks, its end. */
  predicate Parted(t: Text, b: nat, line: nat, p: nat, end: nat) {
    && t != [] && t[0] == C(';') && b == 1 + Run(t[1..], Blank) && b < |t| && t[b] == C('\n') && line == b + 1
    && p == line + Run(t[line..], Blank) && p <= |t| && end == p + Run(t[p..], InLine)
  }

  lemma EndingParts(t: Text, b: nat, line: nat, p: nat, end: nat)
    requires Parted(t, b, line, p, end)
    ensures EndingAt(t) == Ending(line, p, end)
  {
  }

  lemma NoEndingParts(t: Text, b: nat)
    requires t != [] && t[0] == C(';') && b == 1 + Run(t[1..], Blank) && (b < |t| ==> t[b] != C('\n'))
    ensures EndingAt(t) == NoEnding
  {
  }

  /** Two line-ending semicolons with the same text around them, up to spelling. */
  predicate SameEnding(t: Text, e: Ending, s: Text, e': Ending)
    requires e.Ending? ==> e.line <= e.first <= e.end <= |t|
    requires e'.Ending? ==> e'.line <= e'.first <= e'.end <= |s|
  {
    if e.NoEnding? then e'.NoEnding?
    else
      && e'.Ending? && e'.line == e.line && e'.first == e.first
      && s[e.line..e.first] == t[e.line..e.first]
      && s[e.first..e'.end] == Spelled(t[e.first..e.end]) && s[e'.end..] == Spelled(t[e.end..])
  }

  /** The line-ending semicolon at the beginning of t, in both texts. */
  lemma EndingSpelled(t: Text, s: Text)
    requires t != [] && t[0] == C(';') && s == Spelled(t)
    ensures SameEnding(t, EndingAt(t), s, EndingAt(s))
  {
    assert s[1..] == Spelled(t[1..]) && s[0] == t[0];
    var b := 1 + Run(t[1..], Blank);
    BlanksSpelled(t, s, 1, b);
    SymbolSpelled(t, s, b);
    if b < |t| && t[b] == C('\n') {
      var p, end, end' := NextLineSpelled(t, s, b, b + 1);
      EndingParts(t, b, b + 1, p, end);
      EndingParts(s, b, b + 1, p, end');
    } else {
      NoEndingParts(t, b);
      NoEndingParts(s, b);
    }
  }

  /** The blanks and the line behind the newline at b, in both texts. */
  lemma NextLineSpelled(t: Text, s: Text, b: nat, line: nat) returns (p: nat, end: nat, end': nat)
    requires t != [] && s != [] && t[0] == C(';') == s[0] && b < |t| && b < |s| && t[b] == C('\n') == s[b] && line == b + 1
    requires b == 1 + Run(t[1..], Blank) == 1 + Run(s[1..], Blank) && s[line..] == Spelled(t[line..])
    ensures Parted(t, b, line, p, end) && Parted(s, b, line, p, end')
    ensures line <= p <= end <= |t| && p <= end' <= |s|
    ensures SameEnding(t, Ending(line, p, end), s, Ending(line, p, end'))
  {
    p := line + Run(t[line..], Blank);
    BlanksSpelled(t, s, line, p);
    end, end' := p + Run(t[p..], InLine), p + Run(s[p..], InLine);
    RestOfLine(t, s, p, end, end');
  }

  lemma LineEndsCopy(al: Alphabet)
    ensures Copies(t => LineEnds(al, t))
  {
    forall c, rest: Text | Spelling(c)
      ensures LineEnds(al, [C(c)] + rest) == [C(c)] + LineEnds(al, rest)
    {
      var t := [C(c)] + rest;
      assert EndingAt(t).NoEnding? && t[1..] == rest;
    }
  }

  lemma LineEndsCopyStep(al: Alphabet, t: Text)
    requires t != [] && EndingAt(t).NoEnding? && EndingAt(Spelled(t)).NoEnding?
    requires LineEnds(al, Spelled(t[1..])) == Spelled(LineEnds(al, t[1..]))
    ensures LineEnds(al, Spelled(t)) == Spelled(LineEnds(al, t))
  {
    var f := (x: Text) => LineEnds(al, x);
    if t[0].Hold? {
      LineEndsCopy(al);
      CopiesHold(f, t);
    } else {
      assert Spelled(t)[1..] == Spelled(t[1..]);
      CopiesFirst(f, t);
    }
  }

  /** A period, the blanks of the next line, the line and the rest. */
  lemma SentenceSpelled(blanks: Text, line: Text, rest: Text)
    requires NoHolds(blanks)
    ensures Spelled(Stop() + (blanks + line + rest)) == Stop() + (blanks + Spelled(line) + Spelled(rest))
  {
    Replaced(Stop(), blanks + line + rest);
    SpelledAppend(blanks + line, rest);
    Replaced(blanks, line);
  }

  lemma BlanksArePlain(t: Text)
    ensures var e := EndingAt(t); e.Ending? ==> NoHolds(t[e.line..e.first])
  {
    var e := EndingAt(t);
    if e.Ending? {
      var b := e.line - 1;
      forall k | e.line <= k < e.first ensures t[k].C? {
        assert t[b + 1..][k - e.line] == t[k];
      }
    }
  }

  lemma {:induction false} LineEndsSpelled(al: Alphabet, t: Text)
    requires Proper(al)
    ensures LineEnds(al, Spelled(t)) == Spelled(LineEnds(al, t))
    decreases |t|
  {
    if t != [] {
      var s := Spelled(t);
      if t[0] == C(';') {
        EndingSpelled(t, s);
      } else {
        NoEndingSpelled(t);
      }
      match EndingAt(t)
      case NoEnding =>
        LineEndsSpelled(al, t[1..]);
        LineEndsCopyStep(al, t);
      case Ending(line, first, end) =>
        LineEndsSpelled(al, t[end..]);
        CapitalSpelled(al, t[first..end]);
        BlanksArePlain(t);
        SentenceSpelled(t[line..first], Capital(al, t[first..end]), LineEnds(al, t[end..]));
    }
  }

  lemma PauseSpelled(t: Text)
    requires t != []
    ensures PauseAt(Spelled(t)) == PauseAt(t)
  {
    SpelledFirst(t);
    if t[0] == C(';') {
      assert Spelled(t)[1..] == Spelled(t[1..]);
      RunSpelled(t[1..], Blank);
    }
  }

  lemma MidSentenceCopy()
    ensures Copies(t => MidSentence(t))
  {
    forall c, rest: Text | Spelling(c)
      ensures MidSentence([C(c)] + rest) == [C(c)] + MidSentence(rest)
    {
      var t := [C(c)] + rest;
      assert PauseAt(t) == 0 && t[1..] == rest;
    }
  }

  lemma MidSentenceCopyStep(t: Text)
    requires t != [] && PauseAt(t) == 0 == PauseAt(Spelled(t)) && MidSentence(Spelled(t[1..])) == Spelled(MidSentence(t[1..]))
    ensures MidSentence(Spelled(t)) == Spelled(MidSentence(t))
  {
    var f := (x: Text) => MidSentence(x);
    if t[0].Hold? {
      MidSentenceCopy();
      CopiesHold(f, t);
    } else {
      assert Spelled(t)[1..] == Spelled(t[1..]);
      CopiesFirst(f, t);
    }
  }

  lemma {:induction false} MidSentenceSpelled(t: Text)
    ensures MidSentence(Spelled(t)) == Spelled(MidSentence(t))
    decreases |t|
  {
    if t != [] {
      var n := PauseAt(t);
      PauseSpelled(t);
      if n > 0 {
        MidSentenceSpelled(t[n..]);
        PlainTo(t, n);
        ReplacedPrefix(t, n, Comma(), MidSentence(t[n..]));
      } else {
        MidSentenceSpelled(t[1..]);
        MidSentenceCopyStep(t);
      }
    }
  }

  // ---- Comma sequences ----

  lemma CommaSpelled(al: Alphabet, t: Text, stop: char)
    requires Proper(al) && t != [] && !Spelling(stop)
    ensures CommaAt(al, Spelled(t), stop) == CommaAt(al, t, stop)
  {
    SpelledFirst(t);
    if t[0] == C(',') {
      var s := Spelled(t);
      var n := Run(t[1..], Whites(al));
      assert s[1..] == Spelled(t[1..]);
      RunPrefix(t[1..], Whites(al), n);
      assert 1 + n < |t| ==> t[1..][n] == t[1 + n];
      assert 1 + n < |s| ==> s[1..][n] == s[1 + n];
    }
  }

  lemma CollapseCopy(al: Alphabet, stop: char)
    ensures Copies(t => Collapse(al, t, stop))
  {
    forall c, rest: Text | Spelling(c)
      ensures Collapse(al, [C(c)] + rest, stop) == [C(c)] + Collapse(al, rest, stop)
    {
      var t := [C(c)] + rest;
      assert CommaAt(al, t, stop) == 0 && t[1..] == rest;
    }
  }

  lemma CollapseCopyStep(al: Alphabet, t: Text, stop: char)
    requires t != [] && CommaAt(al, t, stop) == 0 == CommaAt(al, Spelled(t), stop)
    requires Collapse(al, Spelled(t[1..]), stop) == Spelled(Collapse(al, t[1..], stop))
    ensures Collapse(al, Spelled(t), stop) == Spelled(Collapse(al, t, stop))
  {
    var f := (x: Text) => Collapse(al, x, stop);
    if t[0].Hold? {
      CollapseCopy(al, stop);
      CopiesHold(f, t);
    } else {
      assert Spelled(t)[1..] == Spelled(t[1..]);
      CopiesFirst(f, t);
    }
  }

  lemma {:induction false} CollapseSpelled(al: Alphabet, t: Text, stop: char)
    requires Proper(al) && !Spelling(stop)
    ensures Collapse(al, Spelled(t), stop) == Spelled(Collapse(al, t, stop))
    decreases |t|
  {
    if t != [] {
      var n := CommaAt(al, t, stop);
      CommaSpelled(al, t, stop);
      if n > 0 {
        CollapseSpelled(al, t[n..], stop);
        PlainTo(t, n);
        ReplacedPrefix(t, n, [C(stop)], Collapse(al, t[n..], stop));
      } else {
        CollapseSpelled(al, t[1..], stop);
        CollapseCopyStep(al, t, stop);
      }
    }
  }

  lemma AfterLabelsSpelled(al: Alphabet, t: Text)
    requires Proper(al)
    ensures AfterLabels(al, Spelled(t)) == Spelled(AfterLabels(al, t))
  {
    var t1 := DashesToCommas(al, t);
    var t2 := LineEnds(al, t1);
    var t3 := MidSentence(t2);
    var t4 := Swap(t3, ';', ',');
    DashesSpelled(al, t);
    LineEndsSpelled(al, t1);
    MidSentenceSpelled(t2);
    SwapSpelled(t3, ';', ',');
    CollapseSpelled(al, t4, ',');
    CollapseSpelled(al, Collapse(al, t4, ','), '.');
  }

  // ---- Label matches ----

  lemma CutDeep(w: Text, rest: Text, m: nat)
    requires |w| <= m < |w| + |rest|
    ensures (w + rest)[m] == rest[m - |w|]
    ensures (w + rest)[..m] == w + rest[..m - |w|] && (w + rest)[m..] == rest[m - |w|..]
  {
  }

  lemma CutFirst(t: Text, j: nat)
    requires t != [] && j <= |t| - 1
    ensures t[..j + 1] == [t[0]] + t[1..][..j] && t[..j + 1][1..] == t[1..][..j] && t[j + 1..] == t[1..][j..]
  {
  }

  /** A symbol of the spelled text that is no part of a placeholder is a symbol of the text. */
  lemma {:induction false} Located(t: Text, m: nat) returns (i: nat)
    requires m < |Spelled(t)| && Spelled(t)[m].C? && !Spelling(Spelled(t)[m].c)
    ensures i < |t| && Spelled(t[..i]) == Spelled(t)[..m] && Spelled(t[i..]) == Spelled(t)[m..]
  {
    var w, rest := Spell(t[0]), Spelled(t[1..]);
    if t[0].C? && m == 0 {
      i := 0;
    } else {
      assert Spelled(t) == w + rest;
      CutDeep(w, rest, m);
      var j := Located(t[1..], m - |w|);
      i := j + 1;
      CutFirst(t, j);
    }
  }

  lemma {:induction false} PlainBack(t: Text, n: nat)
    requires n <= |Spelled(t)| && forall k :: 0 <= k < n ==> Spelled(t)[k].C? && !Spelling(Spelled(t)[k].c)
    ensures n <= |t| && t[..n] == Spelled(t)[..n] && Spelled(t[n..]) == Spelled(t)[n..]
  {
    if n > 0 {
      SpelledFirst(t);
      assert Spelled(t)[1..] == Spelled(t[1..]);
      PlainBack(t[1..], n - 1);
      CutFirst(t, n - 1);
      CutFirst(Spelled(t), n - 1);
    }
  }

  /** A plain stretch at the same place of both texts. */
  lemma StretchAt(t: Text, i: nat, text: Text, s: Span) returns (j: nat)
    requires i <= |t| && s.lo <= s.hi <= |text| && Spelled(t[i..]) == text[s.lo..]
    requires forall k :: 0 <= k < s.hi - s.lo ==> text[s.lo..][k].C? && !Spelling(text[s.lo..][k].c)
    ensures i <= j <= |t| && t[i..j] == text[s.lo..s.hi] && Spelled(t[j..]) == text[s.hi..]
  {
    var n := s.hi - s.lo;
    PlainBack(t[i..], n);
    j := i + n;
    CutAt(text, s.lo, n, s.hi);
    CutAt(t, i, n, j);
  }

  /** A stretch of the spelled text without any part of a placeholder is a stretch of the text. */
  lemma StretchLocated(t: Text, text: Text, s: Span) returns (u: Span)
    requires text == Spelled(t) && s.lo < s.hi <= |text| && forall k :: s.lo <= k < s.hi ==> text[k].C? && !Spelling(text[k].c)
    ensures u.lo <= u.hi <= |t| && t[u.lo..u.hi] == text[s.lo..s.hi]
    ensures Spelled(t[..u.lo]) == text[..s.lo] && Spelled(t[u.hi..]) == text[s.hi..]
  {
    var i := Located(t, s.lo);
    PlainSlice(text, s, s.hi - s.lo);
    var j := StretchAt(t, i, text, s);
    u := Span(i, j);
  }

  /** A label match of the spelled text is one of the text. */
  lemma MatchLocated(al: Alphabet, t: Text, s: Span) returns (u: Span)
    requires Proper(al) && Dashed(al, Spelled(t), s)
    ensures Dashed(al, t, u) && Spelled(t[..u.lo]) == Spelled(t)[..s.lo] && Spelled(t[u.hi..]) == Spelled(t)[s.hi..]
  {
    DashedIsPlain(al, Spelled(t), s);
    u := StretchLocated(t, Spelled(t), s);
    DashedShifted(al, Spelled(t), s, t, u);
  }

  lemma DashedIsPlain(al: Alphabet, t: Text, s: Span)
    requires Proper(al) && Dashed(al, t, s)
    ensures forall k :: s.lo <= k < s.hi ==> t[k].C? && !Spelling(t[k].c)
  {
  }

  lemma PlainSlice(t: Text, s: Span, n: nat)
    requires s.lo <= s.hi <= |t| && n == s.hi - s.lo && forall k :: s.lo <= k < s.hi ==> t[k].C? && !Spelling(t[k].c)
    ensures forall k :: 0 <= k < n ==> t[s.lo..][k].C? && !Spelling(t[s.lo..][k].c)
  {
  }

  lemma DashedShifted(al: Alphabet, a: Text, s: Span, b: Text, u: Span)
    requires Dashed(al, a, s) && u.lo <= u.hi <= |b| && b[u.lo..u.hi] == a[s.lo..s.hi]
    ensures Dashed(al, b, u)
  {
    var m :| s.lo < m < s.hi - 1 && a[m] == C(EM_DASH)
      && (forall k :: s.lo <= k < m ==> White(al, a[k])) && forall k :: m < k < s.hi ==> White(al, a[k]);
    assert |b[u.lo..u.hi]| == |a[s.lo..s.hi]|;
    forall k | u.lo <= k < u.hi ensures b[k] == a[s.lo + (k - u.lo)] {
      assert b[u.lo..u.hi][k - u.lo] == a[s.lo..s.hi][k - u.lo];
    }
    assert b[u.lo + (m - s.lo)] == C(EM_DASH);
  }

  /** A label pass over the spelled text spells a text with the same words and placeholders. */
  lemma {:induction false} LabelPassSpelled(al: Alphabet, t: Text, spans: seq<Span>) returns (r: Text)
    requires Proper(al) && Matches(al, Spelled(t), spans)
    ensures Labelled(Spelled(t), spans) == Spelled(r) && Keeps(al, t, r)
    decreases |spans|
  {
    if spans == [] {
      r := t;
    } else {
      var last, init := spans[|spans| - 1], spans[..|spans| - 1];
      assert Dashed(al, Spelled(t), last);
      var u := MatchLocated(al, t, last);
      MatchesBefore(al, Spelled(t), spans);
      var head := LabelPassSpelled(al, t[..u.lo], init);
      KeepsColon(al, t, u, head);
      var colon := [C(':'), C(' ')];
      r := head + colon + t[u.hi..];
      SpelledAppend(head + colon, t[u.hi..]);
      SpelledAppend(head, colon);
      SpelledPlain(colon);
    }
  }

  lemma {:induction false} LabelFixSpelled(al: Alphabet, t: Text, labels: Text -> seq<Span>) returns (r: Text)
    requires Proper(al) && forall x :: Matches(al, x, labels(x))
    ensures LabelFix(al, Spelled(t), labels) == Spelled(r) && Keeps(al, t, r)
    decreases Dashes(Spelled(t))
  {
    var s := Spelled(t);
    if labels(s) == [] {
      r := t;
    } else {
      LabelPass(al, s, labels(s));
      var mid := LabelPassSpelled(al, t, labels(s));
      r := LabelFixSpelled(al, mid, labels);
      KeepsTrans(al, t, mid, r);
    }
  }

  /**
   Rewriting the spelled text gives a spelled text again: the same words and placeholders in the same
   order, no mark, and no NUL but those of the placeholders if there was none before.
   */
  lemma RewritingSpelled(al: Alphabet, t: Text, labels: Text -> seq<Span>) returns (r: Text)
    requires Proper(al) && forall x :: Matches(al, x, labels(x))
    ensures Rewriting(al, Spelled(t), labels) == Spelled(r)
    ensures Keeps(al, t, r) && MarkFree(r)
  {
    if t == [] {
      r := [];
    } else {
      var t1 := Swap(t, EN_DASH, '-');
      SpelledFirst(t);
      SwapSpelled(t, EN_DASH, '-');
      SwapKeeps(al, t, EN_DASH, '-');
      var t2 := LabelFixSpelled(al, t1, labels);
      r := AfterLabels(al, t2);
      AfterLabelsSpelled(al, t2);
      AfterLabelsKeeps(al, t2);
      KeepsTrans(al, t, t1, t2);
      KeepsTrans(al, t, t2, r);
    }
  }
}
