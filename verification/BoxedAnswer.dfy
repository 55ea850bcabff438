/**
 Extracting the last boxed answer of a text: the marker is found from the right, and its braces are
 matched by counting.
 */
module BoxedAnswer {
  import opened Common

  const BOXED := "\\boxed"
  const FBOX := "\\fbox"
  const BOXED_SPACE := "\\boxed "

  // ---- Searching ----

  predicate At(text: string, k: int, pat: string) {
    0 <= k && k + |pat| <= |text| && text[k..k + |pat|] == pat
  }

  /** The last occurrence that starts before `end`. */
  function LastBefore(text: string, pat: string, end: nat): (r: Option<nat>)
    ensures r.Some? ==> r.value < end && At(text, r.value, pat) && forall k :: r.value < k < end ==> !At(text, k, pat)
    ensures r.None? ==> forall k :: 0 <= k < end ==> !At(text, k, pat)
  {
    if end == 0 then None else if At(text, end - 1, pat) then Some(end - 1) else LastBefore(text, pat, end - 1)
  }

  function LastIndex(text: string, pat: string): Option<nat> {
    LastBefore(text, pat, |text| + 1)
  }

  predicate Contains(text: string, pat: string) {
    LastIndex(text, pat).Some?
  }

  // ---- Counting braces ----

  /** Opening less closing braces. */
  function Balance(s: string): int {
    if s == "" then 0
    else
      var c := s[|s| - 1];
      Balance(s[..|s| - 1]) + if c == '{' then 1 else if c == '}' then -1 else 0
  }

  lemma {:induction false} BalanceAppend(a: string, b: string)
    ensures Balance(a + b) == Balance(a) + Balance(b)
  {
    if b == "" {
      assert a + b == a;
    } else {
      var n := |b| - 1;
      BalanceAppend(a, b[..n]);
      assert (a + b)[..|a + b| - 1] == a + b[..n];
    }
  }

  lemma {:induction false} NoBraces(s: string)
    requires forall k :: 0 <= k < |s| ==> s[k] != '{' && s[k] != '}'
    ensures Balance(s) == 0
  {
    if s != "" {
      NoBraces(s[..|s| - 1]);
    }
  }

  /** A closing brace at c brings the count from i back to zero. */
  ghost predicate Ends(text: string, i: nat, c: nat) {
    i <= c < |text| && text[c] == '}' && Balance(text[i..c + 1]) == 0
  }

  ghost predicate FirstEnd(text: string, i: nat, c: nat) {
    Ends(text, i, c) && forall b :: i <= b < c ==> !Ends(text, i, b)
  }

  /** Scan from the marker to the brace that closes the first one. */
  method ScanBraces(text: string, i: nat) returns (c: Option<nat>)
    requires i <= |text|
    ensures c.Some? ==> FirstEnd(text, i, c.value)
    ensures c.None? ==> forall b :: !Ends(text, i, b)
  {
    var open := 0;
    for cursor := i to |text|
      invariant open == Balance(text[i..cursor])
      invariant forall b :: i <= b < cursor ==> !Ends(text, i, b)
    {
      assert text[i..cursor + 1][..cursor - i] == text[i..cursor];
      if text[cursor] == '{' {
        open := open + 1;
      } else if text[cursor] == '}' {
        open := open - 1;
        if open == 0 {
          return Some(cursor);
        }
      }
    }
    c := None;
  }

  // ---- Extraction ----

  /** Up to the first dollar sign. */
  function UpToDollar(s: string): string {
    if s == "" || s[0] == '$' then "" else [s[0]] + UpToDollar(s[1..])
  }

  /** Where the braces are counted from: the last \\boxed, or the last \\fbox if there is none. */
  function MarkerAt(text: string): (r: Option<(nat, string)>)
    ensures r.Some? ==> At(text, r.value.0, r.value.1) && (r.value.1 == BOXED || r.value.1 == FBOX)
  {
    match LastIndex(text, BOXED)
    case Some(i) => Some((i, BOXED))
    case None =>
      match LastIndex(text, FBOX)
      case Some(i) => Some((i, FBOX))
      case None => None
  }

  /** The value found, if any. */
  ghost predicate LastBoxed(text: string, r: Option<string>) {
    if Contains(text, BOXED_SPACE) then
      r == Some(BOXED_SPACE + UpToDollar(text[LastIndex(text, BOXED_SPACE).value + |BOXED_SPACE|..]))
    else
      match MarkerAt(text)
      case None => r.None?
      case Some((i, _)) =>
        if r.None? then forall c :: !Ends(text, i, c) else exists c :: FirstEnd(text, i, c) && r.value == text[i..c + 1]
  }

  method FindLastBoxed(text: string) returns (r: Option<string>)
    ensures LastBoxed(text, r)
  {
    if Contains(text, BOXED_SPACE) {
      return Some(BOXED_SPACE + UpToDollar(text[LastIndex(text, BOXED_SPACE).value + |BOXED_SPACE|..]));
    }
    var marker := MarkerAt(text);
    if marker.None? {
      return None;
    }
    var i := marker.value.0;
    var c := ScanBraces(text, i);
    if c.Some? {
      return Some(text[i..c.value + 1]);
    }
    r := None;
  }

  predicate Encloses(value: string, prefix: string) {
    prefix <= value && value != "" && value[|value| - 1] == '}' && |prefix| < |value|
  }

  /** What is inside the box. */
  function RemoveBoxed(value: string): string {
    if BOXED_SPACE <= value then value[|BOXED_SPACE|..]
    else if Encloses(value, BOXED + "{") then value[|BOXED| + 1..|value| - 1]
    else if Encloses(value, FBOX + "{") then value[|FBOX| + 1..|value| - 1]
    else ""
  }

  function StripLeft(s: string, white: char -> bool): string {
    if s != "" && white(s[0]) then StripLeft(s[1..], white) else s
  }

  function StripRight(s: string, white: char -> bool): string {
    if s != "" && white(s[|s| - 1]) then StripRight(s[..|s| - 1], white) else s
  }

  function Strip(s: string, white: char -> bool): string {
    StripRight(StripLeft(s, white), white)
  }

  // ---- Balanced bodies ----

  /** Every closing brace closes an earlier one of the body, and none stays open. */
  ghost predicate Balanced(body: string) {
    Balance(body) == 0 && forall k :: 0 <= k <= |body| ==> Balance(body[..k]) >= 0
  }

  predicate Marker(m: string) {
    m == BOXED || m == FBOX
  }

  /** The text from i on is a marker, an opening brace, the body and a closing brace. */
  ghost predicate BoxAt(text: string, i: nat, m: string, body: string) {
    At(text, i, m + "{") && At(text, i + |m| + 1, body) && At(text, i + |m| + 1 + |body|, "}")
  }

  /** The count behind the opening brace: one more than in the body so far. */
  lemma CountInside(text: string, i: nat, m: string, k: nat)
    requires Marker(m) && At(text, i, m + "{") && i + |m| + 1 + k <= |text|
    ensures Balance(text[i..i + |m| + 1 + k]) == 1 + Balance(text[i + |m| + 1..i + |m| + 1 + k])
  {
    var head, tail := m + "{", text[i + |m| + 1..i + |m| + 1 + k];
    assert text[i..i + |m| + 1 + k] == text[i..i + |head|] + tail;
    BalanceAppend(head, tail);
    BalanceAppend(m, "{");
    NoBraces(m);
    assert Balance("{") == Balance("") + 1;
  }

  lemma BeforeInside(text: string, i: nat, m: string, b: nat)
    requires Marker(m) && At(text, i, m + "{") && i <= b <= i + |m|
    ensures text[b] != '}'
  {
    assert text[b] == text[i..i + |m| + 1][b - i] == (m + "{")[b - i];
  }

  /** A balanced box ends where its closing brace is. */
  lemma BoxEnds(text: string, i: nat, m: string, body: string)
    requires Marker(m) && BoxAt(text, i, m, body) && Balanced(body)
    ensures FirstEnd(text, i, i + |m| + 1 + |body|)
  {
    var start := i + |m| + 1;
    var end := start + |body|;
    assert text[end] == text[end..end + 1][0];
    forall b | i <= b < end ensures !Ends(text, i, b) {
      if b < start {
        BeforeInside(text, i, m, b);
      } else {
        CountInside(text, i, m, b + 1 - start);
        SliceOfSlice(text, start, end, 0, b + 1 - start);
        assert body[0..b + 1 - start] == body[..b + 1 - start];
      }
    }
    CountInside(text, i, m, |body| + 1);
    ThenBrace(text, start, body);
    BalanceAppend(body, "}");
    assert Balance("}") == Balance("") - 1;
  }

  lemma ThenBrace(text: string, start: nat, body: string)
    requires At(text, start, body) && At(text, start + |body|, "}")
    ensures text[start..start + |body| + 1] == body + "}"
  {
    var end := start + |body|;
    assert text[start..end + 1] == text[start..end] + text[end..end + 1];
  }

  lemma {:induction false} FirstNegative(s: string, k: nat) returns (j: nat)
    requires k <= |s| && Balance(s[..k]) < 0
    ensures j < k && s[j] == '}' && Balance(s[..j + 1]) == -1
  {
    assert s[..k][..k - 1] == s[..k - 1];
    if Balance(s[..k - 1]) < 0 {
      j := FirstNegative(s, k - 1);
    } else {
      j := k - 1;
    }
  }

  lemma NeverNegative(text: string, i: nat, m: string, c: nat, k: nat)
    requires Marker(m) && At(text, i, m + "{") && FirstEnd(text, i, c) && i + |m| + 1 + k <= c
    ensures Balance(text[i + |m| + 1..i + |m| + 1 + k]) >= 0
  {
    var start := i + |m| + 1;
    var inside := text[start..start + k];
    assert inside[..k] == inside;
    if Balance(inside) < 0 {
      var j := FirstNegative(inside, k);
      CountInside(text, i, m, j + 1);
      assert text[start..start + j + 1] == inside[..j + 1];
      assert Ends(text, i, start + j);
    }
  }

  lemma ClosedAtEnd(text: string, i: nat, m: string, c: nat)
    requires Marker(m) && At(text, i, m + "{") && Ends(text, i, c)
    ensures i + |m| + 1 <= c && Balance(text[i + |m| + 1..c]) == 0 && BoxAt(text, i, m, text[i + |m| + 1..c])
  {
    if c <= i + |m| {
      BeforeInside(text, i, m, c);
      assert false;
    }
    var start := i + |m| + 1;
    var body := text[start..c];
    CountInside(text, i, m, c + 1 - start);
    assert text[start..c + 1] == body + "}";
    BalanceAppend(body, "}");
    assert Balance("}") == Balance("") - 1;
  }

  /** Conversely, what lies between the opening brace and the first end is balanced. */
  lemma EndIsBox(text: string, i: nat, m: string, c: nat)
    requires Marker(m) && At(text, i, m + "{") && FirstEnd(text, i, c)
    ensures i + |m| + 1 <= c && BoxAt(text, i, m, text[i + |m| + 1..c]) && Balanced(text[i + |m| + 1..c])
  {
    ClosedAtEnd(text, i, m, c);
    var start := i + |m| + 1;
    var body := text[start..c];
    forall k | 0 <= k <= |body| ensures Balance(body[..k]) >= 0 {
      NeverNegative(text, i, m, c, k);
      assert body[..k] == text[start..start + k];
    }
  }

  lemma RemoveMarker(m: string, body: string)
    requires Marker(m)
    ensures RemoveBoxed(m + "{" + body + "}") == body
  {
    var value := m + "{" + body + "}";
    assert value[|m|] == '{';
    assert value[..|m| + 1] == m + "{" && m + "{" <= value;
    assert value[|m| + 1..|value| - 1] == body;
    if m == FBOX {
      assert value[1] == 'f';
    }
  }

  lemma BoxValue(text: string, i: nat, m: string, body: string)
    requires BoxAt(text, i, m, body)
    ensures text[i..i + |m| + 1 + |body| + 1] == m + "{" + body + "}"
  {
    var start := i + |m| + 1;
    assert text[i..start + |body| + 1] == text[i..start] + text[start..start + |body|] + text[start + |body|..start + |body| + 1];
  }

  lemma SameEnd(text: string, i: nat, c: nat, d: nat)
    requires FirstEnd(text, i, c) && FirstEnd(text, i, d)
    ensures c == d
  {
  }

  /** A balanced body behind the last marker is found and unwrapped. */
  lemma BalancedBodyIsFound(text: string, i: nat, m: string, body: string, r: Option<string>)
    requires !Contains(text, BOXED_SPACE) && MarkerAt(text) == Some((i, m))
    requires BoxAt(text, i, m, body) && Balanced(body) && LastBoxed(text, r)
    ensures r.Some? && RemoveBoxed(r.value) == body
  {
    BoxEnds(text, i, m, body);
    BoxedUpTo(text, i, i + |m| + 1 + |body|, r);
    BoxValue(text, i, m, body);
    RemoveMarker(m, body);
  }

  lemma BoxedUpTo(text: string, i: nat, end: nat, r: Option<string>)
    requires !Contains(text, BOXED_SPACE) && MarkerAt(text).Some? && MarkerAt(text).value.0 == i
    requires FirstEnd(text, i, end) && LastBoxed(text, r)
    ensures r == Some(text[i..end + 1])
  {
    assert Ends(text, i, end);
    var c: nat :| FirstEnd(text, i, c) && r.value == text[i..c + 1];
    SameEnd(text, i, c, end);
  }

  lemma PrefixAt(text: string, i: nat, c: nat, p: string)
    requires i <= c <= |text| && p <= text[i..c]
    ensures At(text, i, p)
  {
    assert text[i..i + |p|] == text[i..c][..|p|];
  }

  lemma NoSpaceForm(text: string, i: nat, c: nat)
    requires !Contains(text, BOXED_SPACE) && i <= c <= |text|
    ensures !(BOXED_SPACE <= text[i..c])
  {
    if BOXED_SPACE <= text[i..c] {
      PrefixAt(text, i, c, BOXED_SPACE);
      assert false;
    }
  }

  lemma Unwrapped(value: string) returns (m: string)
    requires !(BOXED_SPACE <= value) && RemoveBoxed(value) != ""
    ensures Marker(m) && m + "{" <= value && |m| + 1 <= |value| - 1 && RemoveBoxed(value) == value[|m| + 1..|value| - 1]
  {
    m := if Encloses(value, BOXED + "{") then BOXED else FBOX;
  }

  lemma SameMarker(text: string, i: nat, m: string, m': string)
    requires Marker(m) && Marker(m') && At(text, i, m) && At(text, i, m' + "{")
    ensures m == m'
  {
    assert text[i + 1] == text[i..i + |m|][1] == m[1];
    assert text[i + 1] == text[i..i + |m'| + 1][1] == (m' + "{")[1] == m'[1];
  }

  lemma BodyOf(text: string, i: nat, c: nat, n: nat, value: string)
    requires i + n <= c < |text| && value == text[i..c + 1]
    ensures value[n..|value| - 1] == text[i + n..c]
  {
    SliceOfSlice(text, i, c + 1, n, c - i);
  }

  /** A non-empty answer from braces comes from between the last marker's braces. */
  lemma FoundBody(text: string, i: nat, m: string, c: nat, value: string)
    requires !Contains(text, BOXED_SPACE) && Marker(m) && At(text, i, m) && Ends(text, i, c)
    requires value == text[i..c + 1] && RemoveBoxed(value) != ""
    ensures At(text, i, m + "{") && i + |m| + 1 <= c && RemoveBoxed(value) == text[i + |m| + 1..c]
  {
    NoSpaceForm(text, i, c + 1);
    var m1 := Unwrapped(value);
    PrefixAt(text, i, c + 1, m1 + "{");
    SameMarker(text, i, m, m1);
    BodyOf(text, i, c, |m| + 1, value);
  }

  /** And a non-empty answer from braces is the balanced body behind the last marker. */
  lemma AnswerIsBalancedBody(text: string, r: Option<string>) returns (i: nat, m: string, body: string)
    requires !Contains(text, BOXED_SPACE) && LastBoxed(text, r) && r.Some? && RemoveBoxed(r.value) != ""
    ensures MarkerAt(text) == Some((i, m)) && BoxAt(text, i, m, body) && Balanced(body) && RemoveBoxed(r.value) == body
  {
    i, m := MarkerAt(text).value.0, MarkerAt(text).value.1;
    var c: nat :| FirstEnd(text, i, c) && r.value == text[i..c + 1];
    FoundBody(text, i, m, c, r.value);
    EndIsBox(text, i, m, c);
    body := text[i + |m| + 1..c];
  }

  lemma SliceOfSlice(text: string, i: nat, j: nat, a: nat, b: nat)
    requires i <= j <= |text| && a <= b <= j - i
    ensures text[i..j][a..b] == text[i + a..i + b]
  {
    var x, y := text[i..j][a..b], text[i + a..i + b];
    assert |x| == |y|;
    forall k | 0 <= k < |x| ensures x[k] == y[k] {
      assert x[k] == text[i..j][a + k] == text[i + (a + k)];
    }
  }

  // ---- The answer ----

  predicate White(s: string, white: char -> bool) {
    forall k :: 0 <= k < |s| ==> white(s[k])
  }

  lemma {:induction false} StripLeftMeaning(s: string, white: char -> bool) returns (a: string)
    ensures s == a + StripLeft(s, white) && White(a, white)
    ensures var t := StripLeft(s, white); t != "" ==> !white(t[0])
  {
    if s != "" && white(s[0]) {
      var rest := StripLeftMeaning(s[1..], white);
      a := [s[0]] + rest;
      assert s == [s[0]] + s[1..];
    } else {
      a := "";
    }
  }

  lemma {:induction false} StripRightMeaning(s: string, white: char -> bool) returns (b: string)
    ensures s == StripRight(s, white) + b && White(b, white)
    ensures var t := StripRight(s, white); t != "" ==> !white(t[|t| - 1])
    ensures StripRight(s, white) <= s
  {
    if s != "" && white(s[|s| - 1]) {
      var rest := StripRightMeaning(s[..|s| - 1], white);
      b := rest + [s[|s| - 1]];
      assert s == s[..|s| - 1] + [s[|s| - 1]];
    } else {
      b := "";
    }
  }

  /** Stripping takes white space off both ends, all of it and nothing else. */
  lemma StripMeaning(s: string, white: char -> bool) returns (a: string, b: string)
    ensures s == a + Strip(s, white) + b && White(a, white) && White(b, white)
    ensures var t := Strip(s, white); t != "" ==> !white(t[0]) && !white(t[|t| - 1])
  {
    a := StripLeftMeaning(s, white);
    b := StripRightMeaning(StripLeft(s, white), white);
    assert a + (Strip(s, white) + b) == a + Strip(s, white) + b;
  }

  /** The last marker has this balanced body. */
  ghost predicate Boxes(text: string, body: string) {
    exists i: nat, m: string :: MarkerAt(text) == Some((i, m)) && BoxAt(text, i, m, body) && Balanced(body)
  }

  /** The answer of a text: the last "\\boxed " up to a dollar sign, or else the balanced body behind the last marker. */
  ghost predicate IsAnswer(text: string, white: char -> bool, answer: string) {
    if Contains(text, BOXED_SPACE) then
      answer == Strip(UpToDollar(text[LastIndex(text, BOXED_SPACE).value + |BOXED_SPACE|..]), white)
    else
      && (forall body :: Boxes(text, body) ==> answer == Strip(body, white))
      && ((forall body :: !Boxes(text, body)) ==> answer == "")
  }

  lemma NoAnswer(text: string, r: Option<string>)
    requires !Contains(text, BOXED_SPACE) && LastBoxed(text, r) && r.None?
    ensures forall body :: !Boxes(text, body)
  {
    forall body | Boxes(text, body) ensures false {
      var i: nat, m: string :| MarkerAt(text) == Some((i, m)) && BoxAt(text, i, m, body) && Balanced(body);
      BoxEnds(text, i, m, body);
    }
  }

  lemma BodyIsFound(text: string, r: Option<string>, body: string)
    requires !Contains(text, BOXED_SPACE) && LastBoxed(text, r) && Boxes(text, body)
    ensures r.Some? && RemoveBoxed(r.value) == body
  {
    var i: nat, m: string :| MarkerAt(text) == Some((i, m)) && BoxAt(text, i, m, body) && Balanced(body);
    BalancedBodyIsFound(text, i, m, body, r);
  }

  lemma BracesAnswer(text: string, r: Option<string>, white: char -> bool)
    requires !Contains(text, BOXED_SPACE) && LastBoxed(text, r) && r.Some?
    ensures IsAnswer(text, white, Strip(RemoveBoxed(r.value), white))
  {
    forall body | Boxes(text, body) ensures RemoveBoxed(r.value) == body {
      BodyIsFound(text, r, body);
    }
    if RemoveBoxed(r.value) != "" {
      var i, m, body := AnswerIsBalancedBody(text, r);
      assert Boxes(text, body);
    }
  }

  lemma SpaceAnswer(text: string, white: char -> bool)
    requires Contains(text, BOXED_SPACE)
    ensures var rest := UpToDollar(text[LastIndex(text, BOXED_SPACE).value + |BOXED_SPACE|..]);
            RemoveBoxed(BOXED_SPACE + rest) == rest
  {
    var rest := UpToDollar(text[LastIndex(text, BOXED_SPACE).value + |BOXED_SPACE|..]);
    assert BOXED_SPACE <= BOXED_SPACE + rest && (BOXED_SPACE + rest)[|BOXED_SPACE|..] == rest;
  }

  /** The stripped balanced body behind the last marker, or nothing. */
  method ExtractBoxedAnswer(text: string, white: char -> bool) returns (answer: string)
    ensures IsAnswer(text, white, answer)
  {
    var boxed := FindLastBoxed(text);
    answer := if boxed.Some? then Strip(RemoveBoxed(boxed.value), white) else "";
    if Contains(text, BOXED_SPACE) {
      SpaceAnswer(text, white);
    } else if boxed.Some? {
      BracesAnswer(text, boxed, white);
    } else {
      NoAnswer(text, boxed);
    }
  }
}
