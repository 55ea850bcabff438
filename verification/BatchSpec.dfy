/**
 The batch specification language: segments such as 32q1s1k joined by underscores. Digits are the ten
 decimal digits.
 */
module BatchSpec {
  import opened Common
  import opened Decimal
  import opened Division

  /** Query length and total KV length of one request. */
  datatype Request = Request(q: nat, kv: nat)

  predicate Valid(r: Request) {
    0 < r.q <= r.kv
  }

  // ---- Segments ----

  /** A number with an optional factor of 1024. */
  datatype Size = Size(digits: nat, kilo: bool)

  datatype Segment = Segment(count: Option<nat>, q: Size, total: Option<Size>)

  function SizeOf(s: Size): nat {
    if s.kilo then s.digits * 1024 else s.digits
  }

  /** The requests a segment stands for; impossible lengths raise. */
  function Meaning(s: Segment): Result<seq<Request>> {
    var q := SizeOf(s.q);
    var r := Request(q, if s.total.Some? then SizeOf(s.total.value) else q);
    if !Valid(r) then Raised
    else Ok(seq(if s.count.Some? then s.count.value else 1, _ => r))
  }

  function PrintSize(s: Size): string {
    Print(s.digits) + if s.kilo then "k" else ""
  }

  function PrintSizes(q: Size, total: Option<Size>): string {
    PrintSize(q) + if total.Some? then "s" + PrintSize(total.value) else ""
  }

  function PrintSegment(s: Segment): string {
    (if s.count.Some? then Print(s.count.value) else "") + ("q" + PrintSizes(s.q, s.total))
  }

  /** Read a size at the beginning of a text. */
  function ReadSize(text: string): (r: Option<(Size, string)>)
    ensures r.Some? ==> |r.value.1| < |text|
  {
    var n := DigitRun(text);
    if n == 0 then None
    else if n < |text| && text[n] == 'k' then Some((Size(Parse(text[..n]), true), text[n + 1..]))
    else Some((Size(Parse(text[..n]), false), text[n..]))
  }

  /** Read the sizes behind q. */
  function ReadSizes(text: string): Option<(Size, Option<Size>)> {
    match ReadSize(text)
    case None => None
    case Some((q, rest)) =>
      if rest == "" then Some((q, None))
      else if rest[0] != 's' then None
      else
        match ReadSize(rest[1..])
        case None => None
        case Some((total, tail)) => if tail == "" then Some((q, Some(total))) else None
  }

  /** Read a whole segment: an optional count, q and a size, and optionally s and a size. */
  function ReadSegment(text: string): Option<Segment> {
    var n := DigitRun(text);
    if n == |text| || text[n] != 'q' then None
    else
      match ReadSizes(text[n + 1..])
      case None => None
      case Some((q, total)) => Some(Segment(if n == 0 then None else Some(Parse(text[..n])), q, total))
  }

  lemma ReadPrintedSize(s: Size, rest: string)
    requires rest == "" || (!IsDigit(rest[0]) && rest[0] != 'k')
    ensures ReadSize(PrintSize(s) + rest) == Some((s, rest))
  {
    var ds := Print(s.digits);
    var tail := (if s.kilo then "k" else "") + rest;
    var text := PrintSize(s) + rest;
    assert text == ds + tail;
    RunOfDigits(ds, tail);
    assert text[..|ds|] == ds;
    ParsePrint(s.digits);
    if s.kilo {
      assert text[|ds| + 1..] == rest;
    } else {
      assert tail == rest && text[|ds|..] == rest;
    }
  }

  lemma ReadPrintedSizes(q: Size, total: Option<Size>)
    ensures ReadSizes(PrintSizes(q, total)) == Some((q, total))
  {
    if total.None? {
      ReadPrintedSize(q, "");
    } else {
      var rest := "s" + PrintSize(total.value);
      ReadPrintedSize(q, rest);
      ReadPrintedSize(total.value, "");
      assert rest[1..] == PrintSize(total.value) + "";
    }
  }

  /** Reading inverts printing for every segment of the grammar. */
  lemma ReadPrintedSegment(s: Segment)
    ensures ReadSegment(PrintSegment(s)) == Some(s)
  {
    if s.count.Some? {
      ParsePrint(s.count.value);
    }
    ReadPrintedSizes(s.q, s.total);
    ReadFrom(if s.count.Some? then Print(s.count.value) else "", PrintSizes(s.q, s.total), s.q, s.total);
  }

  /** Digits, q, and a text that reads as sizes. */
  lemma ReadFrom(head: string, sizes: string, q: Size, total: Option<Size>)
    requires Digits(head) && ReadSizes(sizes) == Some((q, total))
    ensures ReadSegment(head + ("q" + sizes)) == Some(Segment(if head == "" then None else Some(Parse(head)), q, total))
  {
    var text := head + ("q" + sizes);
    RunOfDigits(head, "q" + sizes);
    assert text[..|head|] == head && text[|head|] == 'q' && text[|head| + 1..] == sizes;
  }

  // ---- Specifications ----

  /** The text cut at every underscore. */
  function Cut(spec: string): (parts: seq<string>)
    ensures parts != []
  {
    if spec == "" then [""]
    else
      var rest := Cut(spec[1..]);
      if spec[0] == '_' then [""] + rest else Prepend(spec[0], rest)
  }

  function Prepend(c: char, parts: seq<string>): (r: seq<string>)
    requires parts != []
    ensures r != []
  {
    [[c] + parts[0]] + parts[1..]
  }

  lemma PrependAppend(c: char, a: seq<string>, b: seq<string>)
    requires a != []
    ensures Prepend(c, a + b) == Prepend(c, a) + b
  {
  }

  function ParseSegment(text: string): Result<seq<Request>> {
    match ReadSegment(text)
    case None => Raised
    case Some(s) => Meaning(s)
  }

  function Both(a: Result<seq<Request>>, b: Result<seq<Request>>): Result<seq<Request>> {
    if a.Ok? && b.Ok? then Ok(a.value + b.value) else Raised
  }

  /** Read the parts in order with a reader for one of them. */
  function ReadAll(parts: seq<string>, read: string -> Result<seq<Request>>): Result<seq<Request>> {
    if parts == [] then Ok([]) else Both(ReadAll(parts[..|parts| - 1], read), read(parts[|parts| - 1]))
  }

  function ParseAll(parts: seq<string>): Result<seq<Request>> {
    ReadAll(parts, ParseSegment)
  }

  function Parsed(spec: string): Result<seq<Request>> {
    ParseAll(Cut(spec))
  }

  /** Extend the list part by part; the first part that cannot be read raises. */
  method ReadParts(parts: seq<string>, read: string -> Result<seq<Request>>) returns (r: Result<seq<Request>>)
    ensures r == ReadAll(parts, read)
  {
    var requests: seq<Request> := [];
    for i := 0 to |parts|
      invariant ReadAll(parts[..i], read) == Ok(requests)
    {
      assert parts[..i + 1][..i] == parts[..i];
      var got := read(parts[i]);
      if got.Raised? {
        StaysRaised(parts, i + 1, read);
        return Raised;
      }
      requests := requests + got.value;
    }
    assert parts[..|parts|] == parts;
    r := Ok(requests);
  }

  method ParseBatchSpec(spec: string) returns (r: Result<seq<Request>>)
    ensures r == Parsed(spec)
  {
    r := ReadParts(Cut(spec), ParseSegment);
  }

  lemma {:induction false} StaysRaised(parts: seq<string>, i: nat, read: string -> Result<seq<Request>>)
    requires i <= |parts| && ReadAll(parts[..i], read).Raised?
    ensures ReadAll(parts, read).Raised?
  {
    if i < |parts| {
      var n := |parts| - 1;
      assert parts[..n][..i] == parts[..i];
      StaysRaised(parts[..n], i, read);
    } else {
      assert parts[..i] == parts;
    }
  }

  lemma {:induction false} CutAppend(a: string, b: string, text: string)
    requires text == a + ("_" + b)
    ensures Cut(text) == Cut(a) + Cut(b)
  {
    if a == "" {
      assert text[1..] == b;
    } else {
      CutAppend(a[1..], b, text[1..]);
      assert text[0] == a[0];
      if a[0] != '_' {
        PrependAppend(a[0], Cut(a[1..]), Cut(b));
      }
    }
  }

  lemma BothAssociates(x: Result<seq<Request>>, y: Result<seq<Request>>, z: Result<seq<Request>>)
    ensures Both(Both(x, y), z) == Both(x, Both(y, z)) && Both(x, Ok([])) == x
  {
    assert x.Ok? && y.Ok? && z.Ok? ==> (x.value + y.value) + z.value == x.value + (y.value + z.value);
    assert x.Ok? ==> x.value + [] == x.value;
  }

  lemma {:induction false} ReadAllAppend(a: seq<string>, b: seq<string>, read: string -> Result<seq<Request>>)
    ensures ReadAll(a + b, read) == Both(ReadAll(a, read), ReadAll(b, read))
    decreases |b|
  {
    if b == [] {
      assert a + b == a;
      BothAssociates(ReadAll(a, read), ReadAll(b, read), ReadAll(b, read));
    } else {
      var n := |b| - 1;
      ReadAllAppend(a, b[..n], read);
      assert (a + b)[..|a + b| - 1] == a + b[..n];
      BothAssociates(ReadAll(a, read), ReadAll(b[..n], read), read(b[n]));
    }
  }

  /** Parsing distributes over joining two specifications with an underscore. */
  lemma ParseDistributes(a: string, b: string)
    ensures Parsed(a + ("_" + b)) == Both(Parsed(a), Parsed(b))
  {
    CutAppend(a, b, a + ("_" + b));
    ReadAllAppend(Cut(a), Cut(b), ParseSegment);
  }

  // ---- Printing a request list ----

  function AsSegment(r: Request): Segment {
    Segment(None, Size(r.q, false), Some(Size(r.kv, false)))
  }

  function PrintRequests(rs: seq<Request>): string
    requires rs != []
  {
    if |rs| == 1 then PrintSegment(AsSegment(rs[0]))
    else PrintRequests(rs[..|rs| - 1]) + ("_" + PrintSegment(AsSegment(rs[|rs| - 1])))
  }

  predicate Word(s: string) {
    forall k :: 0 <= k < |s| ==> s[k] != '_'
  }

  lemma {:induction false} CutWord(s: string)
    requires Word(s)
    ensures Cut(s) == [s]
  {
    if s != "" {
      CutWord(s[1..]);
      assert s == [s[0]] + s[1..];
    }
  }

  lemma ParseOne(s: string)
    ensures ParseAll([s]) == ParseSegment(s)
  {
    assert [s][..0] == [] && ParseAll([]) == Ok([]);
    assert ParseSegment(s).Ok? ==> [] + ParseSegment(s).value == ParseSegment(s).value;
  }

  lemma NoUnderscore(s: Segment)
    ensures Word(PrintSegment(s))
  {
  }

  lemma ParsePrintedRequest(r: Request)
    requires Valid(r)
    ensures Parsed(PrintSegment(AsSegment(r))) == Ok([r])
  {
    var s := PrintSegment(AsSegment(r));
    NoUnderscore(AsSegment(r));
    CutWord(s);
    ParseOne(s);
    ReadPrintedSegment(AsSegment(r));
    assert Meaning(AsSegment(r)) == Ok([r]) by {
      assert seq(1, _ => r) == [r];
    }
  }

  lemma ParseJoined(a: string, b: string, x: seq<Request>, y: seq<Request>)
    requires Parsed(a) == Ok(x) && Parsed(b) == Ok(y)
    ensures Parsed(a + ("_" + b)) == Ok(x + y)
  {
    ParseDistributes(a, b);
  }

  /** Every non-empty list of valid requests has a specification that parses to it. */
  lemma {:induction false} ParsePrintedRequests(rs: seq<Request>, text: string)
    requires rs != [] && (forall i :: 0 <= i < |rs| ==> Valid(rs[i])) && text == PrintRequests(rs)
    ensures Parsed(text) == Ok(rs)
  {
    var n := |rs| - 1;
    ParsePrintedRequest(rs[n]);
    if n > 0 {
      var head := PrintRequests(rs[..n]);
      ParsePrintedRequests(rs[..n], head);
      ParseJoined(head, PrintSegment(AsSegment(rs[n])), rs[..n], [rs[n]]);
      InitLast(rs);
    } else {
      assert rs == [rs[0]];
    }
  }

  // ---- The summary ----

  function Context(r: Request): nat
    requires Valid(r)
  {
    r.kv - r.q
  }

  function Extension(q: nat, ctx: nat): string {
    Print(q) + (",ctx=" + (Print(ctx) + ")"))
  }

  /** The label a request is counted under. */
  function Label(r: Request): string
    requires Valid(r)
  {
    if Context(r) == 0 then "prefill(q=" + Print(r.q) + ")"
    else if r.q == 1 then "decode(ctx=" + Print(Context(r)) + ")"
    else "extend(q=" + Extension(r.q, Context(r))
  }

  /** Two numbers in a text, told apart by the character behind the first. */
  lemma FirstNumber(a: nat, x: string, b: nat, y: string)
    requires x != "" && y != "" && !IsDigit(x[0]) && !IsDigit(y[0]) && Print(a) + x == Print(b) + y
    ensures a == b && x == y
  {
    RunOfDigits(Print(a), x);
    RunOfDigits(Print(b), y);
    assert Print(a) == (Print(a) + x)[..|Print(a)|] && Print(b) == (Print(b) + y)[..|Print(b)|];
    PrintInjective(a, b);
    assert x == (Print(a) + x)[|Print(a)|..] && y == (Print(b) + y)[|Print(b)|..];
  }

  lemma AfterPrefix(p: string, x: string, y: string)
    requires p + x == p + y
    ensures x == y
  {
    assert x == (p + x)[|p|..] && y == (p + y)[|p|..];
  }

  lemma SameExtension(q: nat, c: nat, q': nat, c': nat)
    requires Extension(q, c) == Extension(q', c')
    ensures q == q' && c == c'
  {
    FirstNumber(q, ",ctx=" + (Print(c) + ")"), q', ",ctx=" + (Print(c') + ")"));
    AfterPrefix(",ctx=", Print(c) + ")", Print(c') + ")");
    FirstNumber(c, ")", c', ")");
  }

  /** The label determines the request. */
  lemma LabelInjective(r: Request, s: Request)
    requires Valid(r) && Valid(s) && Label(r) == Label(s)
    ensures r == s
  {
    assert Label(r)[0] == Label(s)[0];
    if Context(r) == 0 {
      assert Label(r) == "prefill(q=" + (Print(r.q) + ")") && Label(s) == "prefill(q=" + (Print(s.q) + ")");
      AfterPrefix("prefill(q=", Print(r.q) + ")", Print(s.q) + ")");
      FirstNumber(r.q, ")", s.q, ")");
    } else if r.q == 1 {
      assert Label(r) == "decode(ctx=" + (Print(Context(r)) + ")") && Label(s) == "decode(ctx=" + (Print(Context(s)) + ")");
      AfterPrefix("decode(ctx=", Print(Context(r)) + ")", Print(Context(s)) + ")");
      FirstNumber(Context(r), ")", Context(s), ")");
    } else {
      AfterPrefix("extend(q=", Extension(r.q, Context(r)), Extension(s.q, Context(s)));
      SameExtension(r.q, Context(r), s.q, Context(s));
    }
  }

  ghost predicate AllValid(rs: seq<Request>) {
    forall i :: 0 <= i < |rs| ==> Valid(rs[i])
  }

  /** Number of requests under a label. */
  function Tally(rs: seq<Request>, l: string): nat
    requires AllValid(rs)
  {
    if rs == [] then 0 else Tally(rs[..|rs| - 1], l) + if Label(rs[|rs| - 1]) == l then 1 else 0
  }

  /** Count the requests under their labels. */
  method CountLabels(rs: seq<Request>) returns (counts: map<string, nat>)
    requires AllValid(rs)
    ensures forall l :: (if l in counts then counts[l] else 0) == Tally(rs, l)
  {
    counts := map[];
    for i := 0 to |rs|
      invariant forall l :: (if l in counts then counts[l] else 0) == Tally(rs[..i], l)
    {
      assert rs[..i + 1][..i] == rs[..i];
      var l := Label(rs[i]);
      counts := counts[l := (if l in counts then counts[l] else 0) + 1];
    }
    assert rs[..|rs|] == rs;
  }

  lemma {:induction false} TallyIsCount(rs: seq<Request>, r: Request)
    requires AllValid(rs) && Valid(r)
    ensures Tally(rs, Label(r)) == multiset(rs)[r]
  {
    if rs != [] {
      var init, last := rs[..|rs| - 1], rs[|rs| - 1];
      TallyIsCount(init, r);
      CountLast(rs, r);
      if Label(last) == Label(r) {
        LabelInjective(last, r);
      }
    }
  }

  lemma {:induction false} OnlyValid(rs: seq<Request>, r: Request)
    requires AllValid(rs) && !Valid(r)
    ensures multiset(rs)[r] == 0
  {
    if rs != [] {
      var init, last := rs[..|rs| - 1], rs[|rs| - 1];
      OnlyValid(init, r);
      CountLast(rs, r);
    }
  }

  /** The counts determine which requests there are, and how many of each. */
  lemma CountsDetermine(a: seq<Request>, b: seq<Request>)
    requires AllValid(a) && AllValid(b) && forall l :: Tally(a, l) == Tally(b, l)
    ensures multiset(a) == multiset(b)
  {
    forall r ensures multiset(a)[r] == multiset(b)[r] {
      if Valid(r) {
        TallyIsCount(a, r);
        TallyIsCount(b, r);
      } else {
        OnlyValid(a, r);
        OnlyValid(b, r);
      }
    }
  }

  // ---- The printed summary ----

  /** A label with the number of requests counted under it so far. */
  datatype Entry = Entry(text: string, count: nat)

  /** Count one more request under a label; a label that is new goes to the end. */
  function Bump(entries: seq<Entry>, l: string): seq<Entry> {
    if entries == [] then [Entry(l, 1)]
    else if entries[0].text == l then [Entry(l, entries[0].count + 1)] + entries[1..]
    else [entries[0]] + Bump(entries[1..], l)
  }

  /** The counter of a list of requests, in the order in which labels first occur. */
  function Entries(rs: seq<Request>): seq<Entry>
    requires AllValid(rs)
  {
    if rs == [] then [] else Bump(Entries(rs[..|rs| - 1]), Label(rs[|rs| - 1]))
  }

  function CountIn(entries: seq<Entry>, l: string): nat {
    if entries == [] then 0 else (if entries[0].text == l then entries[0].count else 0) + CountIn(entries[1..], l)
  }

  lemma {:induction false} CountOfBump(entries: seq<Entry>, l: string, m: string)
    ensures CountIn(Bump(entries, l), m) == CountIn(entries, m) + if m == l then 1 else 0
  {
    if entries == [] {
      assert Bump(entries, l)[1..] == [];
    } else if entries[0].text == l {
      assert Bump(entries, l)[1..] == entries[1..];
    } else {
      CountOfBump(entries[1..], l, m);
      assert Bump(entries, l)[1..] == Bump(entries[1..], l);
    }
  }

  lemma {:induction false} EntriesCount(rs: seq<Request>, l: string)
    requires AllValid(rs)
    ensures CountIn(Entries(rs), l) == Tally(rs, l)
  {
    if rs != [] {
      EntriesCount(rs[..|rs| - 1], l);
      CountOfBump(Entries(rs[..|rs| - 1]), Label(rs[|rs| - 1]), l);
    }
  }

  /** A text as it stands between the blanks of a summary. */
  predicate Solid(s: string) {
    ' ' !in s
  }

  const TIMES := "\U{00D7}"

  function Part(e: Entry): string {
    Print(e.count) + (TIMES + e.text)
  }

  /** The parts with two blanks between them. */
  function Spaced(entries: seq<Entry>): string
    requires entries != []
    decreases |entries|, 1
  {
    Part(entries[0]) + Behind(entries)
  }

  function Behind(entries: seq<Entry>): string
    requires entries != []
    decreases |entries|, 0
  {
    if |entries| == 1 then "" else "  " + Spaced(entries[1..])
  }

  function Summary(entries: seq<Entry>): string {
    if entries == [] then "(empty)" else Spaced(entries)
  }

  ghost predicate SolidLabels(entries: seq<Entry>) {
    forall i :: 0 <= i < |entries| ==> Solid(entries[i].text)
  }

  lemma SolidPart(e: Entry)
    requires Solid(e.text)
    ensures Solid(Part(e))
  {
  }

  lemma Longer(a: string, x: string, b: string, y: string)
    requires a + x == b + y && |a| < |b|
    ensures x != "" && x[0] == b[|a|]
  {
    assert (a + x)[|a|] == (b + y)[|a|];
  }

  /** Two solid texts, each at the end or before a blank. */
  lemma FirstSolid(a: string, x: string, b: string, y: string)
    requires Solid(a) && Solid(b) && a + x == b + y
    requires (x == "" || x[0] == ' ') && (y == "" || y[0] == ' ')
    ensures a == b && x == y
  {
    if |a| < |b| {
      Longer(a, x, b, y);
    } else if |b| < |a| {
      Longer(b, y, a, x);
    }
    assert a == (a + x)[..|a|] && b == (b + y)[..|b|];
    assert x == (a + x)[|a|..] && y == (b + y)[|b|..];
  }

  lemma PartInjective(d: Entry, e: Entry)
    requires Part(d) == Part(e)
    ensures d == e
  {
    FirstNumber(d.count, TIMES + d.text, e.count, TIMES + e.text);
    AfterPrefix(TIMES, d.text, e.text);
  }

  lemma {:induction false} SpacedInjective(d: seq<Entry>, e: seq<Entry>)
    requires d != [] && e != [] && SolidLabels(d) && SolidLabels(e) && Spaced(d) == Spaced(e)
    ensures d == e
  {
    SolidPart(d[0]);
    SolidPart(e[0]);
    FirstSolid(Part(d[0]), Behind(d), Part(e[0]), Behind(e));
    PartInjective(d[0], e[0]);
    if |d| > 1 {
      AfterPrefix("  ", Spaced(d[1..]), Spaced(e[1..]));
      SpacedInjective(d[1..], e[1..]);
      assert d == [d[0]] + d[1..] && e == [e[0]] + e[1..];
    }
  }

  lemma StartsWithDigit(entries: seq<Entry>)
    requires entries != []
    ensures Summary(entries) != "" && IsDigit(Summary(entries)[0])
  {
    assert Summary(entries)[0] == Print(entries[0].count)[0];
  }

  lemma SummaryInjective(d: seq<Entry>, e: seq<Entry>)
    requires SolidLabels(d) && SolidLabels(e) && Summary(d) == Summary(e)
    ensures d == e
  {
    if d != [] && e != [] {
      SpacedInjective(d, e);
    } else if d != [] {
      StartsWithDigit(d);
    } else if e != [] {
      StartsWithDigit(e);
    }
  }

  lemma SolidDigits(n: nat)
    ensures Solid(Print(n))
  {
  }

  lemma SolidLabel(r: Request)
    requires Valid(r)
    ensures Solid(Label(r))
  {
    SolidDigits(r.q);
    SolidDigits(Context(r));
  }

  lemma {:induction false} SolidBump(entries: seq<Entry>, l: string)
    requires SolidLabels(entries) && Solid(l)
    ensures SolidLabels(Bump(entries, l))
  {
    if entries != [] && entries[0].text != l {
      SolidBump(entries[1..], l);
    }
  }

  lemma {:induction false} SolidEntries(rs: seq<Request>)
    requires AllValid(rs)
    ensures SolidLabels(Entries(rs))
  {
    if rs != [] {
      SolidEntries(rs[..|rs| - 1]);
      SolidLabel(rs[|rs| - 1]);
      SolidBump(Entries(rs[..|rs| - 1]), Label(rs[|rs| - 1]));
    }
  }

  lemma EntriesNext(rs: seq<Request>, i: nat)
    requires AllValid(rs) && i < |rs|
    ensures Entries(rs[..i + 1]) == Bump(Entries(rs[..i]), Label(rs[i]))
  {
    assert rs[..i + 1][..i] == rs[..i];
  }

  /** Summarise a request list. */
  method FormatBatchSpec(rs: seq<Request>) returns (summary: string)
    requires AllValid(rs)
    ensures summary == Summary(Entries(rs))
  {
    var counter: seq<Entry> := [];
    for i := 0 to |rs|
      invariant counter == Entries(rs[..i])
    {
      EntriesNext(rs, i);
      counter := Bump(counter, Label(rs[i]));
    }
    assert rs[..|rs|] == rs;
    summary := Summary(counter);
  }

  /** The printed summary determines which requests there are, and how many of each. */
  lemma SummaryDetermines(a: seq<Request>, b: seq<Request>)
    requires AllValid(a) && AllValid(b) && Summary(Entries(a)) == Summary(Entries(b))
    ensures multiset(a) == multiset(b)
  {
    SolidEntries(a);
    SolidEntries(b);
    SummaryInjective(Entries(a), Entries(b));
    forall l ensures Tally(a, l) == Tally(b, l) {
      EntriesCount(a, l);
      EntriesCount(b, l);
    }
    CountsDetermine(a, b);
  }

  // ---- Tokens and blocks ----

  function QueryTokens(rs: seq<Request>): nat {
    Total(rs, (r: Request) => r.q)
  }

  function KvTokens(rs: seq<Request>): nat {
    Total(rs, (r: Request) => r.kv)
  }

  function BlocksNeeded(rs: seq<Request>, block: nat): nat
    requires 0 < block
  {
    Total(rs, (r: Request) => Ceiling(r.kv, block))
  }

  /** The blocks hold all tokens, and waste less than one block per request. */
  lemma {:induction false} BlocksBound(rs: seq<Request>, block: nat)
    requires 0 < block
    ensures KvTokens(rs) <= Times(BlocksNeeded(rs, block), block)
    ensures rs != [] ==> Times(BlocksNeeded(rs, block), block) < KvTokens(rs) + Times(|rs|, block)
  {
    if rs != [] {
      BlocksBound(rs[1..], block);
      RoundedUp(rs[0].kv, block);
      TimesAddLeft(Ceiling(rs[0].kv, block), BlocksNeeded(rs[1..], block), block);
    }
  }

  /** So the summary determines the tokens and the blocks as well. */
  lemma CountsDetermineTotals(a: seq<Request>, b: seq<Request>, block: nat)
    requires 0 < block && AllValid(a) && AllValid(b) && forall l :: Tally(a, l) == Tally(b, l)
    ensures QueryTokens(a) == QueryTokens(b) && BlocksNeeded(a, block) == BlocksNeeded(b, block)
  {
    CountsDetermine(a, b);
    SameTotal(a, b, (r: Request) => r.q);
    SameTotal(a, b, (r: Request) => Ceiling(r.kv, block));
  }
}
