/**
 Splitting a Markdown file into front matter, fenced blocks and prose. How a fence, a directive whose
 body is prose, a blank tail and a front-matter line are recognised is left to the recogniser.
 */
module MarkdownSplit {
  import opened Common

  datatype Fence = Fence(mark: char, len: nat, info: string)

  datatype Recogniser = Recogniser(
    fence: string -> Option<Fence>,
    proseBody: string -> bool,
    blank: string -> bool,
    dashes: string -> bool)

  datatype Kind = FrontMatter | Fenced | Prose

  // ---- Lines ----

  function Join(lines: seq<string>): string {
    if lines == [] then "" else if |lines| == 1 then lines[0] else lines[0] + "\n" + Join(lines[1..])
  }

  /** The text cut at every newline; there is always at least one line. */
  function Lines(src: string): (lines: seq<string>)
    ensures lines != []
  {
    if src == "" then [""]
    else
      var rest := Lines(src[1..]);
      if src[0] == '\n' then [""] + rest else [[src[0]] + rest[0]] + rest[1..]
  }

  lemma {:induction false} JoinLines(src: string)
    ensures Join(Lines(src)) == src
  {
    if src != "" {
      var rest := Lines(src[1..]);
      JoinLines(src[1..]);
      assert src == [src[0]] + src[1..];
      if src[0] == '\n' {
        assert ([""] + rest)[1..] == rest;
      } else {
        var lines := [[src[0]] + rest[0]] + rest[1..];
        assert lines[1..] == rest[1..];
        if |rest| > 1 {
          assert lines[0] + "\n" + Join(rest[1..]) == [src[0]] + (rest[0] + "\n" + Join(rest[1..]));
        }
      }
    }
  }

  lemma {:induction false} JoinAppend(a: seq<string>, b: seq<string>)
    requires a != [] && b != []
    ensures Join(a + b) == Join(a) + "\n" + Join(b)
  {
    assert (a + b)[1..] == a[1..] + b;
    if |a| > 1 {
      JoinAppend(a[1..], b);
      assert Join(a + b) == a[0] + "\n" + (Join(a[1..]) + "\n" + Join(b));
    }
  }

  // ---- Blocks ----

  /** Lines lo .. hi as one chunk. */
  datatype Block = Block(kind: Kind, lo: nat, hi: nat)

  /** A line that closes the fence: same mark, at least as long, nothing behind it. */
  predicate Closes(r: Recogniser, line: string, f: Fence) {
    var c := r.fence(line);
    c.Some? && c.value.mark == f.mark && c.value.len >= f.len && r.blank(c.value.info)
  }

  /** The first closing line from i on, or the end. */
  function CloseAt(r: Recogniser, lines: seq<string>, i: nat, f: Fence): (c: nat)
    requires i <= |lines|
    ensures i <= c <= |lines|
    decreases |lines| - i
  {
    if i == |lines| || Closes(r, lines[i], f) then i else CloseAt(r, lines, i + 1, f)
  }

  function After(c: nat, n: nat): nat {
    if c < n then c + 1 else n
  }

  /** A fenced block opened at i and closed at c; a directive's body is prose of its own. */
  function FenceBlocks(r: Recogniser, i: nat, c: nat, n: nat, f: Fence): seq<Block> {
    if r.proseBody(f.info) then DirectiveBlocks(i, c, n) else [Block(Fenced, i, After(c, n))]
  }

  function DirectiveBlocks(i: nat, c: nat, n: nat): seq<Block> {
    [Block(Fenced, i, i + 1)]
    + (if i + 1 < c then [Block(Prose, i + 1, c)] else [])
    + (if c < n then [Block(Fenced, c, c + 1)] else [])
  }

  function ProseBlock(start: nat, i: nat): seq<Block> {
    if start < i then [Block(Prose, start, i)] else []
  }

  /** The blocks from line i on, with prose pending since `start`. */
  function BlocksFrom(r: Recogniser, lines: seq<string>, start: nat, i: nat): seq<Block>
    requires start <= i <= |lines|
    decreases |lines| - i
  {
    if i == |lines| then ProseBlock(start, i)
    else
      match r.fence(lines[i])
      case None => BlocksFrom(r, lines, start, i + 1)
      case Some(f) =>
        var c := CloseAt(r, lines, i + 1, f);
        var next := After(c, |lines|);
        ProseBlock(start, i) + FenceBlocks(r, i, c, |lines|, f) + BlocksFrom(r, lines, next, next)
  }

  /** The second line of dashes from i on, or the end. */
  function MatterEnd(r: Recogniser, lines: seq<string>, i: nat): (j: nat)
    requires i <= |lines|
    ensures i <= j <= |lines|
    decreases |lines| - i
  {
    if i == |lines| || r.dashes(lines[i]) then i else MatterEnd(r, lines, i + 1)
  }

  /** Lines of front matter: up to the second line of dashes, if the file starts with one and has another. */
  function MatterSize(r: Recogniser, lines: seq<string>): (n: nat)
    requires lines != []
    ensures n <= |lines|
  {
    if r.dashes(lines[0]) && MatterEnd(r, lines, 1) < |lines| then MatterEnd(r, lines, 1) + 1 else 0
  }

  /** The front matter, if there is any, and the blocks behind it. */
  function Blocks(r: Recogniser, lines: seq<string>): seq<Block>
    requires lines != []
  {
    var first := MatterSize(r, lines);
    var rest := BlocksFrom(r, lines, first, first);
    if first == 0 then rest else [Block(FrontMatter, 0, first)] + rest
  }

  // ---- The blocks tile the file ----

  /** Consecutive non-empty blocks from lo to hi. */
  ghost predicate Tiles(blocks: seq<Block>, lo: nat, hi: nat) {
    if blocks == [] then lo == hi
    else blocks[0].lo == lo < blocks[0].hi <= hi && Tiles(blocks[1..], blocks[0].hi, hi)
  }

  lemma {:induction false} TilesAppend(a: seq<Block>, b: seq<Block>, lo: nat, mid: nat, hi: nat)
    requires Tiles(a, lo, mid) && Tiles(b, mid, hi) && mid <= hi
    ensures Tiles(a + b, lo, hi)
  {
    if a == [] {
      assert a + b == b;
    } else {
      TilesAppend(a[1..], b, a[0].hi, mid, hi);
      assert (a + b)[1..] == a[1..] + b;
    }
  }

  lemma FenceTiles(r: Recogniser, i: nat, c: nat, n: nat, f: Fence)
    requires i < c <= n
    ensures Tiles(FenceBlocks(r, i, c, n, f), i, After(c, n))
  {
    if r.proseBody(f.info) {
      var open, body := [Block(Fenced, i, i + 1)], if i + 1 < c then [Block(Prose, i + 1, c)] else [];
      var close := if c < n then [Block(Fenced, c, c + 1)] else [];
      TilesAppend(open, body, i, i + 1, c);
      TilesAppend(open + body, close, i, c, After(c, n));
    }
  }

  lemma {:induction false} BlocksTile(r: Recogniser, lines: seq<string>, start: nat, i: nat)
    requires start <= i <= |lines|
    ensures Tiles(BlocksFrom(r, lines, start, i), start, |lines|)
    decreases |lines| - i
  {
    if i < |lines| {
      match r.fence(lines[i])
      case None => BlocksTile(r, lines, start, i + 1);
      case Some(f) =>
        var c := CloseAt(r, lines, i + 1, f);
        var next := After(c, |lines|);
        var fence, rest := FenceBlocks(r, i, c, |lines|, f), BlocksFrom(r, lines, next, next);
        BlocksTile(r, lines, next, next);
        FenceTiles(r, i, c, |lines|, f);
        TilesAppend(ProseBlock(start, i), fence, start, i, next);
        TilesAppend(ProseBlock(start, i) + fence, rest, start, next, |lines|);
    }
  }

  lemma AllTile(r: Recogniser, lines: seq<string>)
    requires lines != []
    ensures Tiles(Blocks(r, lines), 0, |lines|)
  {
    var first := MatterSize(r, lines);
    BlocksTile(r, lines, first, first);
    if first > 0 {
      var matter := [Block(FrontMatter, 0, first)];
      assert Tiles(matter[1..], first, first);
      TilesAppend(matter, BlocksFrom(r, lines, first, first), 0, first, |lines|);
    }
  }

  // ---- Chunks ----

  datatype Chunk = Chunk(kind: Kind, text: string)

  function ChunkOf(lines: seq<string>, b: Block): Chunk
    requires b.lo <= b.hi <= |lines|
  {
    Chunk(b.kind, Join(lines[b.lo..b.hi]))
  }

  ghost predicate Inside(blocks: seq<Block>, n: nat) {
    forall k :: 0 <= k < |blocks| ==> blocks[k].lo <= blocks[k].hi <= n
  }

  ghost function Chunks(lines: seq<string>, blocks: seq<Block>): seq<Chunk>
    requires Inside(blocks, |lines|)
  {
    seq(|blocks|, k requires 0 <= k < |blocks| => ChunkOf(lines, blocks[k]))
  }

  lemma {:induction false} TilesInside(blocks: seq<Block>, lo: nat, hi: nat)
    requires Tiles(blocks, lo, hi)
    ensures Inside(blocks, hi)
  {
    if blocks != [] {
      TilesInside(blocks[1..], blocks[0].hi, hi);
      assert blocks == [blocks[0]] + blocks[1..];
    }
  }

  function Texts(chunks: seq<Chunk>): seq<string> {
    seq(|chunks|, k requires 0 <= k < |chunks| => chunks[k].text)
  }

  lemma {:induction false} JoinOfTiles(lines: seq<string>, blocks: seq<Block>, lo: nat)
    requires Tiles(blocks, lo, |lines|) && Inside(blocks, |lines|) && lo < |lines|
    ensures Join(Texts(Chunks(lines, blocks))) == Join(lines[lo..])
  {
    var b, texts := blocks[0], Texts(Chunks(lines, blocks));
    if b.hi == |lines| {
      assert blocks == [b];
      assert lines[b.lo..b.hi] == lines[lo..];
    } else {
      JoinOfTiles(lines, blocks[1..], b.hi);
      assert texts[1..] == Texts(Chunks(lines, blocks[1..]));
      assert lines[lo..] == lines[lo..b.hi] + lines[b.hi..];
      JoinAppend(lines[lo..b.hi], lines[b.hi..]);
    }
  }

  /** The chunks joined by newlines are the source, whatever the recogniser says. */
  lemma Lossless(r: Recogniser, src: string)
    ensures var lines := Lines(src); Inside(Blocks(r, lines), |lines|) && Join(Texts(Chunks(lines, Blocks(r, lines)))) == src
  {
    var lines := Lines(src);
    AllTile(r, lines);
    TilesInside(Blocks(r, lines), 0, |lines|);
    JoinOfTiles(lines, Blocks(r, lines), 0);
    JoinLines(src);
    assert lines[0..] == lines;
  }

  // ---- The scanning loops ----

  /** Read a fenced block's body up to its closing line or the end of the file. */
  method ReadFence(r: Recogniser, lines: seq<string>, start: nat, f: Fence) returns (body: seq<string>, close: Option<string>, next: nat)
    requires start <= |lines|
    ensures var c := CloseAt(r, lines, start, f);
      body == lines[start..c] && next == After(c, |lines|) && close == if c < |lines| then Some(lines[c]) else None
  {
    body, close := [], None;
    var i := start;
    while i < |lines|
      invariant start <= i <= |lines| && body == lines[start..i]
      invariant CloseAt(r, lines, start, f) == CloseAt(r, lines, i, f)
    {
      if Closes(r, lines[i], f) {
        return body, Some(lines[i]), i + 1;
      }
      body := body + [lines[i]];
      i := i + 1;
    }
    next := i;
  }

  /** The chunks of one fenced block. */
  method FenceChunks(r: Recogniser, lines: seq<string>, i: nat, f: Fence) returns (chunks: seq<Chunk>, next: nat)
    requires i < |lines|
    ensures var c := CloseAt(r, lines, i + 1, f); var blocks := FenceBlocks(r, i, c, |lines|, f);
      next == After(c, |lines|) && Inside(blocks, |lines|) && chunks == Chunks(lines, blocks)
  {
    var body, close;
    body, close, next := ReadFence(r, lines, i + 1, f);
    ghost var c := CloseAt(r, lines, i + 1, f);
    if r.proseBody(f.info) {
      chunks := DirectiveChunks(lines, i, c, body, close);
    } else {
      chunks := CodeChunk(lines, i, c, body, close);
    }
  }

  /** The lines of a fenced block that is closed at c, or open to the end. */
  ghost predicate FenceRead(lines: seq<string>, i: nat, c: nat, body: seq<string>, close: Option<string>) {
    i < c <= |lines| && body == lines[i + 1..c] && close == if c < |lines| then Some(lines[c]) else None
  }

  /** A directive: its marker lines, and its body as prose of its own. */
  method DirectiveChunks(lines: seq<string>, i: nat, ghost c: nat, body: seq<string>, close: Option<string>) returns (chunks: seq<Chunk>)
    requires FenceRead(lines, i, c, body, close)
    ensures Inside(DirectiveBlocks(i, c, |lines|), |lines|) && chunks == Chunks(lines, DirectiveBlocks(i, c, |lines|))
  {
    SliceNext(lines, i, i);
    chunks := [Chunk(Fenced, lines[i])];
    if body != [] {
      chunks := chunks + [Chunk(Prose, Join(body))];
    }
    if close.Some? {
      SliceNext(lines, c, c);
      chunks := chunks + [Chunk(Fenced, close.value)];
    }
  }

  /** Any other fenced block is one chunk. */
  method CodeChunk(lines: seq<string>, i: nat, ghost c: nat, body: seq<string>, close: Option<string>) returns (chunks: seq<Chunk>)
    requires FenceRead(lines, i, c, body, close)
    ensures var blocks := [Block(Fenced, i, After(c, |lines|))]; Inside(blocks, |lines|) && chunks == Chunks(lines, blocks)
  {
    var all := [lines[i]] + body;
    assert all == lines[i..c];
    if close.Some? {
      SliceNext(lines, i, c);
      all := all + [close.value];
    }
    chunks := [Chunk(Fenced, Join(all))];
  }

  lemma ChunksAppend(lines: seq<string>, a: seq<Block>, b: seq<Block>)
    requires Inside(a, |lines|) && Inside(b, |lines|)
    ensures Inside(a + b, |lines|) && Chunks(lines, a + b) == Chunks(lines, a) + Chunks(lines, b)
  {
  }

  method FlushProse(lines: seq<string>, ghost start: nat, ghost i: nat, prose: seq<string>) returns (chunks: seq<Chunk>)
    requires start <= i <= |lines| && prose == lines[start..i]
    ensures Inside(ProseBlock(start, i), |lines|) && chunks == Chunks(lines, ProseBlock(start, i))
  {
    chunks := if prose != [] then [Chunk(Prose, Join(prose))] else [];
  }

  /** The pending prose and the fenced block at i, added to the blocks that are done. */
  lemma FenceStep(r: Recogniser, lines: seq<string>, start: nat, i: nat, done: seq<Block>, f: Fence) returns (done1: seq<Block>)
    requires start <= i < |lines| && r.fence(lines[i]) == Some(f) && Inside(done, |lines|)
    ensures var blocks := FenceBlocks(r, i, CloseAt(r, lines, i + 1, f), |lines|, f);
      var next := After(CloseAt(r, lines, i + 1, f), |lines|);
      && Inside(done1, |lines|) && Inside(blocks, |lines|) && Inside(ProseBlock(start, i), |lines|)
      && Chunks(lines, done1) == Chunks(lines, done) + Chunks(lines, ProseBlock(start, i)) + Chunks(lines, blocks)
      && done1 + BlocksFrom(r, lines, next, next) == done + BlocksFrom(r, lines, start, i)
  {
    var c := CloseAt(r, lines, i + 1, f);
    var prose, blocks := ProseBlock(start, i), FenceBlocks(r, i, c, |lines|, f);
    FenceTiles(r, i, c, |lines|, f);
    TilesInside(blocks, i, After(c, |lines|));
    done1 := AppendTwo(lines, done, prose, blocks);
    var next := After(c, |lines|);
    RegroupFour(done, prose, blocks, BlocksFrom(r, lines, next, next));
  }

  lemma AppendTwo(lines: seq<string>, a: seq<Block>, b: seq<Block>, c: seq<Block>) returns (all: seq<Block>)
    requires Inside(a, |lines|) && Inside(b, |lines|) && Inside(c, |lines|)
    ensures all == a + b + c && Inside(all, |lines|)
    ensures Chunks(lines, all) == Chunks(lines, a) + Chunks(lines, b) + Chunks(lines, c)
  {
    ChunksAppend(lines, a, b);
    ChunksAppend(lines, a + b, c);
    all := a + b + c;
  }

  lemma RegroupFour<T>(a: seq<T>, b: seq<T>, c: seq<T>, d: seq<T>)
    ensures a + b + c + d == a + (b + c + d)
  {
  }

  /** The chunks of the blocks that are done; the rest of the file goes on from line i with prose since `start`. */
  ghost predicate Splitting(r: Recogniser, lines: seq<string>, first: nat, start: nat, i: nat, done: seq<Block>, chunks: seq<Chunk>) {
    && first <= |lines| && start <= i <= |lines| && Inside(done, |lines|) && chunks == Chunks(lines, done)
    && done + BlocksFrom(r, lines, start, i) == BlocksFrom(r, lines, first, first)
  }

  /** Flush the pending prose and read the fenced block at i. */
  method SplitFence(r: Recogniser, lines: seq<string>, ghost first: nat, ghost start: nat, i: nat, f: Fence, prose: seq<string>,
                    chunks0: seq<Chunk>, ghost done0: seq<Block>)
    returns (chunks: seq<Chunk>, next: nat, ghost done: seq<Block>)
    requires Splitting(r, lines, first, start, i, done0, chunks0) && i < |lines| && r.fence(lines[i]) == Some(f)
    requires prose == lines[start..i]
    ensures i < next && Splitting(r, lines, first, next, next, done, chunks)
  {
    var flushed := FlushProse(lines, start, i, prose);
    var fenced;
    fenced, next := FenceChunks(r, lines, i, f);
    done := FenceStep(r, lines, start, i, done0, f);
    chunks := chunks0 + flushed + fenced;
  }

  /** Everything behind the front matter: prose is buffered until a fence or the end of the file. */
  method SplitBody(r: Recogniser, lines: seq<string>, first: nat) returns (chunks: seq<Chunk>)
    requires first <= |lines|
    ensures var blocks := BlocksFrom(r, lines, first, first); Inside(blocks, |lines|) && chunks == Chunks(lines, blocks)
  {
    chunks := [];
    var i, prose: seq<string> := first, [];
    ghost var start: nat, done: seq<Block> := first, [];
    while i < |lines|
      invariant Splitting(r, lines, first, start, i, done, chunks) && prose == lines[start..i]
      decreases |lines| - i
    {
      var f := r.fence(lines[i]);
      if f.Some? {
        chunks, i, done := SplitFence(r, lines, first, start, i, f.value, prose, chunks, done);
        prose, start := [], i;
      } else {
        SliceNext(lines, start, i);
        prose := prose + [lines[i]];
        i := i + 1;
      }
    }
    var flushed := FlushProse(lines, start, i, prose);
    ChunksAppend(lines, done, ProseBlock(start, i));
    chunks := chunks + flushed;
  }

  /** Lines of front matter. */
  method ScanMatter(r: Recogniser, lines: seq<string>) returns (first: nat)
    requires lines != []
    ensures first == MatterSize(r, lines)
  {
    first := 0;
    if r.dashes(lines[0]) {
      var j := 1;
      while j < |lines| && !r.dashes(lines[j])
        invariant j <= |lines| && MatterEnd(r, lines, 1) == MatterEnd(r, lines, j)
      {
        j := j + 1;
      }
      if j < |lines| {
        first := j + 1;
      }
    }
  }

  /** The whole splitter. */
  method SplitTopLevel(r: Recogniser, src: string) returns (chunks: seq<Chunk>)
    ensures Inside(Blocks(r, Lines(src)), |Lines(src)|) && chunks == Chunks(Lines(src), Blocks(r, Lines(src)))
    ensures Join(Texts(chunks)) == src
  {
    var lines := Lines(src);
    var first := ScanMatter(r, lines);
    chunks := SplitBody(r, lines, first);
    if first > 0 {
      ChunksAppend(lines, [Block(FrontMatter, 0, first)], BlocksFrom(r, lines, first, first));
      chunks := [Chunk(FrontMatter, Join(lines[0..first]))] + chunks;
    }
    Lossless(r, src);
  }

  // ---- What counts as prose ----

  /** What a reader of the file knows in front of a line: whether a fence is open, and which. */
  datatype State = Outside | Within(fence: Fence)

  function Scan(r: Recogniser, state: State, line: string): State {
    match state
    case Outside => if r.fence(line).Some? then Within(r.fence(line).value) else Outside
    case Within(f) => if Closes(r, line, f) then Outside else state
  }

  /** The state in front of line i, read line by line from line `first` on. */
  function StateAt(r: Recogniser, lines: seq<string>, first: nat, i: nat): State
    requires first <= i <= |lines|
  {
    if i == first then Outside else Scan(r, StateAt(r, lines, first, i - 1), lines[i - 1])
  }

  /** Prose is a line outside every fence, or inside a fence whose body is prose; marker lines belong to their fence. */
  function KindIn(r: Recogniser, state: State, line: string): Kind {
    match state
    case Outside => if r.fence(line).Some? then Fenced else Prose
    case Within(f) => if r.proseBody(f.info) && !Closes(r, line, f) then Prose else Fenced
  }

  function LineKind(r: Recogniser, lines: seq<string>, x: nat): Kind
    requires x < |lines|
  {
    var first := MatterSize(r, lines);
    if x < first then FrontMatter else KindIn(r, StateAt(r, lines, first, x), lines[x])
  }

  /**
   A fenced chunk is a whole block from its opening to its first closing line, or the opening or the
   closing line of a directive.
   */
  ghost predicate IsFenced(r: Recogniser, lines: seq<string>, first: nat, lo: nat, hi: nat)
    requires first <= lo < hi <= |lines|
  {
    match StateAt(r, lines, first, lo)
    case Outside =>
      && r.fence(lines[lo]).Some?
      && var f := r.fence(lines[lo]).value;
         hi == if r.proseBody(f.info) then lo + 1 else After(CloseAt(r, lines, lo + 1, f), |lines|)
    case Within(f) => r.proseBody(f.info) && Closes(r, lines[lo], f) && hi == lo + 1
  }

  /** Every line of the block is of the block's kind. */
  ghost predicate Classified(r: Recogniser, lines: seq<string>, first: nat, b: Block) {
    && first <= b.lo < b.hi <= |lines|
    && (forall x :: b.lo <= x < b.hi ==> KindIn(r, StateAt(r, lines, first, x), lines[x]) == b.kind)
    && (b.kind.Fenced? ==> IsFenced(r, lines, first, b.lo, b.hi))
  }

  lemma {:induction false} NoCloseBefore(r: Recogniser, lines: seq<string>, i: nat, f: Fence)
    requires i <= |lines|
    ensures forall x :: i <= x < CloseAt(r, lines, i, f) ==> !Closes(r, lines[x], f)
    ensures CloseAt(r, lines, i, f) < |lines| ==> Closes(r, lines[CloseAt(r, lines, i, f)], f)
    decreases |lines| - i
  {
    if i < |lines| && !Closes(r, lines[i], f) {
      NoCloseBefore(r, lines, i + 1, f);
    }
  }

  /** From its opening line to its closing line the fence is open. */
  lemma {:induction false} OpenUntilClose(r: Recogniser, lines: seq<string>, first: nat, i: nat, f: Fence, x: nat)
    requires first <= i < |lines| && StateAt(r, lines, first, i).Outside? && r.fence(lines[i]) == Some(f)
    requires i < x <= CloseAt(r, lines, i + 1, f)
    ensures StateAt(r, lines, first, x) == Within(f)
    decreases x
  {
    if i + 1 < x {
      OpenUntilClose(r, lines, first, i, f, x - 1);
      NoCloseBefore(r, lines, i + 1, f);
    }
  }

  lemma FenceBlockKinds(r: Recogniser, i: nat, c: nat, n: nat, f: Fence, b: Block)
    requires i < c <= n && b in FenceBlocks(r, i, c, n, f)
    ensures if r.proseBody(f.info) then
        b == Block(Fenced, i, i + 1) || (i + 1 < c && b == Block(Prose, i + 1, c)) || (c < n && b == Block(Fenced, c, c + 1))
      else b == Block(Fenced, i, After(c, n))
  {
  }

  lemma FenceClassified(r: Recogniser, lines: seq<string>, first: nat, i: nat, f: Fence, b: Block)
    requires first <= i < |lines| && StateAt(r, lines, first, i).Outside? && r.fence(lines[i]) == Some(f)
    requires b in FenceBlocks(r, i, CloseAt(r, lines, i + 1, f), |lines|, f)
    ensures Classified(r, lines, first, b)
  {
    var c := CloseAt(r, lines, i + 1, f);
    NoCloseBefore(r, lines, i + 1, f);
    FenceBlockKinds(r, i, c, |lines|, f, b);
    forall x | b.lo <= x < b.hi
      ensures KindIn(r, StateAt(r, lines, first, x), lines[x]) == b.kind
    {
      if i < x {
        OpenUntilClose(r, lines, first, i, f, x);
      }
    }
    if b.kind.Fenced? {
      FencedIs(r, lines, first, i, f, c, b);
    }
  }

  lemma FencedIs(r: Recogniser, lines: seq<string>, first: nat, i: nat, f: Fence, c: nat, b: Block)
    requires first <= i < |lines| && StateAt(r, lines, first, i).Outside? && r.fence(lines[i]) == Some(f)
    requires c == CloseAt(r, lines, i + 1, f) && b.kind.Fenced? && b in FenceBlocks(r, i, c, |lines|, f)
    ensures first <= b.lo < b.hi <= |lines| && IsFenced(r, lines, first, b.lo, b.hi)
  {
    FenceBlockKinds(r, i, c, |lines|, f, b);
    if b.lo == c {
      OpenUntilClose(r, lines, first, i, f, c);
      NoCloseBefore(r, lines, i + 1, f);
    }
  }

  /** Every block after the front matter holds lines of its own kind. */
  lemma {:induction false} BlocksClassified(r: Recogniser, lines: seq<string>, first: nat, start: nat, i: nat, b: Block)
    requires first <= start <= i <= |lines| && b in BlocksFrom(r, lines, start, i)
    requires i < |lines| ==> StateAt(r, lines, first, i).Outside?
    requires forall x :: start <= x < i ==> StateAt(r, lines, first, x).Outside? && r.fence(lines[x]).None?
    ensures Classified(r, lines, first, b)
    decreases |lines| - i
  {
    if i < |lines| {
      match r.fence(lines[i])
      case None => BlocksClassified(r, lines, first, start, i + 1, b);
      case Some(f) =>
        var c := CloseAt(r, lines, i + 1, f);
        var next := After(c, |lines|);
        if b in FenceBlocks(r, i, c, |lines|, f) {
          FenceClassified(r, lines, first, i, f, b);
        } else if b in BlocksFrom(r, lines, next, next) {
          OutsideBehind(r, lines, first, i, f);
          BlocksClassified(r, lines, first, next, next, b);
        }
    }
  }

  /** Behind a closing line no fence is open. */
  lemma OutsideBehind(r: Recogniser, lines: seq<string>, first: nat, i: nat, f: Fence)
    requires first <= i < |lines| && StateAt(r, lines, first, i).Outside? && r.fence(lines[i]) == Some(f)
    ensures var next := After(CloseAt(r, lines, i + 1, f), |lines|);
            next < |lines| ==> StateAt(r, lines, first, next).Outside?
  {
    OpenUntilClose(r, lines, first, i, f, CloseAt(r, lines, i + 1, f));
    NoCloseBefore(r, lines, i + 1, f);
  }

  /** Each line of each block is of the block's kind. */
  lemma BlockKinds(r: Recogniser, lines: seq<string>, b: Block, x: nat)
    requires lines != [] && b in Blocks(r, lines) && b.lo <= x < b.hi
    ensures x < |lines| && LineKind(r, lines, x) == b.kind
  {
    var first := MatterSize(r, lines);
    if b in BlocksFrom(r, lines, first, first) {
      BlocksClassified(r, lines, first, first, first, b);
    }
  }

  lemma {:induction false} TilesCover(blocks: seq<Block>, lo: nat, hi: nat, x: nat) returns (b: Block)
    requires Tiles(blocks, lo, hi) && lo <= x < hi
    ensures b in blocks && b.lo <= x < b.hi
  {
    if x < blocks[0].hi {
      b := blocks[0];
    } else {
      b := TilesCover(blocks[1..], blocks[0].hi, hi, x);
    }
  }

  ghost predicate InProse(blocks: seq<Block>, x: nat) {
    exists b :: b in blocks && b.kind.Prose? && b.lo <= x < b.hi
  }

  /**
   A line is handed to the rewriter exactly when it is neither front matter nor a marker line nor inside
   a fence, unless that fence is a directive with a prose body.
   */
  lemma ProseLines(r: Recogniser, lines: seq<string>, x: nat)
    requires x < |lines|
    ensures InProse(Blocks(r, lines), x) <==> LineKind(r, lines, x).Prose?
  {
    AllTile(r, lines);
    var b := TilesCover(Blocks(r, lines), 0, |lines|, x);
    BlockKinds(r, lines, b, x);
    if p :| p in Blocks(r, lines) && p.kind.Prose? && p.lo <= x < p.hi {
      BlockKinds(r, lines, p, x);
    }
  }

  /** No prose block ends where another begins: each is a maximal run of prose lines. */
  ghost predicate Separated(blocks: seq<Block>) {
    forall k :: 0 <= k < |blocks| - 1 ==> !(blocks[k].kind.Prose? && blocks[k + 1].kind.Prose?)
  }

  lemma SeparatedAppend(a: seq<Block>, b: seq<Block>)
    requires Separated(a) && Separated(b)
    requires a != [] && b != [] ==> !(a[|a| - 1].kind.Prose? && b[0].kind.Prose?)
    ensures Separated(a + b)
  {
  }

  lemma {:induction false} BlocksSeparated(r: Recogniser, lines: seq<string>, start: nat, i: nat)
    requires start <= i <= |lines|
    ensures Separated(BlocksFrom(r, lines, start, i))
    decreases |lines| - i
  {
    if i < |lines| {
      match r.fence(lines[i])
      case None => BlocksSeparated(r, lines, start, i + 1);
      case Some(f) =>
        var c := CloseAt(r, lines, i + 1, f);
        var next := After(c, |lines|);
        var fence, rest := FenceBlocks(r, i, c, |lines|, f), BlocksFrom(r, lines, next, next);
        BlocksSeparated(r, lines, next, next);
        SeparatedAppend(ProseBlock(start, i), fence);
        SeparatedAppend(ProseBlock(start, i) + fence, rest);
    }
  }

  lemma ProseIsMaximal(r: Recogniser, lines: seq<string>)
    requires lines != []
    ensures Separated(Blocks(r, lines))
  {
    var first := MatterSize(r, lines);
    BlocksSeparated(r, lines, first, first);
  }

  // ---- Rebuilding ----

  function Rewritten(c: Chunk, f: string -> string): string {
    if c.kind.Prose? then f(c.text) else c.text
  }

  /** The rebuilt file: prose rewritten, all else as it was. */
  function Rebuild(chunks: seq<Chunk>, f: string -> string): string {
    Join(Parts(chunks, f))
  }

  /** A rewriter that leaves the prose chunks alone leaves the file alone. */
  lemma RebuildIdentity(r: Recogniser, src: string, f: string -> string)
    requires var lines := Lines(src); Inside(Blocks(r, lines), |lines|)
    requires forall c :: c in Chunks(Lines(src), Blocks(r, Lines(src))) && c.kind.Prose? ==> f(c.text) == c.text
    ensures Rebuild(Chunks(Lines(src), Blocks(r, Lines(src))), f) == src
  {
    var chunks := Chunks(Lines(src), Blocks(r, Lines(src)));
    Lossless(r, src);
    assert Parts(chunks, f) == Texts(chunks);
  }

  /** The parts before and after position k, each with the newline that separates it from the part at k. */
  function Before(parts: seq<string>, k: nat): string
    requires k < |parts|
  {
    if k == 0 then "" else Join(parts[..k]) + "\n"
  }

  function Behind(parts: seq<string>, k: nat): string
    requires k < |parts|
  {
    if k + 1 == |parts| then "" else "\n" + Join(parts[k + 1..])
  }

  lemma JoinFrom(parts: seq<string>, k: nat)
    requires k < |parts|
    ensures Join(parts[k..]) == parts[k] + Behind(parts, k)
  {
    assert parts[k..][1..] == parts[k + 1..];
    assert parts[k] + "\n" + Join(parts[k + 1..]) == parts[k] + ("\n" + Join(parts[k + 1..]));
  }

  lemma JoinAround(parts: seq<string>, k: nat)
    requires k < |parts|
    ensures Join(parts) == Before(parts, k) + parts[k] + Behind(parts, k)
  {
    JoinFrom(parts, k);
    Around(Before(parts, k), parts[k], Behind(parts, k), Join(parts[k..]));
    if 0 < k {
      assert parts == parts[..k] + parts[k..];
      JoinAppend(parts[..k], parts[k..]);
    } else {
      assert parts[k..] == parts;
    }
  }

  lemma Around(a: string, b: string, c: string, d: string)
    requires d == b + c
    ensures a + d == a + b + c
  {
  }

  function Parts(chunks: seq<Chunk>, f: string -> string): (parts: seq<string>)
    ensures |parts| == |chunks|
  {
    seq(|chunks|, k requires 0 <= k < |chunks| => Rewritten(chunks[k], f))
  }

  /**
   The rebuilt file differs from the source only inside prose chunks: around every other chunk both
   read the same text, and everything before and behind it is what the chunks there give.
   */
  lemma RebuildKeeps(r: Recogniser, src: string, f: string -> string, k: nat)
    requires Inside(Blocks(r, Lines(src)), |Lines(src)|)
    requires k < |Blocks(r, Lines(src))| && !Blocks(r, Lines(src))[k].kind.Prose?
    ensures var chunks := Chunks(Lines(src), Blocks(r, Lines(src)));
            && src == Before(Texts(chunks), k) + chunks[k].text + Behind(Texts(chunks), k)
            && Rebuild(chunks, f) == Before(Parts(chunks, f), k) + chunks[k].text + Behind(Parts(chunks, f), k)
  {
    var chunks := Chunks(Lines(src), Blocks(r, Lines(src)));
    Lossless(r, src);
    JoinAround(Texts(chunks), k);
    JoinAround(Parts(chunks, f), k);
  }
}
