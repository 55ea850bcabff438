/**
 The memory agent: a long context is read in chunks, each turn may replace the memory, and a final
 turn answers from it. What the model responds is arbitrary.
 */
module MemAgent {
  import opened Common
  import opened Division
  import opened Groups

  datatype Config = Config(chunkTokens: nat, maxChunks: nat, allowTruncation: bool, noMemory: string)

  datatype Turn = Memory(response: string, chunkIndex: nat) | Final(response: string)

  /** The model: a memory turn sees its number, the memory and a chunk; the final turn sees the memory. */
  datatype Model<!T> = Model(remember: (nat, string, seq<T>) -> string, answer: string -> string)

  /** Everything a run sent and received. */
  datatype Run<T> = Run(turns: seq<Turn>, chunks: seq<seq<T>>, memory: string, truncated: bool)

  // ---- Memory ----

  /** The last non-empty response, or what there was before. */
  function Remembered(responses: seq<string>, noMemory: string): string {
    if responses == [] then noMemory
    else
      var last := responses[|responses| - 1];
      if last != "" then last else Remembered(responses[..|responses| - 1], noMemory)
  }

  function Responses(turns: seq<Turn>): seq<string> {
    seq(|turns|, k requires 0 <= k < |turns| => turns[k].response)
  }

  /** The memory is the last response worth keeping. */
  lemma {:induction false} LastKept(responses: seq<string>, noMemory: string, k: nat)
    requires k < |responses| && responses[k] != "" && forall j :: k < j < |responses| ==> responses[j] == ""
    ensures Remembered(responses, noMemory) == responses[k]
  {
    if k < |responses| - 1 {
      LastKept(responses[..|responses| - 1], noMemory, k);
    }
  }

  /** Without one it is still the no-memory text. */
  lemma {:induction false} NothingKept(responses: seq<string>, noMemory: string)
    requires forall j :: 0 <= j < |responses| ==> responses[j] == ""
    ensures Remembered(responses, noMemory) == noMemory
  {
    if responses != [] {
      NothingKept(responses[..|responses| - 1], noMemory);
    }
  }

  /** Turn k read chunk k with the memory of the turns before it. */
  ghost predicate Follows<T>(model: Model<T>, noMemory: string, chunks: seq<seq<T>>, turns: seq<Turn>) {
    && |turns| == |chunks|
    && forall k :: 0 <= k < |turns| ==>
         turns[k] == Memory(model.remember(k, Remembered(Responses(turns[..k]), noMemory), chunks[k]), k)
  }

  /** Full chunks, and a last one that may be shorter but is not empty. */
  ghost predicate Cut<T>(chunks: seq<seq<T>>, size: nat) {
    && (forall k :: 0 <= k < |chunks| - 1 ==> |chunks[k]| == size)
    && (chunks != [] ==> 0 < |chunks[|chunks| - 1]| <= size)
  }

  lemma ResponsesAppend(turns: seq<Turn>, turn: Turn)
    ensures Responses(turns + [turn]) == Responses(turns) + [turn.response]
    ensures Responses(turns + [turn])[..|turns|] == Responses(turns)
  {
  }

  lemma FollowsStep<T>(model: Model<T>, noMemory: string, chunks: seq<seq<T>>, turns: seq<Turn>, chunk: seq<T>)
    requires Follows(model, noMemory, chunks, turns)
    ensures var response := model.remember(|turns|, Remembered(Responses(turns), noMemory), chunk);
      && Follows(model, noMemory, chunks + [chunk], turns + [Memory(response, |turns|)])
      && Remembered(Responses(turns + [Memory(response, |turns|)]), noMemory) ==
         if response != "" then response else Remembered(Responses(turns), noMemory)
  {
    var n := |turns|;
    var response := model.remember(n, Remembered(Responses(turns), noMemory), chunk);
    var turns1, chunks1 := turns + [Memory(response, n)], chunks + [chunk];
    ResponsesAppend(turns, Memory(response, n));
    forall k | 0 <= k < n + 1
      ensures turns1[k] == Memory(model.remember(k, Remembered(Responses(turns1[..k]), noMemory), chunks1[k]), k)
    {
      if k < n {
        assert turns1[..k] == turns[..k];
      } else {
        assert turns1[..n] == turns;
      }
    }
  }

  // ---- The loop ----

  /** The tokens a run reads: all of them, or as many as the chunks can hold. */
  function Capacity(cfg: Config): nat {
    Times(cfg.maxChunks, cfg.chunkTokens)
  }

  /** What the loop has done when it is about to read from `start`. */
  ghost predicate ReadUpTo<T>(ids: seq<T>, size: nat, start: nat, chunks: seq<seq<T>>) {
    && Flatten(chunks) == ids[..Smaller(start, |ids|)] && start == Times(|chunks|, size)
    && (start <= |ids| ==> Uniform(chunks, size)) && Cut(chunks, size) && start < |ids| + size
  }

  lemma ReadStep<T>(ids: seq<T>, size: nat, start: nat, chunks: seq<seq<T>>, chunk: seq<T>)
    requires 0 < size && ReadUpTo(ids, size, start, chunks) && start < |ids|
    requires chunk == ids[start..Smaller(start + size, |ids|)]
    ensures ReadUpTo(ids, size, start + size, chunks + [chunk])
  {
    assert (chunks + [chunk])[..|chunks|] == chunks;
    assert Flatten(chunks + [chunk]) == ids[..start] + chunk;
  }

  lemma ReadAll<T>(ids: seq<T>, size: nat, start: nat, chunks: seq<seq<T>>)
    requires 0 < size && ReadUpTo(ids, size, start, chunks) && |ids| <= start
    ensures Flatten(chunks) == ids && Cut(chunks, size) && |chunks| == Ceiling(|ids|, size)
  {
    assert ids[..|ids|] == ids;
    CeilingUnique(|ids|, size, |chunks|);
  }

  /** The chunk loop: each non-empty response becomes the memory. */
  method ReadContext<T>(size: nat, noMemory: string, ids: seq<T>, model: Model<T>)
    returns (turns: seq<Turn>, chunks: seq<seq<T>>, memory: string)
    requires 1 <= size
    ensures Flatten(chunks) == ids && Cut(chunks, size) && |chunks| == Ceiling(|ids|, size)
    ensures Follows(model, noMemory, chunks, turns) && memory == Remembered(Responses(turns), noMemory)
  {
    memory, turns, chunks := noMemory, [], [];
    var start := 0;
    while start < |ids|
      invariant Reading(size, noMemory, ids, model, start, turns, chunks, memory)
    {
      turns, chunks, memory := ReadChunk(size, noMemory, ids, model, start, turns, chunks, memory);
      start := start + size;
    }
    ReadAll(ids, size, start, chunks);
  }

  /** One turn: read a chunk, and keep the response unless it is empty. */
  method ReadChunk<T>(size: nat, ghost noMemory: string, ids: seq<T>, model: Model<T>, start: nat,
                      turns0: seq<Turn>, chunks0: seq<seq<T>>, memory0: string)
    returns (turns: seq<Turn>, chunks: seq<seq<T>>, memory: string)
    requires 0 < size && start < |ids| && Reading(size, noMemory, ids, model, start, turns0, chunks0, memory0)
    ensures Reading(size, noMemory, ids, model, start + size, turns, chunks, memory)
  {
    var chunk := ids[start..Smaller(start + size, |ids|)];
    var response := model.remember(|turns0|, memory0, chunk);
    ReadOn(size, noMemory, ids, model, start, turns0, chunks0, memory0, chunk, response);
    memory := if response != "" then response else memory0;
    turns, chunks := turns0 + [Memory(response, |turns0|)], chunks0 + [chunk];
  }

  /** The loop is about to read from `start`, with these turns behind it and this memory. */
  ghost predicate Reading<T>(size: nat, noMemory: string, ids: seq<T>, model: Model<T>, start: nat,
                             turns: seq<Turn>, chunks: seq<seq<T>>, memory: string) {
    && ReadUpTo(ids, size, start, chunks) && Follows(model, noMemory, chunks, turns)
    && memory == Remembered(Responses(turns), noMemory)
  }

  lemma ReadOn<T>(size: nat, noMemory: string, ids: seq<T>, model: Model<T>, start: nat,
                  turns: seq<Turn>, chunks: seq<seq<T>>, memory: string, chunk: seq<T>, response: string)
    requires 0 < size && start < |ids| && Reading(size, noMemory, ids, model, start, turns, chunks, memory)
    requires chunk == ids[start..Smaller(start + size, |ids|)] && response == model.remember(|turns|, memory, chunk)
    ensures Reading(size, noMemory, ids, model, start + size, turns + [Memory(response, |turns|)], chunks + [chunk],
                    if response != "" then response else memory)
  {
    ReadStep(ids, size, start, chunks, chunk);
    FollowsStep(model, noMemory, chunks, turns, chunk);
  }

  /** What a run on `ids` amounts to. */
  ghost predicate Ran<T>(cfg: Config, model: Model<T>, ids: seq<T>, run: Run<T>)
    requires 1 <= cfg.chunkTokens
  {
    var n := |run.chunks|;
    && Flatten(run.chunks) == ids && Cut(run.chunks, cfg.chunkTokens)
    && |run.turns| == n + 1 && n == Ceiling(|ids|, cfg.chunkTokens) <= cfg.maxChunks
    && Follows(model, cfg.noMemory, run.chunks, run.turns[..n])
    && run.memory == Remembered(Responses(run.turns[..n]), cfg.noMemory)
    && run.turns[n] == Final(model.answer(run.memory))
  }

  /**
   Read the context chunk by chunk, then answer. A context that does not fit raises unless it may be
   truncated.
   */
  method RunAgent<T>(cfg: Config, context: seq<T>, model: Model<T>) returns (r: Result<Run<T>>)
    requires 1 <= cfg.chunkTokens
    ensures r.Raised? <==> |context| > Capacity(cfg) && !cfg.allowTruncation
    ensures r.Ok? ==> r.value.truncated == (|context| > Capacity(cfg))
    ensures r.Ok? ==> Ran(cfg, model, context[..Smaller(|context|, Capacity(cfg))], r.value)
  {
    var truncated := |context| > Capacity(cfg);
    if truncated && !cfg.allowTruncation {
      return Raised;
    }
    var ids := context[..Smaller(|context|, Capacity(cfg))];
    var turns, chunks, memory := ReadContext(cfg.chunkTokens, cfg.noMemory, ids, model);
    CeilingAtMost(|ids|, cfg.chunkTokens, cfg.maxChunks);
    var all := turns + [Final(model.answer(memory))];
    assert all[..|chunks|] == turns;
    r := Ok(Run(all, chunks, memory, truncated));
  }

  /** With room for the final turn, a run never exceeds the turns of its loop. */
  lemma TurnsFit(cfg: Config, maxTurns: int, tokens: nat)
    requires 1 <= cfg.chunkTokens && maxTurns >= cfg.maxChunks + 1 && tokens <= Capacity(cfg)
    ensures Ceiling(tokens, cfg.chunkTokens) + 1 <= maxTurns
  {
    CeilingAtMost(tokens, cfg.chunkTokens, cfg.maxChunks);
  }
}
