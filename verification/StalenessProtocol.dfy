/**
 Runs of the Reserve / Occupy / Consume protocol: what every run keeps, and where the code falls
 short of its documented guarantees.
 */
module StalenessProtocol {
  import opened Common
  import opened EntryInfo
  import opened StalenessBuffer
  import opened StalenessInventory
  import opened StalenessOccupy

  // ---- Reserve ----

  lemma CandidatesMeaning(inv: Inventory, low: int, high: int, b: nat)
    requires Inv(inv)
    ensures b in Candidates(inv, low, high) <==>
      b in inv.buffers && HasEmpty(inv.buffers[b]) && low <= b <= high && b !in inv.marked
  {
    if b in inv.buffers {
      RoomMeansCapacity(inv, b);
    }
  }

  /** No unmarked buffer of (low, high] has room. */
  ghost predicate FullAbove(inv: Inventory, low: int, high: int) {
    forall b :: b in inv.buffers && low < b <= high && b !in inv.marked ==> !HasEmpty(inv.buffers[b])
  }

  /** The largest candidate is the latest admissible buffer with room. */
  lemma LatestCandidate(inv: Inventory, low: int, high: int)
    requires Inv(inv) && Candidates(inv, low, high) != {}
    ensures var b := MaxOf(Candidates(inv, low, high));
            && b in inv.buffers && HasEmpty(inv.buffers[b]) && low <= b <= high && b !in inv.marked
            && FullAbove(inv, b, high)
  {
    var b := MaxOf(Candidates(inv, low, high));
    CandidatesMeaning(inv, low, high, b);
    forall y: nat | y in inv.buffers && b < y <= high && y !in inv.marked
      ensures !HasEmpty(inv.buffers[y])
    {
      CandidatesMeaning(inv, low, high, y);
    }
  }

  /** A nonempty candidate set means a reservation in its latest member. */
  lemma GrantOutcome(inv: Inventory, info: Info, low: int, high: int)
    requires Inv(inv) && Candidates(inv, low, high) != {}
    ensures var b := MaxOf(Candidates(inv, low, high)); var e := LastNonReserved(inv.buffers[b]);
            && In(inv, b, e)
            && ReserveIn(inv, Candidates(inv, low, high), info) == (Place(inv, b, e, Reserved(info)), Granted(b, e))
  {
    LatestCandidate(inv, low, high);
    RoomAtBack(inv.buffers[MaxOf(Candidates(inv, low, high))], inv.cfg.ready);
  }

  /** The window's latest buffer with room, if there is one. */
  lemma ReserveInOutcome(inv: Inventory, info: Info, low: int, high: int)
    requires Inv(inv)
    ensures var g := ReserveIn(inv, Candidates(inv, low, high), info).1;
            && !g.Failed? && (g.Granted? <==> Candidates(inv, low, high) != {})
            && (g.Granted? ==> low <= g.buffer <= high && FullAbove(inv, g.buffer, high))
  {
    if Candidates(inv, low, high) != {} {
      GrantOutcome(inv, info, low, high);
      LatestCandidate(inv, low, high);
    }
  }

  lemma NewPromptPath(inv: Inventory, prompt: nat, request: int, version: nat, inst: int)
    requires inv.cfg.ready <= inv.cfg.entries && Fits(inv)
    requires prompt !in inv.tracker && version + inv.cfg.staleness != 0
    ensures var high := version + inv.cfg.staleness;
            ReserveData(inv, prompt, request, version, inst, high) ==
            ReserveIn(Ensure(inv, high), Candidates(Ensure(inv, high), version, high), NewInfo(prompt, request, version, inst))
  {
  }

  /**
   With a nonzero buffer bound, a new prompt is granted a slot exactly when the admission check
   says so; it is then reserved in the latest admissible buffer with room.
   */
  lemma ReserveAgreesWithCheck(inv: Inventory, prompt: nat, request: int, version: nat, inst: int)
    requires Inv(inv) && prompt !in inv.tracker && version + inv.cfg.staleness != 0
    ensures var g := ReserveData(inv, prompt, request, version, inst, version + inv.cfg.staleness).1;
            && !g.Failed? && (g.Granted? <==> CanReserve(inv, prompt, version))
            && (g.Granted? ==> version <= g.buffer <= version + inv.cfg.staleness
                               && FullAbove(Ensure(inv, version + inv.cfg.staleness), g.buffer, version + inv.cfg.staleness))
  {
    var high := version + inv.cfg.staleness;
    EnsureKeepsInv(inv, high);
    NewPromptPath(inv, prompt, request, version, inst);
    ReserveInOutcome(Ensure(inv, high), NewInfo(prompt, request, version, inst), version, high);
  }

  lemma ReserveInKeepsInv(inv: Inventory, info: Info, low: int, high: int)
    requires Inv(inv) && info.prompt !in inv.tracker
    requires forall b: nat :: low <= b <= high ==> Admissible(inv, b, info)
    ensures Inv(ReserveIn(inv, Candidates(inv, low, high), info).0)
  {
    if Candidates(inv, low, high) != {} {
      GrantOutcome(inv, info, low, high);
      LatestCandidate(inv, low, high);
      ReservePlaceKeepsInv(inv, MaxOf(Candidates(inv, low, high)), info);
    }
  }

  lemma ReserveKeepsInv(inv: Inventory, prompt: nat, request: int, version: nat, inst: int)
    requires Inv(inv) && prompt !in inv.tracker && version + inv.cfg.staleness != 0 && version <= inv.version
    ensures Inv(ReserveData(inv, prompt, request, version, inst, version + inv.cfg.staleness).0)
  {
    var high := version + inv.cfg.staleness;
    EnsureKeepsInv(inv, high);
    ReserveInKeepsInv(Ensure(inv, high), NewInfo(prompt, request, version, inst), version, high);
    NewPromptPath(inv, prompt, request, version, inst);
  }

  /**
   Bound 0 is taken for "no bound": the call fails unless exactly one buffer has room, and then
   takes that one, whichever it is.
   */
  lemma ReserveAtBoundZero(inv: Inventory, prompt: nat, request: int, inst: int, b: nat)
    requires Inv(inv) && prompt !in inv.tracker && inv.cfg.staleness == 0
    ensures WithCapacity(Ensure(inv, 0)) == {b} ==>
      && ReserveData(inv, prompt, request, 0, inst, 0).1.Granted?
      && ReserveData(inv, prompt, request, 0, inst, 0).1.buffer == b
      && (Inv(ReserveData(inv, prompt, request, 0, inst, 0).0) <==> b == 0 && 0 !in inv.marked)
    ensures |WithCapacity(Ensure(inv, 0))| != 1 ==> ReserveData(inv, prompt, request, 0, inst, 0).1.Failed?
  {
    var inv0 := Ensure(inv, 0);
    EnsureKeepsInv(inv, 0);
    if WithCapacity(inv0) == {b} {
      assert b in WithCapacity(inv0);
      OnlyRoom(inv0, b, NewInfo(prompt, request, 0, inst));
      GrantedOnly(inv, NewInfo(prompt, request, 0, inst), inv0, b);
    }
  }

  lemma GrantedOnly(inv: Inventory, info: Info, inv0: Inventory, b: nat)
    requires inv.cfg.ready <= inv.cfg.entries && Fits(inv) && inv0 == Ensure(inv, 0) && Fits(inv0) && WithCapacity(inv0) == {b}
    requires In(inv0, b, LastNonReserved(inv0.buffers[b])) && inv0.buffers[b][LastNonReserved(inv0.buffers[b])].Empty?
    ensures ReserveNew(inv, info, 0) ==
      (Place(inv0, b, LastNonReserved(inv0.buffers[b]), Reserved(info)), Granted(b, LastNonReserved(inv0.buffers[b])))
  {
    assert MaxOf({b}) == b;
  }

  /** Reserving in the one buffer that has room keeps the invariant exactly when it is an unmarked buffer 0. */
  lemma OnlyRoom(inv: Inventory, b: nat, info: Info)
    requires Inv(inv) && inv.cfg.staleness == 0 && b in WithCapacity(inv)
    requires info.prompt !in inv.tracker && Recorded(info) && info.versions == One(0)
    ensures var e := LastNonReserved(inv.buffers[b]);
            && In(inv, b, e) && inv.buffers[b][e].Empty?
            && (Inv(Place(inv, b, e, Reserved(info))) <==> b == 0 && 0 !in inv.marked)
  {
    RoomMeansCapacity(inv, b);
    RoomAtBack(inv.buffers[b], inv.cfg.ready);
    if b == 0 && 0 !in inv.marked {
      ReservePlaceKeepsInv(inv, b, info);
    } else {
      OutOfPlace(inv, b, LastNonReserved(inv.buffers[b]), info);
    }
  }

  lemma OutOfPlace(inv: Inventory, b: nat, e: nat, info: Info)
    requires In(inv, b, e) && (b in inv.marked || Version(info) + inv.cfg.staleness < b)
    ensures !Inv(Place(inv, b, e, Reserved(info)))
  {
    var inv1 := Place(inv, b, e, Reserved(info));
    assert Used(inv1, b, e) && inv1.buffers[b][e] == Reserved(info);
    assert HasReserved(inv1.buffers[b]);
  }

  /** A further request of a reserved prompt keeps the bound exactly when the admission check holds for it. */
  lemma JoinKeepsInv(inv: Inventory, prompt: nat, request: int, version: nat, inst: int)
    requires Inv(inv) && prompt in inv.tracker && version <= inv.version
    requires request !in Requests(InfoOf(inv, prompt))
    ensures CanReserve(inv, prompt, version) <==>
      Inv(ReserveData(inv, prompt, request, version, inst, version + inv.cfg.staleness).0)
  {
    var b: nat, e: nat := BufferOf(inv, prompt), EntryOf(inv, prompt);
    var slot := inv.buffers[b][e];
    var info := Join(slot.info, request, version, inst, 1);
    assert Used(inv, b, e);
    JoinVersion(slot.info, request, version, inst, 1);
    if CanReserve(inv, prompt, version) {
      RelabelKeepsInv(inv, b, e, info);
    } else {
      var inv1 := Write(inv, b, e, Relabel(slot, info));
      assert Used(inv1, b, e) && inv1.buffers[b][e].info == info;
    }
  }

  // ---- The other steps ----

  predicate IsOccupied(inv: Inventory, prompt: nat) {
    && prompt in inv.tracker
    && In(inv, BufferOf(inv, prompt), EntryOf(inv, prompt))
    && inv.buffers[BufferOf(inv, prompt)][EntryOf(inv, prompt)].Occupied?
  }

  /** Drop an occupied group and close the gap from the end of the prefix. */
  function ClearOccupied(inv: Inventory, prompt: nat): Inventory
    requires IsOccupied(inv, prompt)
    requires EntryOf(inv, prompt) < FirstNonOccupied(inv.buffers[BufferOf(inv, prompt)])
  {
    var b, e := BufferOf(inv, prompt), EntryOf(inv, prompt);
    var last := FirstNonOccupied(inv.buffers[b]) - 1;
    var inv1 := Vacate(inv, b, e);
    if e < last then Relocate(inv1, b, last, b, e) else inv1
  }

  lemma DropSlots(inv: Inventory, prompt: nat)
    requires IsOccupied(inv, prompt)
    requires EntryOf(inv, prompt) < FirstNonOccupied(inv.buffers[BufferOf(inv, prompt)])
    ensures Rewritten(inv, ClearOccupied(inv, prompt),
                      inv.buffers[BufferOf(inv, prompt) := WithoutOccupied(inv.buffers[BufferOf(inv, prompt)], EntryOf(inv, prompt))])
  {
    var b: nat, e: nat := BufferOf(inv, prompt), EntryOf(inv, prompt);
    var es := inv.buffers[b];
    var last := FirstNonOccupied(es) - 1;
    if e < last {
      MoveWithinBuffer(Vacate(inv, b, e), b, last, e);
      assert es[e := Empty][last := Empty][e := es[last]] == WithoutOccupied(es, e);
    } else {
      assert es[e := Empty] == WithoutOccupied(es, e);
    }
  }

  lemma DropGroups(inv: Inventory, prompt: nat)
    requires Tracked(inv) && IsOccupied(inv, prompt)
    requires EntryOf(inv, prompt) < FirstNonOccupied(inv.buffers[BufferOf(inv, prompt)])
    ensures Tracked(ClearOccupied(inv, prompt)) && Groups(ClearOccupied(inv, prompt)) == Groups(inv) - {prompt}
  {
    var b: nat, e: nat := BufferOf(inv, prompt), EntryOf(inv, prompt);
    var last := FirstNonOccupied(inv.buffers[b]) - 1;
    VacateGroups(inv, b, e);
    if e < last {
      RelocateGroups(Vacate(inv, b, e), b, last, b, e);
    }
  }

  /** A finished group of an unmarked buffer that is not trained on yet. */
  predicate Droppable(inv: Inventory, prompt: nat) {
    IsOccupied(inv, prompt) && inv.version <= BufferOf(inv, prompt) && BufferOf(inv, prompt) !in inv.marked
  }

  /** Dropping a group of a batch that has not been trained on keeps the invariant. */
  lemma DropKeepsInv(inv: Inventory, prompt: nat)
    requires Inv(inv) && Droppable(inv, prompt)
    ensures EntryOf(inv, prompt) < FirstNonOccupied(inv.buffers[BufferOf(inv, prompt)])
    ensures Inv(ClearOccupied(inv, prompt)) && Groups(ClearOccupied(inv, prompt)) == Groups(inv) - {prompt}
  {
    var b: nat, e: nat := BufferOf(inv, prompt), EntryOf(inv, prompt);
    assert e < FirstNonOccupied(inv.buffers[b]);
    DropSlots(inv, prompt);
    DropGroups(inv, prompt);
    DropKeepsSound(inv, b, e, ClearOccupied(inv, prompt));
  }

  lemma DropKeepsSound(inv: Inventory, b: nat, e: nat, inv1: Inventory)
    requires Sound(inv) && In(inv, b, e) && e < FirstNonOccupied(inv.buffers[b])
    requires inv.version <= b && b !in inv.marked
    requires Rewritten(inv, inv1, inv.buffers[b := WithoutOccupied(inv.buffers[b], e)])
    ensures Sound(inv1)
  {
    var es := inv.buffers[b];
    DropKeepsShape(es, inv.cfg.ready, e);
    HeldAdmissible(inv, b);
    SwapKeepsSound(inv, b, WithoutOccupied(es, e), inv1);
  }

  /** Record that a request of a group now runs under this version. */
  function RetagRequest(inv: Inventory, prompt: nat, request: int, version: nat): Inventory
    requires prompt in inv.tracker && Used(inv, BufferOf(inv, prompt), EntryOf(inv, prompt))
    requires Recorded(InfoOf(inv, prompt))
    requires InfoOf(inv, prompt).requests.Many? ==> request in InfoOf(inv, prompt).requests.values
  {
    var b, e := BufferOf(inv, prompt), EntryOf(inv, prompt);
    Write(inv, b, e, Relabel(inv.buffers[b][e], Retag(InfoOf(inv, prompt), request, version)))
  }

  /**
   A retag keeps the invariant exactly when the group's buffer is within the staleness bound of the
   tag: the check the operation documents and does not make.
   */
  lemma RetagCondition(inv: Inventory, prompt: nat, request: int, version: nat)
    requires Inv(inv) && prompt in inv.tracker && version <= inv.version
    requires InfoOf(inv, prompt).requests.Many? ==> request in InfoOf(inv, prompt).requests.values
    ensures Recorded(InfoOf(inv, prompt))
    ensures Inv(RetagRequest(inv, prompt, request, version)) <==> BufferOf(inv, prompt) <= version + inv.cfg.staleness
  {
    var b: nat, e: nat := BufferOf(inv, prompt), EntryOf(inv, prompt);
    assert Used(inv, b, e);
    var info := Retag(InfoOf(inv, prompt), request, version);
    RetagVersion(InfoOf(inv, prompt), request, version);
    if b <= version + inv.cfg.staleness {
      RelabelKeepsInv(inv, b, e, info);
    } else {
      var inv1 := RetagRequest(inv, prompt, request, version);
      assert Used(inv1, b, e) && inv1.buffers[b][e].info == info;
    }
  }

  /** An occupied group the reserved path clears without harm: the last of an unmarked, unconsumed buffer's prefix. */
  predicate LastOccupied(inv: Inventory, prompt: nat) {
    Droppable(inv, prompt) && EntryOf(inv, prompt) == FirstNonOccupied(inv.buffers[BufferOf(inv, prompt)]) - 1
  }

  /** The reserved path only empties the slot of an occupied group. */
  lemma ClearOfOccupied(inv: Inventory, prompt: nat)
    requires Inv(inv) && IsOccupied(inv, prompt)
    ensures ClearReserved(inv, prompt) == Vacate(inv, BufferOf(inv, prompt), EntryOf(inv, prompt))
    ensures Tracked(ClearReserved(inv, prompt)) && Groups(ClearReserved(inv, prompt)) == Groups(inv) - {prompt}
  {
    var b: nat, e: nat := BufferOf(inv, prompt), EntryOf(inv, prompt);
    assert Used(inv, b, e);
    RemovalOfOccupied(inv.buffers[b], inv.cfg.ready, e);
    VacateGroups(inv, b, e);
  }

  /** What an emptied occupied slot says about the buffer it was in. */
  lemma EmptiedOccupied(inv: Inventory, b: nat, e: nat)
    requires Inv(inv) && In(inv, b, e) && inv.buffers[b][e].Occupied? && Inv(Vacate(inv, b, e))
    ensures e == FirstNonOccupied(inv.buffers[b]) - 1 && inv.version <= b && b !in inv.marked
  {
    var es := inv.buffers[b];
    var inv1 := Vacate(inv, b, e);
    RemovalOfOccupied(es, inv.cfg.ready, e);
    assert inv1.buffers[b] == es[e := Empty];
    PrefixLength(es[e := Empty], e);
  }

  /**
   The reserved path trusts its caller that the group is reserved. Clearing an occupied one keeps the
   invariant exactly when it is the last of the prefix of an unmarked buffer that is not trained on yet.
   */
  lemma ClearOccupiedCondition(inv: Inventory, prompt: nat)
    requires Inv(inv) && IsOccupied(inv, prompt)
    ensures Inv(ClearReserved(inv, prompt)) <==> LastOccupied(inv, prompt)
  {
    ClearOfOccupied(inv, prompt);
    if LastOccupied(inv, prompt) {
      DropKeepsInv(inv, prompt);
    } else if Inv(ClearReserved(inv, prompt)) {
      EmptiedOccupied(inv, BufferOf(inv, prompt), EntryOf(inv, prompt));
    }
  }

  /** A group that may be cleared through the reserved path. */
  predicate Clearable(inv: Inventory, prompt: nat) {
    IsReserved(inv, prompt) || LastOccupied(inv, prompt)
  }

  lemma ClearableKeepsInv(inv: Inventory, prompt: nat)
    requires Inv(inv) && Clearable(inv, prompt)
    ensures Inv(ClearReserved(inv, prompt)) && Groups(ClearReserved(inv, prompt)) == Groups(inv) - {prompt}
  {
    if IsReserved(inv, prompt) {
      ClearKeepsInv(inv, prompt);
    } else {
      ClearOccupiedCondition(inv, prompt);
      ClearOfOccupied(inv, prompt);
    }
  }

  /** The requests of a group that an abort leaves. */
  function Rest(info: Info, gone: set<int>): set<int> {
    set r | r in Requests(info) && r !in gone
  }

  /** An abort that leaves fewer than `need` requests of a group. */
  predicate Dissolves(inv: Inventory, prompt: nat, gone: set<int>, need: nat)
    requires prompt in inv.tracker ==> Used(inv, BufferOf(inv, prompt), EntryOf(inv, prompt))
  {
    prompt in inv.tracker && |Rest(InfoOf(inv, prompt), gone)| < need
  }

  /**
   Abort requests of one prompt. With fewer than `need` left the whole group is cleared; otherwise
   the group shrinks, unless its only request was never turned into a list, which raises.
   */
  function AbortRequests(inv: Inventory, prompt: nat, gone: set<int>, need: nat): Result<Inventory>
    requires prompt in inv.tracker ==>
      Used(inv, BufferOf(inv, prompt), EntryOf(inv, prompt)) && Recorded(InfoOf(inv, prompt))
  {
    if prompt !in inv.tracker then Ok(inv)
    else if Dissolves(inv, prompt, gone, need) then Ok(ClearReserved(inv, prompt))
    else if InfoOf(inv, prompt).requests.One? then Raised
    else Ok(Shrink(inv, prompt, gone))
  }

  function Shrink(inv: Inventory, prompt: nat, gone: set<int>): Inventory
    requires prompt in inv.tracker && Used(inv, BufferOf(inv, prompt), EntryOf(inv, prompt))
    requires Recorded(InfoOf(inv, prompt)) && InfoOf(inv, prompt).requests.Many?
  {
    var b, e := BufferOf(inv, prompt), EntryOf(inv, prompt);
    Write(inv, b, e, Relabel(inv.buffers[b][e], AbortSome(InfoOf(inv, prompt), gone)))
  }

  /** A group that keeps some request stays where it is, with a version at least as new. */
  lemma ShrinkKeepsInv(inv: Inventory, prompt: nat, gone: set<int>)
    requires Inv(inv) && prompt in inv.tracker
    requires InfoOf(inv, prompt).requests.Many? && exists r :: r in Rest(InfoOf(inv, prompt), gone)
    ensures Recorded(InfoOf(inv, prompt)) && Inv(Shrink(inv, prompt, gone))
    ensures Groups(Shrink(inv, prompt, gone)) ==
      Groups(inv)[prompt := Relabel(Groups(inv)[prompt], AbortSome(InfoOf(inv, prompt), gone))]
  {
    var b: nat, e: nat := BufferOf(inv, prompt), EntryOf(inv, prompt);
    assert Used(inv, b, e);
    var info := InfoOf(inv, prompt);
    var r :| r in Rest(info, gone);
    assert r in info.requests.values && r !in gone;
    AbortRecords(info, gone);
    RelabelKeepsInv(inv, b, e, AbortSome(info, gone));
    RelabelTracks(inv, b, e, AbortSome(info, gone));
  }

  /** Requests remain when at least one must. */
  lemma RestRemains(inv: Inventory, prompt: nat, gone: set<int>, need: nat)
    requires Inv(inv) && prompt in inv.tracker && 1 <= need && !Dissolves(inv, prompt, gone, need)
    ensures exists r :: r in Rest(InfoOf(inv, prompt), gone)
  {
    var r := SomeMember(Rest(InfoOf(inv, prompt), gone));
  }

  /** The buffer the trainer consumes next holds a complete batch. */
  predicate BatchReady(inv: Inventory) {
    inv.version in inv.buffers && FirstNonOccupied(inv.buffers[inv.version]) == inv.cfg.ready
  }

  /** The groups a training step consumes. */
  function Batch(inv: Inventory): seq<Info>
    requires BatchReady(inv)
  {
    seq(inv.cfg.ready, i requires 0 <= i < inv.cfg.ready => inv.buffers[inv.version][i].info)
  }

  /** Training on the ready batch produces the next model version. */
  function Push(inv: Inventory): Inventory {
    inv.(version := inv.version + 1)
  }

  lemma PushKeepsInv(inv: Inventory)
    requires Inv(inv) && BatchReady(inv)
    ensures Inv(Push(inv)) && Groups(Push(inv)) == Groups(inv)
  {
    PushTracks(inv);
    PushKeepsSound(inv);
  }

  lemma PushKeepsSound(inv: Inventory)
    requires Sound(inv) && BatchReady(inv)
    ensures Sound(Push(inv))
  {
    PushBounded(inv);
    PushOrdered(inv);
  }

  /** The consumed buffer is complete, so the buffers that are not lie behind it. */
  lemma PushOrdered(inv: Inventory)
    requires Sized(inv) && Ordered(inv) && BatchReady(inv)
    ensures Ordered(Push(inv))
  {
  }

  lemma PushBounded(inv: Inventory)
    requires Bounded(inv)
    ensures Bounded(Push(inv))
  {
    forall b, e | Used(Push(inv), b, e)
      ensures Admissible(Push(inv), b, inv.buffers[b][e].info)
    {
      assert Used(inv, b, e);
    }
  }

  lemma PushTracks(inv: Inventory)
    requires Tracked(inv)
    ensures Tracked(Push(inv)) && Groups(Push(inv)) == Groups(inv)
    ensures forall b, e :: Used(Push(inv), b, e) <==> Used(inv, b, e)
  {
  }

  predicate CanMark(inv: Inventory, b: nat) {
    b in inv.buffers && FirstNonOccupied(inv.buffers[b]) == inv.cfg.ready && !HasReserved(inv.buffers[b])
  }

  function Mark(inv: Inventory, b: nat): Inventory {
    inv.(marked := inv.marked + {b})
  }

  lemma MarkKeepsInv(inv: Inventory, b: nat)
    requires Inv(inv) && CanMark(inv, b)
    ensures Inv(Mark(inv, b)) && Groups(Mark(inv, b)) == Groups(inv)
  {
    assert forall b', e :: Used(Mark(inv, b), b', e) <==> Used(inv, b', e);
  }

  /** Delete a buffer with every group in it. */
  function Delete(inv: Inventory, b: nat): Inventory {
    inv.(buffers := inv.buffers - {b},
         tracker := map p | p in inv.tracker && inv.tracker[p].0 != b :: inv.tracker[p],
         marked := inv.marked - {b})
  }

  lemma DeleteTracks(inv: Inventory, b: nat)
    requires Tracked(inv)
    ensures Tracked(Delete(inv, b))
    ensures forall b', e :: Used(Delete(inv, b), b', e) ==> Used(inv, b', e)
  {
  }

  /** Deleting a buffer without reservations loses no reservation. */
  lemma DeleteKeepsInv(inv: Inventory, b: nat)
    requires Inv(inv) && b in inv.buffers && !HasReserved(inv.buffers[b])
    ensures Inv(Delete(inv, b))
    ensures forall p :: p in inv.tracker && p !in Delete(inv, b).tracker ==> IsOccupied(inv, p)
    ensures forall p :: p in Delete(inv, b).tracker ==>
      p in inv.tracker && Groups(Delete(inv, b))[p] == Groups(inv)[p]
  {
    DeleteTracks(inv, b);
    forall p | p in inv.tracker && p !in Delete(inv, b).tracker
      ensures IsOccupied(inv, p)
    {
      assert Used(inv, b, inv.tracker[p].1);
    }
  }

  // ---- Runs ----

  /** `where` resolves the iteration order of a set when a surplus group is occupied. */
  datatype Step =
    | ReserveStep(prompt: nat, request: int, version: nat, inst: int)
    | RetagStep(prompt: nat, request: int, version: nat)
    | OccupyStep(prompt: nat, where: nat)
    | AbortStep(prompt: nat, gone: set<int>, need: nat)
    | DropStep(prompt: nat)
    | ConsumeStep
    | MarkStep(buffer: nat)
    | DeleteStep(buffer: nat)

  /** Some buffer takes the finished surplus group. */
  ghost predicate SomeTakes(inv: Inventory, prompt: nat)
    requires Tracked(inv) && IsReserved(inv, prompt)
  {
    exists t :: Takes(inv, prompt, t)
  }

  /** What the callers check before a step, and that a set iteration stops at a buffer it can use if there is one. */
  ghost predicate Enabled(inv: Inventory, step: Step)
    requires Inv(inv)
  {
    match step
    case ReserveStep(p, _, v, _) => v <= inv.version && CanReserve(inv, p, v)
    case RetagStep(p, r, v) =>
      && p in inv.tracker && BufferOf(inv, p) <= v + inv.cfg.staleness && v <= inv.version
      && (InfoOf(inv, p).requests.Many? ==> r in InfoOf(inv, p).requests.values)
    case OccupyStep(p, t) =>
      IsReserved(inv, p) && (inv.cfg.ready <= EntryOf(inv, p) && SomeTakes(inv, p) ==> Takes(inv, p, t))
    case AbortStep(p, gone, need) => 1 <= need && (Dissolves(inv, p, gone, need) ==> Clearable(inv, p))
    case DropStep(p) => Droppable(inv, p)
    case ConsumeStep => BatchReady(inv)
    case MarkStep(b) => CanMark(inv, b)
    case DeleteStep(b) => b in inv.buffers && b < inv.version && !HasReserved(inv.buffers[b])
  }

  function ReserveNext(inv: Inventory, p: nat, r: int, v: nat, i: int): (next: Result<Inventory>)
    requires inv.cfg.ready <= inv.cfg.entries && Fits(inv)
    requires p in inv.tracker ==> Used(inv, BufferOf(inv, p), EntryOf(inv, p))
    // the definition as a postcondition: users get the equation without unfolding the outcome
    ensures next == IfGranted(ReserveData(inv, p, r, v, i, v + inv.cfg.staleness))
  {
    IfGranted(ReserveData(inv, p, r, v, i, v + inv.cfg.staleness))
  }

  /** The reservation behind the step, as a value to reason with. */
  lemma NextReserves(inv: Inventory, p: nat, r: int, v: nat, i: int, outcome: Result<Inventory>)
    returns (pair: (Inventory, Grant))
    requires inv.cfg.ready <= inv.cfg.entries && Fits(inv)
    requires p in inv.tracker ==> Used(inv, BufferOf(inv, p), EntryOf(inv, p))
    requires outcome == ReserveNext(inv, p, r, v, i)
    ensures pair == ReserveData(inv, p, r, v, i, v + inv.cfg.staleness) && outcome == IfGranted(pair)
  {
    pair := ReserveData(inv, p, r, v, i, v + inv.cfg.staleness);
  }

  function IfGranted(outcome: (Inventory, Grant)): Result<Inventory> {
    if outcome.1.Granted? then Ok(outcome.0) else Raised
  }

  function OccupyNext(inv: Inventory, p: nat, t: nat): Result<Inventory>
    requires Inv(inv) && IsReserved(inv, p)
  {
    if Occupy(inv, p, t).Ok? then Ok(Occupy(inv, p, t).value.inv) else Raised
  }

  function RetagNext(inv: Inventory, p: nat, r: int, v: nat): Result<Inventory>
    requires Inv(inv) && Enabled(inv, RetagStep(p, r, v))
  {
    RetagCondition(inv, p, r, v);
    Ok(RetagRequest(inv, p, r, v))
  }

  function AbortNext(inv: Inventory, p: nat, gone: set<int>, need: nat): Result<Inventory>
    requires Inv(inv)
  {
    assert p in inv.tracker ==> Used(inv, BufferOf(inv, p), EntryOf(inv, p));
    AbortRequests(inv, p, gone, need)
  }

  function DropNext(inv: Inventory, p: nat): Result<Inventory>
    requires Inv(inv) && Droppable(inv, p)
  {
    DropKeepsInv(inv, p);
    Ok(ClearOccupied(inv, p))
  }

  /** The state after an enabled step, or Raised. */
  function Next(inv: Inventory, step: Step): Result<Inventory>
    requires Inv(inv) && Enabled(inv, step)
  {
    match step
    case ReserveStep(p, r, v, i) => ReserveNext(inv, p, r, v, i)
    case RetagStep(p, r, v) => RetagNext(inv, p, r, v)
    case OccupyStep(p, t) => OccupyNext(inv, p, t)
    case AbortStep(p, gone, need) => AbortNext(inv, p, gone, need)
    case DropStep(p) => DropNext(inv, p)
    case ConsumeStep => Ok(Push(inv))
    case MarkStep(b) => Ok(Mark(inv, b))
    case DeleteStep(b) => Ok(Delete(inv, b))
  }

  ghost predicate Kept(r: Result<Inventory>) {
    r.Ok? ==> Inv(r.value)
  }

  lemma OccupyNextKeeps(inv: Inventory, p: nat, t: nat)
    requires Inv(inv) && IsReserved(inv, p)
    ensures Kept(OccupyNext(inv, p, t))
  {
    if EntryOf(inv, p) < inv.cfg.ready {
      BatchOccupyNeverLater(inv, p, t);
    } else {
      SurplusOccupyCondition(inv, p, t);
    }
  }

  lemma AbortNextKeeps(inv: Inventory, p: nat, gone: set<int>, need: nat)
    requires Inv(inv) && 1 <= need && (Dissolves(inv, p, gone, need) ==> Clearable(inv, p))
    ensures Kept(AbortNext(inv, p, gone, need))
  {
    if p in inv.tracker {
      if Dissolves(inv, p, gone, need) {
        ClearableKeepsInv(inv, p);
      } else if InfoOf(inv, p).requests.Many? {
        RestRemains(inv, p, gone, need);
        ShrinkKeepsInv(inv, p, gone);
      }
    }
  }

  /** Every step keeps the invariant: placement, tracking, order and the staleness bound. */
  lemma NextKeepsInv(inv: Inventory, step: Step)
    requires Inv(inv) && Enabled(inv, step)
    ensures Kept(Next(inv, step))
  {
    match step
    case ReserveStep(p, r, v, i) => AdmittedReserveKeepsInv(inv, p, r, v, i);
    case RetagStep(p, r, v) => RetagCondition(inv, p, r, v);
    case OccupyStep(p, t) => OccupyNextKeeps(inv, p, t);
    case AbortStep(p, gone, need) => AbortNextKeeps(inv, p, gone, need);
    case DropStep(p) => DropKeepsInv(inv, p);
    case ConsumeStep => PushKeepsInv(inv);
    case MarkStep(b) => MarkKeepsInv(inv, b);
    case DeleteStep(b) => DeleteKeepsInv(inv, b);
  }

  /** An admitted reservation, new or joining, bound zero or not. */
  lemma AdmittedReserveKeepsInv(inv: Inventory, p: nat, r: int, v: nat, i: int)
    requires Inv(inv) && v <= inv.version && CanReserve(inv, p, v)
    ensures Kept(ReserveNext(inv, p, r, v, i))
  {
    if p in inv.tracker {
      AdmittedJoin(inv, p, r, v, i);
    } else if v + inv.cfg.staleness == 0 {
      AdmittedAtBoundZero(inv, p, r, i);
    } else {
      AdmittedNew(inv, p, r, v, i);
    }
  }

  lemma AdmittedJoin(inv: Inventory, p: nat, r: int, v: nat, i: int)
    requires Inv(inv) && v <= inv.version && CanReserve(inv, p, v) && p in inv.tracker
    ensures Kept(ReserveNext(inv, p, r, v, i))
  {
    if r in Requests(InfoOf(inv, p)) {
      RetryKeepsInv(inv, p, r, v, i);
    } else {
      JoinKeepsInv(inv, p, r, v, i);
    }
    KeptWhenGranted(ReserveData(inv, p, r, v, i, v + inv.cfg.staleness));
  }

  lemma AdmittedNew(inv: Inventory, p: nat, r: int, v: nat, i: int)
    requires Inv(inv) && v <= inv.version && p !in inv.tracker && v + inv.cfg.staleness != 0
    ensures Kept(ReserveNext(inv, p, r, v, i))
  {
    ReserveKeepsInv(inv, p, r, v, i);
    KeptWhenGranted(ReserveData(inv, p, r, v, i, v + inv.cfg.staleness));
  }

  lemma KeptWhenGranted(outcome: (Inventory, Grant))
    requires Inv(outcome.0)
    ensures Kept(IfGranted(outcome))
  {
  }

  lemma AdmittedAtBoundZero(inv: Inventory, p: nat, r: int, i: int)
    requires Inv(inv) && inv.cfg.staleness == 0 && p !in inv.tracker && CanReserve(inv, p, 0)
    ensures Kept(ReserveNext(inv, p, r, 0, i))
  {
    EnsureKeepsInv(inv, 0);
    var room := WithCapacity(Ensure(inv, 0));
    LatestCandidate(Ensure(inv, 0), 0, 0);
    assert 0 in room;
    ReserveAtBoundZero(inv, p, r, i, 0);
    if |room| == 1 {
      OnlyMember(room, 0);
    }
  }

  lemma OnlyMember(s: set<nat>, x: nat)
    requires |s| == 1 && x in s
    ensures s == {x}
  {
    assert |s - {x}| == 0;
    assert s - {x} == {};
  }

  /** A gateway retry of a known request returns the same slot and keeps the group's metadata. */
  lemma RetryKeepsInv(inv: Inventory, prompt: nat, request: int, version: nat, inst: int)
    requires Inv(inv) && prompt in inv.tracker && request in Requests(InfoOf(inv, prompt))
    ensures Inv(ReserveData(inv, prompt, request, version, inst, version + inv.cfg.staleness).0)
    ensures ReserveData(inv, prompt, request, version, inst, version + inv.cfg.staleness).1 ==
      Granted(BufferOf(inv, prompt), EntryOf(inv, prompt))
  {
    var b: nat, e: nat := BufferOf(inv, prompt), EntryOf(inv, prompt);
    assert Used(inv, b, e);
    RelabelKeepsInv(inv, b, e, Join(InfoOf(inv, prompt), request, version, inst, 1));
  }

  /** One training step: the version it started from and the groups it consumed. */
  datatype Trained = Trained(version: nat, groups: seq<Info>)

  datatype Run = Run(inv: Inventory, log: seq<Trained>)

  /** A full batch of distinct groups, each generated at most `staleness` versions before it is consumed, and never after. */
  ghost predicate Fresh(cfg: Config, t: Trained) {
    && |t.groups| == cfg.ready
    && (forall i :: 0 <= i < |t.groups| ==>
          t.version - cfg.staleness <= Version(t.groups[i]) <= t.version)
    && (forall i, j :: 0 <= i < j < |t.groups| ==> t.groups[i].prompt != t.groups[j].prompt)
  }

  lemma BatchIsFresh(inv: Inventory)
    requires Inv(inv) && BatchReady(inv)
    ensures Fresh(inv.cfg, Trained(inv.version, Batch(inv)))
  {
    var es := inv.buffers[inv.version];
    assert forall i :: 0 <= i < inv.cfg.ready ==> Used(inv, inv.version, i);
  }

  /** A training step is logged. */
  function LogAfter(inv: Inventory, log: seq<Trained>, step: Step): seq<Trained> {
    if step.ConsumeStep? && BatchReady(inv) then log + [Trained(inv.version, Batch(inv))] else log
  }

  /** Run a sequence of steps; a step that is not enabled or raises ends the run without a result. */
  ghost function Execute(inv: Inventory, log: seq<Trained>, steps: seq<Step>): Result<Run>
    requires Inv(inv)
    decreases |steps|
  {
    if steps == [] then Ok(Run(inv, log))
    else if !Enabled(inv, steps[0]) || Next(inv, steps[0]).Raised? then Raised
    else
      NextKeepsInv(inv, steps[0]);
      Execute(Next(inv, steps[0]).value, LogAfter(inv, log, steps[0]), steps[1..])
  }

  /** The log lists the training steps in version order, and every one was fresh. */
  ghost predicate LogFresh(cfg: Config, version: nat, log: seq<Trained>) {
    && |log| == version
    && forall i :: 0 <= i < |log| ==> log[i].version == i && Fresh(cfg, log[i])
  }

  /** r keeps the configuration and is at this version. */
  predicate At(r: Result<Inventory>, cfg: Config, version: nat) {
    r.Ok? ==> r.value.cfg == cfg && r.value.version == version
  }

  lemma ReserveFrame(inv: Inventory, p: nat, r: int, v: nat, i: int)
    requires Inv(inv)
    ensures At(ReserveNext(inv, p, r, v, i), inv.cfg, inv.version)
  {
  }

  lemma AbortFrame(inv: Inventory, p: nat, gone: set<int>, need: nat)
    requires Inv(inv)
    ensures At(AbortNext(inv, p, gone, need), inv.cfg, inv.version)
  {
  }

  lemma SettledFrame(inv: Inventory, t: nat, info: Info)
    requires Fits(inv) && t in inv.buffers && Settled(inv, t, info).Ok?
    ensures Settled(inv, t, info).value.inv.cfg == inv.cfg && Settled(inv, t, info).value.inv.version == inv.version
  {
  }

  /** Where an occupation that succeeds settles. */
  lemma OccupySettles(inv: Inventory, p: nat, t: nat, inv1: Inventory) returns (t1: nat)
    requires Inv(inv) && IsReserved(inv, p) && Occupy(inv, p, t).Ok? && inv1 == ReleaseMoving(inv, p) && Inv(inv1)
    ensures t1 in inv1.buffers && Occupy(inv, p, t) == Settled(inv1, t1, InfoOf(inv, p))
  {
    t1 := if EntryOf(inv, p) < inv.cfg.ready then MinOf(Openings(inv1, Version(InfoOf(inv, p)))) else t;
  }

  lemma OccupyFrame(inv: Inventory, p: nat, t: nat)
    requires Inv(inv) && IsReserved(inv, p)
    ensures At(OccupyNext(inv, p, t), inv.cfg, inv.version)
  {
    if Occupy(inv, p, t).Ok? {
      var inv1 := ReleaseMoving(inv, p);
      ReleaseKeepsInv(inv, p);
      ReleaseFrame(inv, p);
      var t1 := OccupySettles(inv, p, t, inv1);
      SettledFrame(inv1, t1, InfoOf(inv, p));
    }
  }

  /** Only a training step advances the version. */
  lemma NextFrame(inv: Inventory, step: Step)
    requires Inv(inv) && Enabled(inv, step)
    ensures At(Next(inv, step), inv.cfg, if step.ConsumeStep? then inv.version + 1 else inv.version)
  {
    match step
    case ReserveStep(p, r, v, i) => ReserveFrame(inv, p, r, v, i);
    case RetagStep(p, r, v) =>
    case OccupyStep(p, t) => OccupyFrame(inv, p, t);
    case AbortStep(p, gone, need) => AbortFrame(inv, p, gone, need);
    case DropStep(p) =>
    case ConsumeStep =>
    case MarkStep(b) =>
    case DeleteStep(b) =>
  }

  lemma LogAfterFresh(inv: Inventory, log: seq<Trained>, step: Step)
    requires Inv(inv) && Enabled(inv, step) && LogFresh(inv.cfg, inv.version, log)
    ensures LogFresh(inv.cfg, if step.ConsumeStep? then inv.version + 1 else inv.version, LogAfter(inv, log, step))
  {
    if step.ConsumeStep? {
      BatchIsFresh(inv);
    }
  }

  /**
   The staleness guarantee: in every run, whatever the order of reservations, completions, aborts
   and training steps, each batch trained on is full and within the staleness bound.
   */
  lemma {:induction false} EveryBatchIsFresh(inv: Inventory, log: seq<Trained>, steps: seq<Step>)
    requires Inv(inv) && LogFresh(inv.cfg, inv.version, log) && Execute(inv, log, steps).Ok?
    ensures var run := Execute(inv, log, steps).value;
            Inv(run.inv) && run.inv.cfg == inv.cfg && LogFresh(inv.cfg, run.inv.version, run.log)
    decreases |steps|
  {
    if steps != [] {
      NextKeepsInv(inv, steps[0]);
      NextFrame(inv, steps[0]);
      LogAfterFresh(inv, log, steps[0]);
      EveryBatchIsFresh(Next(inv, steps[0]).value, LogAfter(inv, log, steps[0]), steps[1..]);
    }
  }

  /** An empty inventory satisfies the invariant. */
  lemma InitialInv(cfg: Config)
    requires 1 <= cfg.ready <= cfg.entries
    ensures Inv(Initial(cfg)) && LogFresh(cfg, 0, [])
  {
  }

  /** So the guarantee covers every run from the start. */
  lemma EveryRunIsFresh(cfg: Config, steps: seq<Step>)
    requires 1 <= cfg.ready <= cfg.entries
    ensures Inv(Initial(cfg))
    ensures Execute(Initial(cfg), [], steps).Ok? ==>
      var run := Execute(Initial(cfg), [], steps).value;
      Inv(run.inv) && run.inv.cfg == cfg && LogFresh(cfg, run.inv.version, run.log)
  {
    InitialInv(cfg);
    if Execute(Initial(cfg), [], steps).Ok? {
      EveryBatchIsFresh(Initial(cfg), [], steps);
    }
  }
}
