/**
 Runs that end in states where a documented promise breaks: a group is occupied later than it was
 reserved, a finished group cannot be placed at all, an older tag breaks the staleness bound, an
 admitted reservation fails because its bound is zero, and an abort of a finished group leaves a hole.
 */
module StalenessRuns {
  import opened Common
  import opened EntryInfo
  import opened StalenessBuffer
  import opened StalenessInventory
  import opened StalenessOccupy
  import opened StalenessProtocol
  import opened StalenessTrajectories

  // ---- Reachable states ----

  ghost predicate Reached(t: Trail) {
    exists steps :: RunsTo(Beginning(t.inv.cfg), steps, t)
  }

  lemma ReachOn(t: Trail, step: Step, t1: Trail)
    requires Reached(t) && Advances(t, step, t1)
    ensures Reached(t1) && Inv(t1.inv)
  {
    var start := Beginning(t.inv.cfg);
    var steps :| RunsTo(start, steps, t);
    AdvanceKeeps(t, step, t1);
    RunsOn(start, steps, t, step, t1);
  }

  /** Some run ends in this inventory, with these versions. */
  ghost predicate Found(inv: Inventory, own: Own) {
    Inv(inv) && exists log :: Reached(Trail(inv, own, log))
  }

  lemma FoundOn(inv: Inventory, own: Own, step: Step, inv1: Inventory, own1: Own)
    requires Found(inv, own) && Enabled(inv, step) && Next(inv, step) == Ok(inv1) && own1 == Trace(inv, own, step)
    ensures Found(inv1, own1)
  {
    var log :| Reached(Trail(inv, own, log));
    var t := Trail(inv, own, log);
    ReachOn(t, step, Trail(inv1, own1, Logged(t, step)));
  }

  lemma FoundAtFirst(cfg: Config)
    requires 1 <= cfg.ready <= cfg.entries
    ensures Found(Initial(cfg), map[])
  {
    InitialInv(cfg);
    assert RunsTo(Beginning(cfg), [], Beginning(cfg));
    assert Reached(Trail(Initial(cfg), map[], []));
  }

  /** Some run from the empty inventory ends here. */
  ghost predicate Reachable(inv: Inventory) {
    exists own :: Found(inv, own)
  }

  lemma InitialReachable(cfg: Config)
    requires 1 <= cfg.ready <= cfg.entries
    ensures Reachable(Initial(cfg))
  {
    FoundAtFirst(cfg);
  }

  lemma ReachNext(inv: Inventory, s: Step, inv1: Inventory)
    requires Reachable(inv) && Inv(inv) && Enabled(inv, s) && Next(inv, s) == Ok(inv1)
    ensures Reachable(inv1) && Inv(inv1)
  {
    var own :| Found(inv, own);
    FoundOn(inv, own, s, inv1, Trace(inv, own, s));
  }

  // ---- Single steps ----

  function Group(prompt: nat, version: nat): Info {
    NewInfo(prompt, 0, version, 0)
  }

  /** Buffer b is the latest of the window with room. */
  ghost predicate Latest(inv: Inventory, low: int, high: int, b: nat) {
    && b in inv.buffers && low <= b <= high && b !in inv.marked && HasEmpty(inv.buffers[b])
    && forall y :: y in inv.buffers && b < y <= high ==> y in inv.marked || !HasEmpty(inv.buffers[y])
  }

  lemma LatestIsChosen(inv: Inventory, low: int, high: int, b: nat)
    requires Inv(inv) && Latest(inv, low, high, b)
    ensures Candidates(inv, low, high) != {} && MaxOf(Candidates(inv, low, high)) == b
  {
    CandidatesMeaning(inv, low, high, b);
    CandidatesMeaning(inv, low, high, MaxOf(Candidates(inv, low, high)));
  }

  lemma ReserveGranted(inv: Inventory, p: nat, v: nat, wide: Inventory, b: nat, e: nat)
    requires Inv(inv) && p !in inv.tracker && v + inv.cfg.staleness != 0 && wide == Ensure(inv, v + inv.cfg.staleness)
    requires Latest(wide, v, v + inv.cfg.staleness, b) && LastNonReserved(wide.buffers[b]) == e
    ensures In(wide, b, e) && CanReserve(inv, p, v)
    ensures ReserveNext(inv, p, 0, v, 0) == Ok(Place(wide, b, e, Reserved(Group(p, v))))
  {
    var high := v + inv.cfg.staleness;
    EnsureKeepsInv(inv, high);
    LatestIsChosen(wide, v, high, b);
    GrantOutcome(wide, Group(p, v), v, high);
    NewPromptPath(inv, p, 0, v, 0);
  }

  /** All that decides where a new group is reserved, with the state it leads to. */
  ghost predicate Grants(inv: Inventory, p: nat, v: nat, wide: Inventory, b: nat, e: nat, inv1: Inventory) {
    && p !in inv.tracker && v <= inv.version && v + inv.cfg.staleness != 0 && wide == Ensure(inv, v + inv.cfg.staleness)
    && Latest(wide, v, v + inv.cfg.staleness, b) && LastNonReserved(wide.buffers[b]) == e
    && In(wide, b, e) && inv1 == Place(wide, b, e, Reserved(Group(p, v)))
  }

  lemma FoundReserve(inv: Inventory, own: Own, p: nat, v: nat, wide: Inventory, b: nat, e: nat, inv1: Inventory, own1: Own)
    requires Found(inv, own) && Grants(inv, p, v, wide, b, e, inv1) && own1 == own[p := map[0 := v]]
    ensures Found(inv1, own1)
  {
    ReserveGranted(inv, p, v, wide, b, e);
    FoundOn(inv, own, ReserveStep(p, 0, v, 0), inv1, own1);
  }

  /** A reservation goes to the latest buffer of its window that has room. */
  lemma ReserveLands(inv: Inventory, p: nat, v: nat, wide: Inventory, b: nat, e: nat, inv1: Inventory)
    requires Reachable(inv) && Grants(inv, p, v, wide, b, e, inv1)
    ensures Reachable(inv1) && Inv(inv1)
  {
    var own :| Found(inv, own);
    FoundReserve(inv, own, p, v, wide, b, e, inv1, own[p := map[0 := v]]);
  }

  /** The state after a surplus group, whose slot nobody takes over, is occupied where the end of t's prefix is empty. */
  ghost predicate TakesOver(inv: Inventory, p: nat, mid: Inventory, t: nat, k: nat, inv1: Inventory) {
    && Tracked(inv) && IsReserved(inv, p) && inv.cfg.ready <= EntryOf(inv, p) && FindExchange(inv, p) == None
    && mid == Vacate(inv, BufferOf(inv, p), EntryOf(inv, p)) && Takes(inv, p, t)
    && t in mid.buffers && k < |mid.buffers[t]| && FirstNonOccupied(mid.buffers[t]) == k && mid.buffers[t][k].Empty?
    && inv1 == Place(mid, t, k, Occupied(InfoOf(inv, p)))
  }

  lemma OccupyValue(inv: Inventory, p: nat, mid: Inventory, t: nat, k: nat, inv1: Inventory)
    requires Inv(inv) && TakesOver(inv, p, mid, t, k, inv1)
    ensures OccupyNext(inv, p, t) == Ok(inv1)
  {
    ReleaseKeepsInv(inv, p);
    TakenLands(inv, p, mid, t);
    SettledEmpty(mid, t, k, InfoOf(inv, p));
  }

  lemma OccupyLands(inv: Inventory, p: nat, mid: Inventory, t: nat, k: nat, inv1: Inventory)
    requires Reachable(inv) && Inv(inv) && TakesOver(inv, p, mid, t, k, inv1)
    ensures Reachable(inv1) && Inv(inv1)
  {
    OccupyValue(inv, p, mid, t, k, inv1);
    ReachNext(inv, OccupyStep(p, t), inv1);
  }

  lemma EarliestIs(openings: set<nat>, t: nat)
    requires t in openings && forall y :: y in openings ==> t <= y
    ensures MinOf(openings) == t
  {
  }

  /** The state after a batch group is occupied in the earliest opening its release leaves. */
  ghost predicate Settles(inv: Inventory, p: nat, mid: Inventory, t: nat, k: nat, inv1: Inventory) {
    && Tracked(inv) && IsReserved(inv, p) && EntryOf(inv, p) < inv.cfg.ready && mid == ReleaseMoving(inv, p)
    && Fits(mid) && t in Openings(mid, Version(InfoOf(inv, p)))
    && (forall y :: y in Openings(mid, Version(InfoOf(inv, p))) ==> t <= y)
    && FirstNonOccupied(mid.buffers[t]) == k && k < |mid.buffers[t]| && mid.buffers[t][k].Empty?
    && inv1 == Place(mid, t, k, Occupied(InfoOf(inv, p)))
  }

  lemma BatchOccupyValue(inv: Inventory, p: nat, mid: Inventory, t: nat, k: nat, inv1: Inventory)
    requires Inv(inv) && Settles(inv, p, mid, t, k, inv1)
    ensures OccupyNext(inv, p, t) == Ok(inv1)
  {
    EarliestIs(Openings(mid, Version(InfoOf(inv, p))), t);
    BatchOpening(inv, p);
    BatchOccupyIs(inv, p, t, mid, t);
    SettledEmpty(mid, t, k, InfoOf(inv, p));
  }

  lemma FoundOccupy(inv: Inventory, own: Own, p: nat, mid: Inventory, t: nat, k: nat, inv1: Inventory)
    requires Found(inv, own) && Settles(inv, p, mid, t, k, inv1)
    ensures Found(inv1, own)
  {
    BatchOccupyValue(inv, p, mid, t, k, inv1);
    FoundOn(inv, own, OccupyStep(p, t), inv1, own);
  }

  // ---- A run that fills the first batch ----

  /** Two slots per buffer, one per batch, one version of staleness. */
  const WITH_SURPLUS := Config(2, 1, 1)

  lemma Pair(a: Slot, b: Slot)
    ensures FirstNonOccupied([a, b]) == if !a.Occupied? then 0 else if !b.Occupied? then 1 else 2
    ensures LastNonReserved([a, b]) == if !b.Reserved? then 1 else if !a.Reserved? then 0 else -1
    ensures HasEmpty([a, b]) <==> a.Empty? || b.Empty?
    ensures HasReserved([a, b]) <==> a.Reserved? || b.Reserved?
  {
    var es := [a, b];
    PrefixLength(es, if !a.Occupied? then 0 else if !b.Occupied? then 1 else 2);
    SuffixStart(es, if !b.Reserved? then 1 else if !a.Reserved? then 0 else -1);
    assert es[0] == a && es[1] == b;
  }

  /** Group 0 is reserved in the surplus slot of buffer 1, the last slot of its window. */
  const ONE_RESERVED := Inventory(
    WITH_SURPLUS, 2, map[0 := [Empty, Empty], 1 := [Empty, Reserved(Group(0, 0))]], map[0 := (1, 1)], {}, 0)

  /** Group 0 finished and completed the batch of buffer 0. */
  const ONE_OCCUPIED := Inventory(
    WITH_SURPLUS, 2, map[0 := [Occupied(Group(0, 0)), Empty], 1 := [Empty, Empty]], map[0 := (0, 0)], {}, 0)

  const ONE_NEXT := Inventory(
    WITH_SURPLUS, 2,
    map[0 := [Occupied(Group(0, 0)), Empty], 1 := [Empty, Reserved(Group(1, 0))]],
    map[0 := (0, 0), 1 := (1, 1)], {}, 0)

  /** Groups 1 and 2 fill buffer 1. */
  const NEXT_FULL := Inventory(
    WITH_SURPLUS, 2,
    map[0 := [Occupied(Group(0, 0)), Empty], 1 := [Reserved(Group(2, 0)), Reserved(Group(1, 0))]],
    map[0 := (0, 0), 1 := (1, 1), 2 := (1, 0)], {}, 0)

  lemma TwoEmpty()
    ensures EmptyBuffer(2) == [Empty, Empty] && Range(0, 2) == {0, 1} && Range(2, 3) == {2}
  {
    assert Range(1, 2) == {1} && Range(2, 2) == {};
  }

  /** Filling a slot of a pair. */
  lemma Fill(a: Slot, b: Slot, c: Slot)
    ensures [a, b][0 := c] == [c, b] && [a, b][1 := c] == [a, c]
  {
  }

  const WIDE := Inventory(WITH_SURPLUS, 2, map[0 := [Empty, Empty], 1 := [Empty, Empty]], map[], {}, 0)

  lemma OneReservedGranted()
    ensures Grants(Initial(WITH_SURPLUS), 0, 0, WIDE, 1, 1, ONE_RESERVED)
  {
    TwoEmpty();
    Pair(Empty, Empty);
    Fill(Empty, Empty, Reserved(Group(0, 0)));
    assert Ensure(Initial(WITH_SURPLUS), 1).buffers == WIDE.buffers;
    assert Place(WIDE, 1, 1, Reserved(Group(0, 0))).buffers == ONE_RESERVED.buffers;
  }

  lemma ReachOneReserved()
    ensures Reachable(ONE_RESERVED) && Inv(ONE_RESERVED)
  {
    InitialReachable(WITH_SURPLUS);
    OneReservedGranted();
    ReserveLands(Initial(WITH_SURPLUS), 0, 0, WIDE, 1, 1, ONE_RESERVED);
  }

  lemma OneTaken()
    requires Tracked(ONE_RESERVED)
    ensures IsReserved(ONE_RESERVED, 0) && ONE_RESERVED.tracker[0] == (1, 1) && InfoOf(ONE_RESERVED, 0) == Group(0, 0)
    ensures FindExchange(ONE_RESERVED, 0) == None && Takes(ONE_RESERVED, 0, 0)
  {
    Pair(Empty, Empty);
    Pair(Empty, Reserved(Group(0, 0)));
  }

  lemma OneOccupiedTakesOver()
    requires Tracked(ONE_RESERVED)
    ensures TakesOver(ONE_RESERVED, 0, WIDE, 0, 0, ONE_OCCUPIED)
  {
    OneTaken();
    Pair(Empty, Empty);
    Fill(Empty, Reserved(Group(0, 0)), Empty);
    Fill(Empty, Empty, Occupied(Group(0, 0)));
    assert Vacate(ONE_RESERVED, 1, 1).buffers == WIDE.buffers;
    assert Place(WIDE, 0, 0, Occupied(Group(0, 0))).buffers == ONE_OCCUPIED.buffers;
  }

  lemma ReachOneOccupied()
    ensures Reachable(ONE_OCCUPIED) && Inv(ONE_OCCUPIED)
  {
    ReachOneReserved();
    OneOccupiedTakesOver();
    OccupyLands(ONE_RESERVED, 0, WIDE, 0, 0, ONE_OCCUPIED);
  }

  lemma OneNextGranted()
    ensures Grants(ONE_OCCUPIED, 1, 0, ONE_OCCUPIED, 1, 1, ONE_NEXT)
  {
    Pair(Empty, Empty);
    Fill(Empty, Empty, Reserved(Group(1, 0)));
    assert Place(ONE_OCCUPIED, 1, 1, Reserved(Group(1, 0))).buffers == ONE_NEXT.buffers;
  }

  lemma ReachOneNext()
    ensures Reachable(ONE_NEXT) && Inv(ONE_NEXT)
  {
    ReachOneOccupied();
    OneNextGranted();
    ReserveLands(ONE_OCCUPIED, 1, 0, ONE_OCCUPIED, 1, 1, ONE_NEXT);
  }

  lemma NextFullGranted()
    ensures Grants(ONE_NEXT, 2, 0, ONE_NEXT, 1, 0, NEXT_FULL)
  {
    Pair(Empty, Reserved(Group(1, 0)));
    Fill(Empty, Reserved(Group(1, 0)), Reserved(Group(2, 0)));
    assert Place(ONE_NEXT, 1, 0, Reserved(Group(2, 0))).buffers == NEXT_FULL.buffers;
  }

  lemma ReachNextFull()
    ensures Reachable(NEXT_FULL) && Inv(NEXT_FULL)
  {
    ReachOneNext();
    NextFullGranted();
    ReserveLands(ONE_NEXT, 2, 0, ONE_NEXT, 1, 0, NEXT_FULL);
  }

  // ---- Later than reserved ----

  /** With buffer 1 full, group 3 gets the surplus slot of buffer 0. */
  const SURPLUS_RESERVED := Inventory(
    WITH_SURPLUS, 2,
    map[0 := [Occupied(Group(0, 0)), Reserved(Group(3, 0))], 1 := [Reserved(Group(2, 0)), Reserved(Group(1, 0))]],
    map[0 := (0, 0), 1 := (1, 1), 2 := (1, 0), 3 := (0, 1)], {}, 0)

  lemma SurplusGranted()
    ensures Grants(NEXT_FULL, 3, 0, NEXT_FULL, 0, 1, SURPLUS_RESERVED)
  {
    Pair(Occupied(Group(0, 0)), Empty);
    Pair(Reserved(Group(2, 0)), Reserved(Group(1, 0)));
    Fill(Occupied(Group(0, 0)), Empty, Reserved(Group(3, 0)));
    assert Place(NEXT_FULL, 0, 1, Reserved(Group(3, 0))).buffers == SURPLUS_RESERVED.buffers;
  }

  lemma ReachSurplusReserved()
    ensures Reachable(SURPLUS_RESERVED) && Inv(SURPLUS_RESERVED)
  {
    ReachNextFull();
    SurplusGranted();
    ReserveLands(NEXT_FULL, 3, 0, NEXT_FULL, 0, 1, SURPLUS_RESERVED);
  }

  lemma NextTakesSurplus()
    requires Tracked(SURPLUS_RESERVED)
    ensures IsReserved(SURPLUS_RESERVED, 3) && SURPLUS_RESERVED.tracker[3] == (0, 1) && Takes(SURPLUS_RESERVED, 3, 1)
  {
    Pair(Occupied(Group(0, 0)), Reserved(Group(3, 0)));
    Pair(Reserved(Group(2, 0)), Reserved(Group(1, 0)));
  }

  /**
   A group may be occupied in a later buffer than it was reserved in: the documented "never later"
   does not cover surplus slots.
   */
  lemma SurplusMayLandLater()
    ensures Reachable(SURPLUS_RESERVED) && Inv(SURPLUS_RESERVED) && IsReserved(SURPLUS_RESERVED, 3)
    ensures Occupy(SURPLUS_RESERVED, 3, 1).Ok?
    ensures BufferOf(SURPLUS_RESERVED, 3) < Occupy(SURPLUS_RESERVED, 3, 1).value.buffer
  {
    ReachSurplusReserved();
    NextTakesSurplus();
    SurplusOccupyCondition(SURPLUS_RESERVED, 3, 1);
  }

  // ---- No place at all ----

  /** Buffers 0 and 1 as in NEXT_FULL beside a third one, after the first batch was consumed and marked. */
  function Third(es: seq<Slot>, tracker: map<nat, (nat, nat)>): Inventory {
    Inventory(
      WITH_SURPLUS, 3,
      map[0 := [Occupied(Group(0, 0)), Empty], 1 := [Reserved(Group(2, 0)), Reserved(Group(1, 0))], 2 := es],
      map[0 := (0, 0), 1 := (1, 1), 2 := (1, 0)] + tracker, {0}, 1)
  }

  const CONSUMED := NEXT_FULL.(version := 1)
  const MARKED := NEXT_FULL.(version := 1, marked := {0})

  lemma ReachConsumed()
    ensures Reachable(CONSUMED) && Inv(CONSUMED)
  {
    ReachNextFull();
    Pair(Occupied(Group(0, 0)), Empty);
    ReachNext(NEXT_FULL, ConsumeStep, CONSUMED);
  }

  lemma ReachMarked()
    ensures Reachable(MARKED) && Inv(MARKED)
  {
    ReachConsumed();
    Pair(Occupied(Group(0, 0)), Empty);
    assert Mark(CONSUMED, 0).marked == MARKED.marked;
    ReachNext(CONSUMED, MarkStep(0), MARKED);
  }

  lemma ThirdFirst(a: Slot, b: Slot, tracker: map<nat, (nat, nat)>, slot: Slot)
    requires !slot.Empty? && slot.info.prompt > 2
    ensures Place(Third([a, b], tracker), 2, 0, slot) == Third([slot, b], tracker[slot.info.prompt := (2, 0)])
  {
    Fill(a, b, slot);
    assert Place(Third([a, b], tracker), 2, 0, slot).buffers == Third([slot, b], tracker).buffers;
  }

  lemma ThirdLast(a: Slot, b: Slot, tracker: map<nat, (nat, nat)>, slot: Slot)
    requires !slot.Empty? && slot.info.prompt > 2
    ensures Place(Third([a, b], tracker), 2, 1, slot) == Third([a, slot], tracker[slot.info.prompt := (2, 1)])
  {
    Fill(a, b, slot);
    assert Place(Third([a, b], tracker), 2, 1, slot).buffers == Third([a, slot], tracker).buffers;
  }

  lemma ThreeGranted()
    ensures Grants(MARKED, 3, 1, Third([Empty, Empty], map[]), 2, 1, Third([Empty, Reserved(Group(3, 1))], map[3 := (2, 1)]))
  {
    TwoEmpty();
    Pair(Empty, Empty);
    ThirdLast(Empty, Empty, map[], Reserved(Group(3, 1)));
    assert Ensure(MARKED, 2).buffers == Third([Empty, Empty], map[]).buffers;
  }

  lemma ReachThreeReserved()
    ensures var inv := Third([Empty, Reserved(Group(3, 1))], map[3 := (2, 1)]); Reachable(inv) && Inv(inv)
  {
    ReachMarked();
    ThreeGranted();
    ReserveLands(MARKED, 3, 1, Third([Empty, Empty], map[]), 2, 1, Third([Empty, Reserved(Group(3, 1))], map[3 := (2, 1)]));
  }

  lemma ThreeVacated()
    ensures Vacate(Third([Empty, Reserved(Group(3, 1))], map[3 := (2, 1)]), 2, 1) == Third([Empty, Empty], map[])
  {
    var inv := Third([Empty, Reserved(Group(3, 1))], map[3 := (2, 1)]);
    Fill(Empty, Reserved(Group(3, 1)), Empty);
    assert Vacate(inv, 2, 1).buffers == Third([Empty, Empty], map[]).buffers;
    assert Vacate(inv, 2, 1).tracker == Third([Empty, Empty], map[]).tracker;
  }

  lemma ThreeTaken(inv: Inventory)
    requires inv == Third([Empty, Reserved(Group(3, 1))], map[3 := (2, 1)]) && Tracked(inv)
    ensures IsReserved(inv, 3) && inv.tracker[3] == (2, 1) && InfoOf(inv, 3) == Group(3, 1)
    ensures FindExchange(inv, 3) == None && Takes(inv, 3, 2)
  {
    Pair(Empty, Reserved(Group(3, 1)));
    Pair(Reserved(Group(2, 0)), Reserved(Group(1, 0)));
  }

  lemma ThreeTakesOver(inv: Inventory)
    requires inv == Third([Empty, Reserved(Group(3, 1))], map[3 := (2, 1)]) && Tracked(inv)
    ensures TakesOver(inv, 3, Third([Empty, Empty], map[]), 2, 0, Third([Occupied(Group(3, 1)), Empty], map[3 := (2, 0)]))
  {
    ThreeTaken(inv);
    ThreeVacated();
    Pair(Empty, Empty);
    ThirdFirst(Empty, Empty, map[], Occupied(Group(3, 1)));
  }

  lemma ReachThreeOccupied()
    ensures var inv := Third([Occupied(Group(3, 1)), Empty], map[3 := (2, 0)]); Reachable(inv) && Inv(inv)
  {
    var inv := Third([Empty, Reserved(Group(3, 1))], map[3 := (2, 1)]);
    ReachThreeReserved();
    ThreeTakesOver(inv);
    OccupyLands(inv, 3, Third([Empty, Empty], map[]), 2, 0, Third([Occupied(Group(3, 1)), Empty], map[3 := (2, 0)]));
  }

  /**
   Buffer 1 waits for two groups of version 0, which no later buffer may hold. Buffer 2 is complete,
   with a version 1 group in its surplus slot.
   */
  const JAMMED := Third([Occupied(Group(3, 1)), Reserved(Group(4, 1))], map[3 := (2, 0), 4 := (2, 1)])

  lemma JammedIs()
    ensures Place(Third([Occupied(Group(3, 1)), Empty], map[3 := (2, 0)]), 2, 1, Reserved(Group(4, 1))) == JAMMED
  {
    ThirdLast(Occupied(Group(3, 1)), Empty, map[3 := (2, 0)], Reserved(Group(4, 1)));
    assert map[3 := (2, 0)][4 := (2, 1)] == map[3 := (2, 0), 4 := (2, 1)];
  }

  lemma JammedGranted(inv: Inventory)
    requires inv == Third([Occupied(Group(3, 1)), Empty], map[3 := (2, 0)])
    ensures Grants(inv, 4, 1, inv, 2, 1, JAMMED)
  {
    Pair(Occupied(Group(3, 1)), Empty);
    JammedIs();
  }

  lemma ReachJammed()
    ensures Reachable(JAMMED) && Inv(JAMMED)
  {
    var inv := Third([Occupied(Group(3, 1)), Empty], map[3 := (2, 0)]);
    ReachThreeOccupied();
    JammedGranted(inv);
    ReserveLands(inv, 4, 1, inv, 2, 1, JAMMED);
  }

  lemma JammedHasNoExchange()
    requires Tracked(JAMMED)
    ensures 4 in JAMMED.tracker && JAMMED.tracker[4] == (2, 1) && Freed(JAMMED, 4) == 2
  {
    Pair(Reserved(Group(2, 0)), Reserved(Group(1, 0)));
    Pair(Occupied(Group(3, 1)), Reserved(Group(4, 1)));
  }

  lemma JammedIsFull()
    ensures !HasEmpty(JAMMED.buffers[1]) && !RoomBefore(JAMMED, 1) && FirstNonOccupied(JAMMED.buffers[2]) == 1
  {
    Pair(Reserved(Group(2, 0)), Reserved(Group(1, 0)));
    Pair(Occupied(Group(3, 1)), Reserved(Group(4, 1)));
  }

  /** Releasing the surplus group of JAMMED frees room only in its own, complete buffer. */
  lemma JammedFreesOwnSlot(t: nat)
    requires Tracked(JAMMED)
    ensures IsReserved(JAMMED, 4) && !Takes(JAMMED, 4, t)
  {
    JammedHasNoExchange();
    JammedIsFull();
  }

  /** The jam: a finished group that every iteration order fails to place. */
  lemma SurplusMayRaise(t: nat)
    ensures Reachable(JAMMED) && Inv(JAMMED) && Enabled(JAMMED, OccupyStep(4, t))
    ensures Next(JAMMED, OccupyStep(4, t)).Raised?
  {
    ReachJammed();
    JammedFreesOwnSlot(t);
    forall c: nat ensures !Takes(JAMMED, 4, c) {
      JammedFreesOwnSlot(c);
    }
    SurplusOccupyCondition(JAMMED, 4, t);
  }

  // ---- An older tag ----

  const TAGGED := Third([Empty, Reserved(Group(3, 1))], map[3 := (2, 1)])

  lemma TaggedAt()
    ensures 3 in TAGGED.tracker && BufferOf(TAGGED, 3) == 2
    ensures Used(TAGGED, 2, EntryOf(TAGGED, 3)) && InfoOf(TAGGED, 3) == Group(3, 1)
  {
  }

  /** Tagging group 3 with version 0, which buffer 2 may not hold, goes through and breaks the bound. */
  lemma RetagMayBreakBound()
    ensures Reachable(TAGGED) && Inv(TAGGED) && 3 in TAGGED.tracker && Recorded(InfoOf(TAGGED, 3))
    ensures !Inv(RetagRequest(TAGGED, 3, 0, 0))
  {
    ReachThreeReserved();
    TaggedAt();
    RetagCondition(TAGGED, 3, 0, 0);
  }

  // ---- A bound of zero ----

  /** Two slots per buffer, one per batch, and no staleness. */
  const NO_STALENESS := Config(2, 1, 0)

  function Lone(es: seq<Slot>, tracker: map<nat, (nat, nat)>, version: nat): Inventory {
    Inventory(NO_STALENESS, 1, map[0 := es], tracker, {}, version)
  }

  lemma ZeroGranted(inv: Inventory, p: nat, wide: Inventory, e: nat)
    requires Inv(inv) && p !in inv.tracker && inv.cfg.staleness == 0 && wide == Ensure(inv, 0) && Fits(wide)
    requires WithCapacity(wide) == {0} && LastNonReserved(wide.buffers[0]) == e && In(wide, 0, e) && wide.buffers[0][e].Empty?
    ensures ReserveNext(inv, p, 0, 0, 0) == Ok(Place(wide, 0, e, Reserved(Group(p, 0))))
  {
    GrantedOnly(inv, Group(p, 0), wide, 0);
    var pair := NextReserves(inv, p, 0, 0, 0, ReserveNext(inv, p, 0, 0, 0));
  }

  lemma OnlyBufferZero(inv: Inventory)
    requires inv == Lone([Empty, Empty], map[], 0)
    ensures Ensure(Initial(NO_STALENESS), 0) == inv && Fits(inv) && LastNonReserved(inv.buffers[0]) == 1
    ensures WithCapacity(inv) == {0} && 0 in Candidates(inv, 0, 0)
  {
    TwoEmpty();
    Pair(Empty, Empty);
    assert Range(0, 1) == {0} by { assert Range(1, 1) == {}; }
    assert Ensure(Initial(NO_STALENESS), 0).buffers == inv.buffers;
  }

  lemma LonePlaced(a: Slot, b: Slot, tracker: map<nat, (nat, nat)>, slot: Slot)
    requires !slot.Empty?
    ensures Place(Lone([a, b], tracker, 0), 0, 0, slot) == Lone([slot, b], tracker[slot.info.prompt := (0, 0)], 0)
    ensures Place(Lone([a, b], tracker, 0), 0, 1, slot) == Lone([a, slot], tracker[slot.info.prompt := (0, 1)], 0)
  {
    Fill(a, b, slot);
    var inv := Lone([a, b], tracker, 0);
    assert Place(inv, 0, 0, slot).buffers == map[0 := [slot, b]];
    assert Place(inv, 0, 1, slot).buffers == map[0 := [a, slot]];
  }

  lemma ReachZeroReserved()
    ensures var inv := Lone([Empty, Reserved(Group(0, 0))], map[0 := (0, 1)], 0); Reachable(inv) && Inv(inv)
  {
    var wide := Lone([Empty, Empty], map[], 0);
    InitialReachable(NO_STALENESS);
    InitialInv(NO_STALENESS);
    OnlyBufferZero(wide);
    ZeroGranted(Initial(NO_STALENESS), 0, wide, 1);
    LonePlaced(Empty, Empty, map[], Reserved(Group(0, 0)));
    ReachNext(Initial(NO_STALENESS), ReserveStep(0, 0, 0, 0), Lone([Empty, Reserved(Group(0, 0))], map[0 := (0, 1)], 0));
  }

  lemma ZeroTakesOver(inv: Inventory, mid: Inventory)
    requires inv == Lone([Empty, Reserved(Group(0, 0))], map[0 := (0, 1)], 0) && Tracked(inv)
    requires mid == Lone([Empty, Empty], map[], 0)
    ensures TakesOver(inv, 0, mid, 0, 0, Lone([Occupied(Group(0, 0)), Empty], map[0 := (0, 0)], 0))
  {
    Pair(Empty, Reserved(Group(0, 0)));
    Pair(Empty, Empty);
    Fill(Empty, Reserved(Group(0, 0)), Empty);
    LonePlaced(Empty, Empty, map[], Occupied(Group(0, 0)));
    assert FindExchange(inv, 0) == None;
    assert Vacate(inv, 0, 1).buffers == mid.buffers;
    assert Vacate(inv, 0, 1).tracker == mid.tracker;
  }

  lemma ReachZeroOccupied()
    ensures var inv := Lone([Occupied(Group(0, 0)), Empty], map[0 := (0, 0)], 0); Reachable(inv) && Inv(inv)
  {
    var inv, mid := Lone([Empty, Reserved(Group(0, 0))], map[0 := (0, 1)], 0), Lone([Empty, Empty], map[], 0);
    ReachZeroReserved();
    ZeroTakesOver(inv, mid);
    OccupyLands(inv, 0, mid, 0, 0, Lone([Occupied(Group(0, 0)), Empty], map[0 := (0, 0)], 0));
  }

  lemma ReachZeroConsumed()
    ensures var inv := Lone([Occupied(Group(0, 0)), Empty], map[0 := (0, 0)], 1); Reachable(inv) && Inv(inv)
  {
    ReachZeroOccupied();
    Pair(Occupied(Group(0, 0)), Empty);
    ReachNext(Lone([Occupied(Group(0, 0)), Empty], map[0 := (0, 0)], 0), ConsumeStep,
              Lone([Occupied(Group(0, 0)), Empty], map[0 := (0, 0)], 1));
  }

  /** Group 0 is trained on and group 1 waits in the next buffer; both buffers have a slot left. */
  const ROOMY := Inventory(
    NO_STALENESS, 2, map[0 := [Occupied(Group(0, 0)), Empty], 1 := [Empty, Reserved(Group(1, 1))]],
    map[0 := (0, 0), 1 := (1, 1)], {}, 1)

  lemma RoomyGranted(inv: Inventory, wide: Inventory)
    requires inv == Lone([Occupied(Group(0, 0)), Empty], map[0 := (0, 0)], 1)
    requires wide == Inventory(NO_STALENESS, 2, map[0 := [Occupied(Group(0, 0)), Empty], 1 := [Empty, Empty]], map[0 := (0, 0)], {}, 1)
    ensures Grants(inv, 1, 1, wide, 1, 1, ROOMY)
  {
    TwoEmpty();
    Pair(Empty, Empty);
    Fill(Empty, Empty, Reserved(Group(1, 1)));
    assert Range(1, 2) == {1} by { assert Range(2, 2) == {}; }
    assert Ensure(inv, 1).buffers == wide.buffers;
    assert Place(wide, 1, 1, Reserved(Group(1, 1))).buffers == ROOMY.buffers;
  }

  lemma ReachRoomy()
    ensures Reachable(ROOMY) && Inv(ROOMY)
  {
    var inv := Lone([Occupied(Group(0, 0)), Empty], map[0 := (0, 0)], 1);
    var wide := Inventory(NO_STALENESS, 2, map[0 := [Occupied(Group(0, 0)), Empty], 1 := [Empty, Empty]], map[0 := (0, 0)], {}, 1);
    ReachZeroConsumed();
    RoomyGranted(inv, wide);
    ReserveLands(inv, 1, 1, wide, 1, 1, ROOMY);
  }

  lemma BothHaveRoom()
    ensures 0 in Candidates(ROOMY, 0, 0) && |WithCapacity(ROOMY)| == 2 && Ensure(ROOMY, 0) == ROOMY && 2 !in ROOMY.tracker
  {
    Pair(Occupied(Group(0, 0)), Empty);
    Pair(Empty, Reserved(Group(1, 1)));
    assert HasEmpty([Occupied(Group(0, 0)), Empty][1..]) by { assert [Occupied(Group(0, 0)), Empty][1..][0].Empty?; }
    assert WithCapacity(ROOMY) == {0, 1};
  }

  /** With room in two buffers a version 0 request of a new group is admitted and refused. */
  lemma ZeroRefuses(inv: Inventory, p: nat)
    requires Inv(inv) && inv.cfg.staleness == 0 && p !in inv.tracker && Ensure(inv, 0) == inv
    requires 0 in Candidates(inv, 0, 0) && |WithCapacity(inv)| == 2
    ensures Enabled(inv, ReserveStep(p, 0, 0, 0)) && Next(inv, ReserveStep(p, 0, 0, 0)).Raised?
  {
    ReserveAtBoundZero(inv, p, 0, 0, 0);
  }

  /** The admission check allows a version 0 request of group 2, and the reservation then fails. */
  lemma AdmittedMayFail()
    ensures Reachable(ROOMY) && Inv(ROOMY) && Enabled(ROOMY, ReserveStep(2, 0, 0, 0))
    ensures Next(ROOMY, ReserveStep(2, 0, 0, 0)).Raised?
  {
    ReachRoomy();
    BothHaveRoom();
    ZeroRefuses(ROOMY, 2);
  }

  // ---- Aborting a finished group ----

  /** Two slots per buffer, both in the batch, and one version of staleness. */
  const PAIRED := Config(2, 2, 1)

  /** Buffer 0 with these slots beside buffer 1 with those. */
  function Beside(a: Slot, b: Slot, c: Slot, tracker: map<nat, (nat, nat)>): Inventory {
    Inventory(PAIRED, 2, map[0 := [a, b], 1 := [Empty, c]], tracker, {}, 0)
  }

  lemma BesideFirst(a: Slot, b: Slot, c: Slot, tracker: map<nat, (nat, nat)>, slot: Slot)
    requires !slot.Empty?
    ensures Place(Beside(a, b, c, tracker), 0, 0, slot) == Beside(slot, b, c, tracker[slot.info.prompt := (0, 0)])
  {
    Fill(a, b, slot);
    assert Place(Beside(a, b, c, tracker), 0, 0, slot).buffers == map[0 := [slot, b], 1 := [Empty, c]];
  }

  lemma BesideSecond(a: Slot, b: Slot, c: Slot, tracker: map<nat, (nat, nat)>, slot: Slot)
    requires !slot.Empty?
    ensures Place(Beside(a, b, c, tracker), 0, 1, slot) == Beside(a, slot, c, tracker[slot.info.prompt := (0, 1)])
  {
    Fill(a, b, slot);
    assert Place(Beside(a, b, c, tracker), 0, 1, slot).buffers == map[0 := [a, slot], 1 := [Empty, c]];
  }

  lemma BesideLast(a: Slot, b: Slot, c: Slot, tracker: map<nat, (nat, nat)>, slot: Slot)
    requires !slot.Empty?
    ensures Place(Beside(a, b, c, tracker), 1, 1, slot) == Beside(a, b, slot, tracker[slot.info.prompt := (1, 1)])
  {
    Fill(Empty, c, slot);
    assert Place(Beside(a, b, c, tracker), 1, 1, slot).buffers == map[0 := [a, b], 1 := [Empty, slot]];
  }

  lemma BesideVacated(a: Slot, b: Slot, p: nat, tracker: map<nat, (nat, nat)>)
    requires p !in tracker
    ensures Vacate(Beside(a, b, Reserved(Group(p, 0)), tracker[p := (1, 1)]), 1, 1) == Beside(a, b, Empty, tracker)
  {
    var inv := Beside(a, b, Reserved(Group(p, 0)), tracker[p := (1, 1)]);
    Fill(Empty, Reserved(Group(p, 0)), Empty);
    assert Vacate(inv, 1, 1).buffers == map[0 := [a, b], 1 := [Empty, Empty]];
    assert tracker[p := (1, 1)] - {p} == tracker;
  }

  lemma BesideGranted(inv: Inventory, wide: Inventory, a: Slot, b: Slot, tracker: map<nat, (nat, nat)>, p: nat)
    requires wide == Beside(a, b, Empty, tracker) && inv.cfg == PAIRED && p !in inv.tracker && Ensure(inv, 1) == wide
    ensures Grants(inv, p, 0, wide, 1, 1, Beside(a, b, Reserved(Group(p, 0)), tracker[p := (1, 1)]))
  {
    Pair(Empty, Empty);
    BesideLast(a, b, Empty, tracker, Reserved(Group(p, 0)));
  }

  /** A new group goes to the last slot of buffer 1. */
  lemma BesideReserved(a: Slot, b: Slot, tracker: map<nat, (nat, nat)>, p: nat)
    requires Reachable(Beside(a, b, Empty, tracker)) && p !in tracker
    ensures var inv := Beside(a, b, Reserved(Group(p, 0)), tracker[p := (1, 1)]); Reachable(inv) && Inv(inv)
  {
    var inv := Beside(a, b, Empty, tracker);
    BesideGranted(inv, inv, a, b, tracker, p);
    ReserveLands(inv, p, 0, inv, 1, 1, Beside(a, b, Reserved(Group(p, 0)), tracker[p := (1, 1)]));
  }

  /** Slot k of buffer 0 is the first that is not occupied, and empty. */
  predicate OpenAt(a: Slot, b: Slot, k: nat) {
    (k == 0 && a.Empty? && b.Empty?) || (k == 1 && a.Occupied? && b.Empty?)
  }

  lemma BesideReleased(a: Slot, b: Slot, tracker: map<nat, (nat, nat)>, p: nat, k: nat, inv: Inventory, mid: Inventory)
    requires inv == Beside(a, b, Reserved(Group(p, 0)), tracker[p := (1, 1)]) && Tracked(inv) && p !in tracker
    requires mid == Beside(a, b, Empty, tracker) && OpenAt(a, b, k)
    ensures IsReserved(inv, p) && EntryOf(inv, p) == 1 && InfoOf(inv, p) == Group(p, 0) && ReleaseMoving(inv, p) == mid
  {
    Pair(a, b);
    Pair(Empty, Reserved(Group(p, 0)));
    BesideVacated(a, b, p, tracker);
    assert FindExchange(inv, p) == None;
  }

  /** Buffer 0 after group p takes its slot k. */
  function Done(a: Slot, b: Slot, tracker: map<nat, (nat, nat)>, p: nat, k: nat): Inventory {
    var done := Occupied(Group(p, 0));
    if k == 0 then Beside(done, b, Empty, tracker[p := (0, 0)]) else Beside(a, done, Empty, tracker[p := (0, 1)])
  }

  lemma BesideOpen(a: Slot, b: Slot, tracker: map<nat, (nat, nat)>, p: nat, k: nat, mid: Inventory)
    requires mid == Beside(a, b, Empty, tracker) && OpenAt(a, b, k)
    ensures Fits(mid) && 0 in Openings(mid, 0) && FirstNonOccupied(mid.buffers[0]) == k && mid.buffers[0][k].Empty?
    ensures Place(mid, 0, k, Occupied(Group(p, 0))) == Done(a, b, tracker, p, k)
  {
    Pair(a, b);
    Pair(Empty, Empty);
    BesideFirst(a, b, Empty, tracker, Occupied(Group(p, 0)));
    BesideSecond(a, b, Empty, tracker, Occupied(Group(p, 0)));
  }

  lemma BesideSettles(a: Slot, b: Slot, tracker: map<nat, (nat, nat)>, p: nat, k: nat, inv: Inventory, mid: Inventory)
    requires inv == Beside(a, b, Reserved(Group(p, 0)), tracker[p := (1, 1)]) && Tracked(inv) && p !in tracker
    requires mid == Beside(a, b, Empty, tracker) && OpenAt(a, b, k)
    ensures Settles(inv, p, mid, 0, k, Done(a, b, tracker, p, k))
  {
    BesideReleased(a, b, tracker, p, k, inv, mid);
    BesideOpen(a, b, tracker, p, k, mid);
  }

  /** When it finishes it takes the open slot of buffer 0. */
  lemma BesideOccupied(a: Slot, b: Slot, tracker: map<nat, (nat, nat)>, p: nat, k: nat)
    requires Reachable(Beside(a, b, Reserved(Group(p, 0)), tracker[p := (1, 1)])) && p !in tracker && OpenAt(a, b, k)
    ensures Reachable(Done(a, b, tracker, p, k)) && Inv(Done(a, b, tracker, p, k))
  {
    var inv, mid := Beside(a, b, Reserved(Group(p, 0)), tracker[p := (1, 1)]), Beside(a, b, Empty, tracker);
    var own :| Found(inv, own);
    BesideSettles(a, b, tracker, p, k, inv, mid);
    FoundOccupy(inv, own, p, mid, 0, k, Done(a, b, tracker, p, k));
  }

  /** Groups 0 and 1 finished and complete the batch of buffer 0. */
  const BOTH_DONE := Beside(Occupied(Group(0, 0)), Occupied(Group(1, 0)), Empty, map[0 := (0, 0), 1 := (0, 1)])

  lemma BesideEnsured()
    ensures Ensure(Initial(PAIRED), 1) == Beside(Empty, Empty, Empty, map[])
  {
    TwoEmpty();
    assert Ensure(Initial(PAIRED), 1).buffers == Beside(Empty, Empty, Empty, map[]).buffers;
  }

  lemma ReachFirstReserved()
    ensures var inv := Beside(Empty, Empty, Reserved(Group(0, 0)), map[0 := (1, 1)]); Reachable(inv) && Inv(inv)
  {
    var wide := Beside(Empty, Empty, Empty, map[]);
    InitialReachable(PAIRED);
    BesideEnsured();
    BesideGranted(Initial(PAIRED), wide, Empty, Empty, map[], 0);
    ReserveLands(Initial(PAIRED), 0, 0, wide, 1, 1, Beside(Empty, Empty, Reserved(Group(0, 0)), map[0 := (1, 1)]));
  }

  lemma ReachBothDone()
    ensures Reachable(BOTH_DONE) && Inv(BOTH_DONE)
  {
    ReachFirstReserved();
    BesideOccupied(Empty, Empty, map[], 0, 0);
    BesideReserved(Occupied(Group(0, 0)), Empty, map[0 := (0, 0)], 1);
    BesideOccupied(Occupied(Group(0, 0)), Empty, map[0 := (0, 0)], 1, 1);
  }

  lemma FirstIsNotLast()
    ensures IsOccupied(BOTH_DONE, 0) && !LastOccupied(BOTH_DONE, 0) && Dissolves(BOTH_DONE, 0, {0}, 1)
  {
    Pair(Occupied(Group(0, 0)), Occupied(Group(1, 0)));
    assert InfoOf(BOTH_DONE, 0) == Group(0, 0);
    assert Rest(Group(0, 0), {0}) == {};
  }

  /** Aborting the request of the first finished group empties a slot in front of an occupied one. */
  lemma AbortMayLeaveHole()
    ensures Reachable(BOTH_DONE) && Inv(BOTH_DONE) && AbortNext(BOTH_DONE, 0, {0}, 1).Ok?
    ensures !Inv(AbortNext(BOTH_DONE, 0, {0}, 1).value)
  {
    ReachBothDone();
    FirstIsNotLast();
    ClearOccupiedCondition(BOTH_DONE, 0);
  }
}
