/**
 Runs in which the record of a group hides the version of one of its requests, and the group is
 trained on although that request is too old.
 */
module StalenessHidden {
  import opened Common
  import opened EntryInfo
  import opened StalenessBuffer
  import opened StalenessInventory
  import opened StalenessOccupy
  import opened StalenessProtocol
  import opened StalenessRuns
  import opened StalenessTrajectories

  // ---- The run ----

  /** One slot per buffer and one version of staleness. */
  const NARROW := Config(1, 1, 1)

  function Two(a: Slot, b: Slot, tracker: map<nat, (nat, nat)>, version: nat): Inventory {
    Inventory(NARROW, 2, map[0 := [a], 1 := [b]], tracker, {}, version)
  }

  function Three(a: Slot, b: Slot, c: Slot, tracker: map<nat, (nat, nat)>, version: nat): Inventory {
    Inventory(NARROW, 3, map[0 := [a], 1 := [b], 2 := [c]], tracker, {}, version)
  }

  lemma Single(a: Slot)
    ensures FirstNonOccupied([a]) == if a.Occupied? then 1 else 0
    ensures LastNonReserved([a]) == if a.Reserved? then -1 else 0
    ensures HasEmpty([a]) <==> a.Empty?
    ensures HasReserved([a]) <==> a.Reserved?
    ensures forall b :: [a][0 := b] == [b]
  {
    PrefixLength([a], if a.Occupied? then 1 else 0);
    SuffixStart([a], if a.Reserved? then -1 else 0);
    assert [a][0] == a;
  }

  lemma NarrowEmpty()
    ensures EmptyBuffer(1) == [Empty] && Range(0, 2) == {0, 1} && Range(2, 3) == {2}
  {
    assert Range(1, 2) == {1} && Range(2, 2) == {};
  }

  const FIRST := Group(0, 0)

  lemma FirstGranted(wide: Inventory, inv1: Inventory)
    requires wide == Two(Empty, Empty, map[], 0) && inv1 == Two(Empty, Reserved(FIRST), map[0 := (1, 0)], 0)
    ensures Grants(Initial(NARROW), 0, 0, wide, 1, 0, inv1)
  {
    NarrowEmpty();
    Single(Empty);
    assert Ensure(Initial(NARROW), 1).buffers == wide.buffers;
    assert Place(wide, 1, 0, Reserved(FIRST)).buffers == inv1.buffers;
  }

  lemma FirstReserved()
    ensures Found(Two(Empty, Reserved(FIRST), map[0 := (1, 0)], 0), map[0 := map[0 := 0]])
  {
    var wide, inv1 := Two(Empty, Empty, map[], 0), Two(Empty, Reserved(FIRST), map[0 := (1, 0)], 0);
    FoundAtFirst(NARROW);
    FirstGranted(wide, inv1);
    FoundReserve(Initial(NARROW), map[], 0, 0, wide, 1, 0, inv1, map[0 := map[0 := 0]]);
  }

  const OWN_FIRST: Own := map[0 := map[0 := 0]]

  lemma TwoPlaced(a: Slot, b: Slot, tracker: map<nat, (nat, nat)>, version: nat, slot: Slot)
    requires !slot.Empty?
    ensures Place(Two(a, b, tracker, version), 0, 0, slot) == Two(slot, b, tracker[slot.info.prompt := (0, 0)], version)
    ensures Place(Two(a, b, tracker, version), 1, 0, slot) == Two(a, slot, tracker[slot.info.prompt := (1, 0)], version)
  {
    Single(a);
    Single(b);
    var inv := Two(a, b, tracker, version);
    assert Place(inv, 0, 0, slot).buffers == inv.buffers[0 := [slot]] == map[0 := [slot], 1 := [b]];
    assert Place(inv, 1, 0, slot).buffers == inv.buffers[1 := [slot]] == map[0 := [a], 1 := [slot]];
  }

  lemma ThreePlaced(a: Slot, b: Slot, c: Slot, tracker: map<nat, (nat, nat)>, version: nat, slot: Slot)
    requires !slot.Empty?
    ensures Place(Three(a, b, c, tracker, version), 1, 0, slot) == Three(a, slot, c, tracker[slot.info.prompt := (1, 0)], version)
    ensures Place(Three(a, b, c, tracker, version), 2, 0, slot) == Three(a, b, slot, tracker[slot.info.prompt := (2, 0)], version)
  {
    Single(b);
    Single(c);
    var inv := Three(a, b, c, tracker, version);
    assert Place(inv, 1, 0, slot).buffers == inv.buffers[1 := [slot]] == map[0 := [a], 1 := [slot], 2 := [c]];
    assert Place(inv, 2, 0, slot).buffers == inv.buffers[2 := [slot]] == map[0 := [a], 1 := [b], 2 := [slot]];
  }

  lemma FirstSettles(inv: Inventory, mid: Inventory)
    requires inv == Two(Empty, Reserved(FIRST), map[0 := (1, 0)], 0) && Tracked(inv)
    requires mid == Two(Empty, Empty, map[], 0)
    ensures Settles(inv, 0, mid, 0, 0, Two(Occupied(FIRST), Empty, map[0 := (0, 0)], 0))
  {
    Single(Empty);
    Single(Reserved(FIRST));
    TwoPlaced(Empty, Empty, map[], 0, Occupied(FIRST));
    assert FindExchange(inv, 0) == None;
    assert Vacate(inv, 1, 0).buffers == mid.buffers;
    assert Vacate(inv, 1, 0).tracker == mid.tracker;
  }

  lemma FirstOccupied()
    ensures Found(Two(Occupied(FIRST), Empty, map[0 := (0, 0)], 0), OWN_FIRST)
  {
    var inv := Two(Empty, Reserved(FIRST), map[0 := (1, 0)], 0);
    var mid := Two(Empty, Empty, map[], 0);
    FirstReserved();
    FirstSettles(inv, mid);
    FoundOccupy(inv, OWN_FIRST, 0, mid, 0, 0, Two(Occupied(FIRST), Empty, map[0 := (0, 0)], 0));
  }

  lemma FirstConsumed()
    ensures Found(Two(Occupied(FIRST), Empty, map[0 := (0, 0)], 1), OWN_FIRST)
  {
    FirstOccupied();
    Single(Occupied(FIRST));
    FoundOn(Two(Occupied(FIRST), Empty, map[0 := (0, 0)], 0), OWN_FIRST, ConsumeStep,
            Two(Occupied(FIRST), Empty, map[0 := (0, 0)], 1), OWN_FIRST);
  }

  const LATER := Three(Occupied(FIRST), Empty, Reserved(Group(1, 1)), map[0 := (0, 0), 1 := (2, 0)], 1)
  const OWN_LATER: Own := map[0 := map[0 := 0], 1 := map[0 := 1]]

  lemma LaterGranted(inv: Inventory, wide: Inventory)
    requires inv == Two(Occupied(FIRST), Empty, map[0 := (0, 0)], 1)
    requires wide == Three(Occupied(FIRST), Empty, Empty, map[0 := (0, 0)], 1)
    ensures Grants(inv, 1, 1, wide, 2, 0, LATER)
  {
    NarrowEmpty();
    Single(Empty);
    assert Ensure(inv, 2).buffers == wide.buffers;
    ThreePlaced(Occupied(FIRST), Empty, Empty, map[0 := (0, 0)], 1, Reserved(Group(1, 1)));
  }

  /** Group 1 takes buffer 2, so that group 2 gets buffer 1. */
  lemma LaterReserved()
    ensures Found(LATER, OWN_LATER)
  {
    var inv := Two(Occupied(FIRST), Empty, map[0 := (0, 0)], 1);
    var wide := Three(Occupied(FIRST), Empty, Empty, map[0 := (0, 0)], 1);
    FirstConsumed();
    LaterGranted(inv, wide);
    FoundReserve(inv, OWN_FIRST, 1, 1, wide, 2, 0, LATER, OWN_LATER);
  }

  /** Buffer 1 holds group 2 with this record, before group 1 in buffer 2. */
  function Waiting(info: Info): Inventory {
    Three(Occupied(FIRST), Reserved(info), Reserved(Group(1, 1)), map[0 := (0, 0), 1 := (2, 0), 2 := (1, 0)], 1)
  }

  function Owned(members: map<int, int>): Own {
    map[0 := map[0 := 0], 1 := map[0 := 1], 2 := members]
  }

  lemma GroupGranted()
    ensures Grants(LATER, 2, 1, LATER, 1, 0, Waiting(Group(2, 1)))
  {
    Single(Empty);
    Single(Reserved(Group(1, 1)));
    ThreePlaced(Occupied(FIRST), Empty, Reserved(Group(1, 1)), LATER.tracker, 1, Reserved(Group(2, 1)));
  }

  lemma GroupReserved()
    ensures Found(Waiting(Group(2, 1)), Owned(map[0 := 1]))
  {
    LaterReserved();
    GroupGranted();
    FoundReserve(LATER, OWN_LATER, 2, 1, LATER, 1, 0, Waiting(Group(2, 1)), Owned(map[0 := 1]));
  }

  lemma WaitingRelabelled(info: Info, info1: Info)
    ensures Write(Waiting(info), 1, 0, Reserved(info1)) == Waiting(info1)
  {
    Single(Reserved(info));
    assert Write(Waiting(info), 1, 0, Reserved(info1)).buffers == Waiting(info1).buffers;
  }

  lemma WaitingGroup(info: Info)
    ensures 2 in Waiting(info).tracker && BufferOf(Waiting(info), 2) == 1 && EntryOf(Waiting(info), 2) == 0
    ensures Used(Waiting(info), 1, 0) && Waiting(info).buffers[1][0] == Reserved(info)
  {
  }

  lemma JoinNext(inv: Inventory, p: nat, r: int, v: nat)
    requires Inv(inv) && p in inv.tracker && v <= inv.version && BufferOf(inv, p) <= v + inv.cfg.staleness
    ensures Enabled(inv, ReserveStep(p, r, v, 0))
    ensures var b, e := BufferOf(inv, p), EntryOf(inv, p);
            Used(inv, b, e) && Next(inv, ReserveStep(p, r, v, 0)) ==
              Ok(Write(inv, b, e, Relabel(inv.buffers[b][e], Join(inv.buffers[b][e].info, r, v, 0, 1))))
  {
    assert Used(inv, BufferOf(inv, p), EntryOf(inv, p));
  }

  /** A request joins group 2, or is retried. */
  lemma GroupJoined(info: Info, members: map<int, int>, r: int, v: nat)
    requires Found(Waiting(info), Owned(members)) && info.prompt == 2 && v <= 1
    ensures Found(Waiting(Join(info, r, v, 0, 1)), Owned(members[r := v]))
  {
    WaitingGroup(info);
    JoinNext(Waiting(info), 2, r, v);
    WaitingRelabelled(info, Join(info, r, v, 0, 1));
    OwnedAssigned(members, r, v);
    FoundOn(Waiting(info), Owned(members), ReserveStep(2, r, v, 0), Waiting(Join(info, r, v, 0, 1)), Owned(members[r := v]));
  }

  lemma OwnedAssigned(members: map<int, int>, r: int, v: int)
    ensures Assign(Owned(members), 2, r, v) == Owned(members[r := v])
  {
  }

  lemma GroupRetagged(info: Info, members: map<int, int>, r: int, v: nat)
    requires Found(Waiting(info), Owned(members)) && info.requests.Many? && r in info.requests.values && v <= 1
    ensures Recorded(info) && Found(Waiting(Retag(info, r, v)), Owned(members[r := v]))
  {
    WaitingGroup(info);
    RetagCondition(Waiting(info), 2, r, v);
    WaitingRelabelled(info, Retag(info, r, v));
    OwnedAssigned(members, r, v);
    FoundOn(Waiting(info), Owned(members), RetagStep(2, r, v), Waiting(Retag(info, r, v)), Owned(members[r := v]));
  }

  /** The record after request 1 joined at version 0. */
  const SPREAD := Info(2, Many([0, 1]), Many([1, 1, 0]), One(0), One(1))

  /** After request 2 joined at version 1. */
  const SHIFTED := Info(2, Many([0, 1, 2]), Many([1, 1, 0, 1]), One(0), One(1))

  /** After request 2 was tagged with the version it already had. */
  const HIDING := Info(2, Many([0, 1, 2]), Many([1, 1, 1, 1]), One(0), One(1))

  const MEMBERS: map<int, int> := map[0 := 1, 1 := 0, 2 := 1]

  lemma SpreadIs()
    ensures Join(Group(2, 1), 1, 0, 0, 1) == SPREAD && map[0 := 1][1 := 0] == map[0 := 1, 1 := 0]
  {
    assert Requests(Group(2, 1)) == [0] && [0] + [1] == [0, 1];
    assert Repeat(2, 1) + [0] == [1, 1, 0];
  }

  lemma ShiftedIs()
    ensures Join(SPREAD, 2, 1, 0, 1) == SHIFTED && map[0 := 1, 1 := 0][2 := 1] == MEMBERS
  {
    assert [0, 1] + [2] == [0, 1, 2];
    assert [1, 1, 0] + [1] == [1, 1, 0, 1];
  }

  lemma HidingIs()
    ensures Retag(SHIFTED, 2, 1) == HIDING && Version(HIDING) == 1
  {
    var k := IndexOf([0, 1, 2], 2);
    assert [0, 1, 2][k] == 2 && k == 2;
    assert [1, 1, 0, 1][2 := 1] == [1, 1, 1, 1];
    assert Least([1, 1, 1, 1]) in [1, 1, 1, 1];
  }

  lemma SpreadFound()
    ensures Found(Waiting(SPREAD), Owned(map[0 := 1, 1 := 0]))
  {
    GroupReserved();
    GroupJoined(Group(2, 1), map[0 := 1], 1, 0);
    SpreadIs();
  }

  lemma ShiftedFound()
    ensures Found(Waiting(SHIFTED), Owned(MEMBERS))
  {
    SpreadFound();
    GroupJoined(SPREAD, map[0 := 1, 1 := 0], 2, 1);
    ShiftedIs();
  }

  lemma HidingFound()
    ensures Found(Waiting(HIDING), Owned(MEMBERS))
  {
    ShiftedFound();
    assert SHIFTED.requests.values[2] == 2;
    GroupRetagged(SHIFTED, MEMBERS, 2, 1);
    HidingIs();
    SameMembers();
  }

  lemma SameMembers()
    ensures MEMBERS[2 := 1] == MEMBERS
  {
  }

  /** Alternatively, request 0 is aborted right after request 1 joined. */
  const LONE := Info(2, Many([1]), Many([1]), One(0), One(1))

  lemma LoneIs()
    ensures Rest(SPREAD, {0}) == {1} && AbortSome(SPREAD, {0}) == LONE
  {
    assert SPREAD.requests.values[1..] == [1] && [1][1..] == [];
    assert SPREAD.versions.values[1..] == [1, 0] && [1, 0][1..] == [0];
    assert Surviving([1], {0}, [1]) == [1] && Surviving([1], {0}, [1, 0]) == [1];
    assert 1 in Requests(SPREAD);
  }

  lemma ShrinkNext(inv: Inventory, p: nat, gone: set<int>)
    requires Inv(inv) && p in inv.tracker && InfoOf(inv, p).requests.Many? && 1 <= |Rest(InfoOf(inv, p), gone)|
    ensures Enabled(inv, AbortStep(p, gone, 1)) && Recorded(InfoOf(inv, p))
    ensures Next(inv, AbortStep(p, gone, 1)) == Ok(Shrink(inv, p, gone))
  {
    assert Used(inv, BufferOf(inv, p), EntryOf(inv, p));
  }

  lemma WaitingShrinks(info: Info, gone: set<int>, info1: Info)
    requires Inv(Waiting(info)) && Recorded(info) && info.requests.Many?
    requires 1 <= |Rest(info, gone)| && info1 == AbortSome(info, gone)
    ensures Enabled(Waiting(info), AbortStep(2, gone, 1)) && Next(Waiting(info), AbortStep(2, gone, 1)) == Ok(Waiting(info1))
  {
    WaitingGroup(info);
    ShrinkNext(Waiting(info), 2, gone);
    WaitingRelabelled(info, info1);
  }

  lemma GroupShrunk(info: Info, members: map<int, int>, gone: set<int>, info1: Info)
    requires Found(Waiting(info), Owned(members)) && Recorded(info) && info.requests.Many?
    requires 1 <= |Rest(info, gone)| && info1 == AbortSome(info, gone)
    ensures Found(Waiting(info1), Owned(members - gone))
  {
    WaitingShrinks(info, gone, info1);
    OwnedShrunk(members, gone);
    FoundOn(Waiting(info), Owned(members), AbortStep(2, gone, 1), Waiting(info1), Owned(members - gone));
  }

  lemma OwnedShrunk(members: map<int, int>, gone: set<int>)
    ensures Owned(members)[2 := members - gone] == Owned(members - gone)
  {
  }

  lemma LoneMember()
    ensures map[0 := 1, 1 := 0] - {0} == map[1 := 0]
  {
  }

  lemma LoneFound()
    ensures Found(Waiting(LONE), Owned(map[1 := 0]))
  {
    SpreadFound();
    LoneIs();
    GroupShrunk(SPREAD, map[0 := 1, 1 := 0], {0}, LONE);
    LoneMember();
  }

  // ---- A retry, and an abort that raises ----

  /** Request 0 of group 2 is retried under version 0; the record still says 1. */
  const RETRIED := Info(2, Many([0]), One(1), One(0), One(1))

  lemma RetriedIs()
    ensures Join(Group(2, 1), 0, 0, 0, 1) == RETRIED && map[0 := 1][0 := 0] == map[0 := 0]
  {
    assert Requests(Group(2, 1)) == [0];
  }

  lemma RetriedFound()
    ensures Found(Waiting(RETRIED), Owned(map[0 := 0]))
  {
    GroupReserved();
    GroupJoined(Group(2, 1), map[0 := 1], 0, 0);
    RetriedIs();
  }

  lemma UnlistedRequest()
    ensures Rest(Group(2, 1), {1}) == {0} && Group(2, 1).requests.One?
  {
    assert Requests(Group(2, 1)) == [0];
    assert 0 in Requests(Group(2, 1));
  }

  lemma UnlistedRaises(inv: Inventory, p: nat, gone: set<int>, r: int)
    requires Inv(inv) && p in inv.tracker && InfoOf(inv, p).requests.One? && Rest(InfoOf(inv, p), gone) == {r}
    ensures Enabled(inv, AbortStep(p, gone, 1)) && Next(inv, AbortStep(p, gone, 1)).Raised?
  {
  }

  /** Aborting a request that group 2 has not listed raises, because the one it has is not in a list. */
  lemma AbortMayRaise()
    ensures Found(Waiting(Group(2, 1)), Owned(map[0 := 1])) && Enabled(Waiting(Group(2, 1)), AbortStep(2, {1}, 1))
    ensures Next(Waiting(Group(2, 1)), AbortStep(2, {1}, 1)).Raised?
  {
    GroupReserved();
    WaitingGroup(Group(2, 1));
    UnlistedRequest();
    UnlistedRaises(Waiting(Group(2, 1)), 2, {1}, 0);
  }

  // ---- The group moves later and is trained on ----

  /** Group 2 took the slot of the finished group 1 in buffer 2. */
  function Moved(b: Slot, info: Info, tracker: map<nat, (nat, nat)>, version: nat): Inventory {
    Three(Occupied(FIRST), b, Reserved(info), tracker, version)
  }

  lemma ExchangeFound(info: Info)
    requires Tracked(Waiting(info)) && info.prompt == 2 && Version(info) == 1
    ensures FindExchange(Waiting(info), 1) == Some((1, 0))
  {
    Single(Reserved(info));
    Single(Occupied(FIRST));
    assert Searchable(Waiting(info), 1) && Movable(Waiting(info), Reserved(info), 1, 2);
  }

  const LEFT: map<nat, (nat, nat)> := map[0 := (0, 0), 2 := (2, 0)]
  const SWAPPED: map<nat, (nat, nat)> := map[0 := (0, 0), 1 := (1, 0), 2 := (2, 0)]

  lemma ExchangeValue(info: Info)
    requires info.prompt == 2
    ensures var inv := Waiting(info);
            Used(inv, 2, 0) && Relocate(Vacate(inv, 2, 0), 1, 0, 2, 0) == Moved(Empty, info, LEFT, 1)
  {
    Single(Reserved(Group(1, 1)));
    Single(Reserved(info));
    Single(Empty);
    var inv := Waiting(info);
    var inv1 := Vacate(inv, 2, 0);
    assert inv1.buffers == map[0 := [Occupied(FIRST)], 1 := [Reserved(info)], 2 := [Empty]];
    assert inv1.tracker == map[0 := (0, 0), 2 := (1, 0)];
    var inv2 := Relocate(inv1, 1, 0, 2, 0);
    assert inv2.buffers == Moved(Empty, info, LEFT, 1).buffers;
    assert inv2.tracker == LEFT;
  }

  lemma Exchanged(info: Info, inv: Inventory, mid: Inventory)
    requires inv == Waiting(info) && Tracked(inv) && info.prompt == 2 && Version(info) == 1
    requires mid == Moved(Empty, info, LEFT, 1)
    ensures IsReserved(inv, 1) && EntryOf(inv, 1) == 0 && InfoOf(inv, 1) == Group(1, 1) && ReleaseMoving(inv, 1) == mid
  {
    ExchangeFound(info);
    ExchangeValue(info);
    Single(Reserved(info));
  }

  lemma OnlySecondOpen(info: Info, mid: Inventory)
    requires mid == Moved(Empty, info, LEFT, 1)
    ensures Fits(mid) && 1 in mid.buffers && mid.buffers[1] == [Empty] && FirstNonOccupied(mid.buffers[1]) == 0
    ensures forall y: nat :: y in Openings(mid, 1) <==> y == 1
  {
    Single(Empty);
    Single(Reserved(info));
    Single(Occupied(FIRST));
  }

  lemma BackPlaced(info: Info)
    ensures Place(Moved(Empty, info, LEFT, 1), 1, 0, Occupied(Group(1, 1))) == Moved(Occupied(Group(1, 1)), info, SWAPPED, 1)
  {
    ThreePlaced(Occupied(FIRST), Empty, Reserved(info), LEFT, 1, Occupied(Group(1, 1)));
    assert LEFT[1 := (1, 0)] == SWAPPED;
  }

  lemma SwapSettles(info: Info, inv: Inventory, mid: Inventory)
    requires inv == Waiting(info) && Tracked(inv) && info.prompt == 2 && Version(info) == 1
    requires mid == Moved(Empty, info, LEFT, 1)
    ensures Settles(inv, 1, mid, 1, 0, Moved(Occupied(Group(1, 1)), info, SWAPPED, 1))
  {
    Exchanged(info, inv, mid);
    OnlySecondOpen(info, mid);
    BackPlaced(info);
  }

  lemma SwapFound(info: Info, own: Own)
    requires Found(Waiting(info), own) && info.prompt == 2 && Version(info) == 1
    ensures Found(Moved(Occupied(Group(1, 1)), info, SWAPPED, 1), own)
  {
    SwapSettles(info, Waiting(info), Moved(Empty, info, LEFT, 1));
    FoundOccupy(Waiting(info), own, 1, Moved(Empty, info, LEFT, 1), 1, 0, Moved(Occupied(Group(1, 1)), info, SWAPPED, 1));
  }

  lemma SwapConsumed(info: Info, own: Own)
    requires Found(Moved(Occupied(Group(1, 1)), info, SWAPPED, 1), own)
    ensures Found(Moved(Occupied(Group(1, 1)), info, SWAPPED, 2), own)
  {
    Single(Occupied(Group(1, 1)));
    FoundOn(Moved(Occupied(Group(1, 1)), info, SWAPPED, 1), own, ConsumeStep, Moved(Occupied(Group(1, 1)), info, SWAPPED, 2), own);
  }

  /** Every group is finished. */
  function Finished(info: Info): Inventory {
    Three(Occupied(FIRST), Occupied(Group(1, 1)), Occupied(info), SWAPPED, 2)
  }

  lemma LastReleased(info: Info, inv: Inventory, mid: Inventory)
    requires inv == Moved(Occupied(Group(1, 1)), info, SWAPPED, 2) && Tracked(inv) && info.prompt == 2 && Version(info) == 1
    requires mid == Three(Occupied(FIRST), Occupied(Group(1, 1)), Empty, map[0 := (0, 0), 1 := (1, 0)], 2)
    ensures IsReserved(inv, 2) && EntryOf(inv, 2) == 0 && InfoOf(inv, 2) == info && ReleaseMoving(inv, 2) == mid
  {
    Single(Reserved(info));
    Single(Occupied(Group(1, 1)));
    assert FindExchange(inv, 2) == None;
    assert Vacate(inv, 2, 0).buffers == mid.buffers;
    assert Vacate(inv, 2, 0).tracker == mid.tracker;
  }

  lemma OnlyThirdOpen()
    ensures var mid := Three(Occupied(FIRST), Occupied(Group(1, 1)), Empty, map[0 := (0, 0), 1 := (1, 0)], 2);
            && Fits(mid) && FirstNonOccupied(mid.buffers[2]) == 0
            && forall y: nat :: y in Openings(mid, 1) <==> y == 2
  {
    Single(Empty);
    Single(Occupied(FIRST));
    Single(Occupied(Group(1, 1)));
  }

  lemma LastSettles(info: Info, inv: Inventory, mid: Inventory)
    requires inv == Moved(Occupied(Group(1, 1)), info, SWAPPED, 2) && Tracked(inv) && info.prompt == 2 && Version(info) == 1
    requires mid == Three(Occupied(FIRST), Occupied(Group(1, 1)), Empty, map[0 := (0, 0), 1 := (1, 0)], 2)
    ensures Settles(inv, 2, mid, 2, 0, Finished(info))
  {
    LastReleased(info, inv, mid);
    OnlyThirdOpen();
    ThreePlaced(Occupied(FIRST), Occupied(Group(1, 1)), Empty, mid.tracker, 2, Occupied(info));
  }

  lemma LastFinished(info: Info, own: Own)
    requires Found(Moved(Occupied(Group(1, 1)), info, SWAPPED, 2), own) && info.prompt == 2 && Version(info) == 1
    ensures Found(Finished(info), own)
  {
    var inv := Moved(Occupied(Group(1, 1)), info, SWAPPED, 2);
    var mid := Three(Occupied(FIRST), Occupied(Group(1, 1)), Empty, map[0 := (0, 0), 1 := (1, 0)], 2);
    LastSettles(info, inv, mid);
    FoundOccupy(inv, own, 2, mid, 2, 0, Finished(info));
  }

  lemma FinishedFound(info: Info, own: Own)
    requires Found(Waiting(info), own) && info.prompt == 2 && Version(info) == 1
    ensures Found(Finished(info), own)
  {
    SwapFound(info, own);
    SwapConsumed(info, own);
    LastFinished(info, own);
  }

  lemma FreshAtBound(info: Info)
    requires Version(info) == 1
    ensures Fresh(NARROW, Trained(2, [info]))
  {
  }

  /** From a group in buffer 1 whose record says version 1 to the training step that consumes it. */
  lemma TrainedOn(info: Info, own: Own) returns (t: Trail)
    requires Found(Waiting(info), own) && 2 in own && info.prompt == 2 && Version(info) == 1
    ensures Reached(t) && t.inv.cfg == NARROW
    ensures t.log != [] && t.log[|t.log| - 1] == Consumed(2, [info], [own[2]])
    ensures Fresh(NARROW, Trained(2, [info]))
  {
    FinishedFound(info, own);
    t := LastConsumed(info, own);
    FreshAtBound(info);
  }

  lemma FinishedBatch(info: Info, own: Own)
    requires 2 in own && info.prompt == 2
    ensures var inv := Finished(info);
            BatchReady(inv) && Batch(inv) == [info] && Members(inv, own) == [own[2]]
  {
    Single(Occupied(info));
  }

  lemma LastConsumed(info: Info, own: Own) returns (t: Trail)
    requires Found(Finished(info), own) && 2 in own && info.prompt == 2
    ensures Reached(t) && t.inv.cfg == NARROW
    ensures t.log != [] && t.log[|t.log| - 1] == Consumed(2, [info], [own[2]])
  {
    FinishedBatch(info, own);
    var log :| Reached(Trail(Finished(info), own, log));
    t := ConsumeOn(Trail(Finished(info), own, log));
  }

  lemma ConsumeNext(inv: Inventory)
    requires Inv(inv) && BatchReady(inv)
    ensures Enabled(inv, ConsumeStep) && Next(inv, ConsumeStep) == Ok(Push(inv))
  {
  }

  /** A training step on the batch that is ready. */
  lemma ConsumeAdvances(t: Trail) returns (t1: Trail)
    requires Inv(t.inv) && BatchReady(t.inv)
    ensures Advances(t, ConsumeStep, t1) && t1.inv.cfg == t.inv.cfg
    ensures t1.log == t.log + [Consumed(t.inv.version, Batch(t.inv), Members(t.inv, t.own))]
  {
    ConsumeNext(t.inv);
    t1 := Trail(Push(t.inv), t.own, Logged(t, ConsumeStep));
  }

  lemma ConsumeOn(t: Trail) returns (t1: Trail)
    requires Reached(t) && Inv(t.inv) && BatchReady(t.inv)
    ensures Reached(t1) && t1.inv.cfg == t.inv.cfg
    ensures t1.log == t.log + [Consumed(t.inv.version, Batch(t.inv), Members(t.inv, t.own))]
  {
    t1 := ConsumeAdvances(t);
    ReachOn(t, ConsumeStep, t1);
  }

  /** A run ends with a training step on a batch whose record is fresh, while this request of its group is too old. */
  ghost predicate TrainsOnStale(t: Trail, request: int) {
    && Reached(t) && t.log != []
    && var c := t.log[|t.log| - 1];
       && Fresh(t.inv.cfg, Trained(c.version, c.groups)) && c.members != []
       && request in c.members[0] && c.members[0][request] < c.version - t.inv.cfg.staleness
  }

  /**
   A request joins at an older version and the group's shared version is spread one element too far;
   tagging a later request then overwrites the older version. The group moves to a later buffer, as its
   record allows, and is trained on two versions after that request ran, with a bound of one.
   */
  lemma RetagMayHide() returns (t: Trail)
    ensures TrainsOnStale(t, 1)
  {
    HidingFound();
    HidingIs();
    t := TrainedOn(HIDING, Owned(MEMBERS));
  }

  /** The same by a partial abort, which keeps the wrong one of the versions. */
  lemma AbortMayHide() returns (t: Trail)
    ensures TrainsOnStale(t, 1)
  {
    LoneFound();
    t := TrainedOn(LONE, Owned(map[1 := 0]));
  }

  /** And by a retry, whose version is never recorded. */
  lemma RetryMayHide() returns (t: Trail)
    ensures TrainsOnStale(t, 0)
  {
    RetriedFound();
    t := TrainedOn(RETRIED, Owned(map[0 := 0]));
  }
}
