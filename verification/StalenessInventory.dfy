/**
 The staleness inventory: versioned buffers, the prompt tracker and the Reserve / Occupy / Consume
 protocol, as functions on values.
 */
module StalenessInventory {
  import opened Common
  import opened EntryInfo
  import opened StalenessBuffer

  /** Slots per buffer, slots per training batch, and the staleness bound. */
  datatype Config = Config(entries: nat, ready: nat, staleness: nat)

  /** `next` is the next buffer id, `marked` the buffers awaiting deletion, `version` the model version of the parameter server. */
  datatype Inventory = Inventory(
    cfg: Config,
    next: nat,
    buffers: map<nat, seq<Slot>>,
    tracker: map<nat, (nat, nat)>,
    marked: set<nat>,
    version: nat)

  function Initial(cfg: Config): Inventory {
    Inventory(cfg, 0, map[], map[], {}, 0)
  }

  predicate In(inv: Inventory, b: int, e: int) {
    b in inv.buffers && 0 <= e < |inv.buffers[b]|
  }

  predicate Used(inv: Inventory, b: int, e: int) {
    In(inv, b, e) && !inv.buffers[b][e].Empty?
  }

  function BufferOf(inv: Inventory, prompt: nat): nat
    requires prompt in inv.tracker
  {
    inv.tracker[prompt].0
  }

  function EntryOf(inv: Inventory, prompt: nat): nat
    requires prompt in inv.tracker
  {
    inv.tracker[prompt].1
  }

  // ---- Invariant ----

  ghost predicate Sized(inv: Inventory) {
    && 1 <= inv.cfg.ready <= inv.cfg.entries
    && forall b :: b in inv.buffers ==> 0 <= b < inv.next && |inv.buffers[b]| == inv.cfg.entries
  }

  ghost predicate Shaped(inv: Inventory) {
    forall b :: b in inv.buffers ==> Shape(inv.buffers[b], inv.cfg.ready)
  }

  /** The tracker is exactly the inverse of the slots. */
  ghost predicate Tracked(inv: Inventory) {
    && (forall p :: p in inv.tracker ==>
          Used(inv, inv.tracker[p].0, inv.tracker[p].1)
          && inv.buffers[inv.tracker[p].0][inv.tracker[p].1].info.prompt == p)
    && (forall b, e :: Used(inv, b, e) ==>
          inv.buffers[b][e].info.prompt in inv.tracker
          && inv.tracker[inv.buffers[b][e].info.prompt] == (b, e))
  }

  /** A group may sit in buffer b: b is within the staleness bound of its oldest version, and no version is from the future. */
  ghost predicate Admissible(inv: Inventory, b: int, info: Info) {
    Recorded(info) && b <= Version(info) + inv.cfg.staleness && Newest(info) <= inv.version
  }

  ghost predicate Bounded(inv: Inventory) {
    forall b, e :: Used(inv, b, e) ==> Admissible(inv, b, inv.buffers[b][e].info)
  }

  /** Every buffer that still lacks part of its batch will be trained on at the current version or later. */
  ghost predicate Ordered(inv: Inventory) {
    && 0 <= inv.version <= inv.next
    && forall b :: b in inv.buffers && FirstNonOccupied(inv.buffers[b]) < inv.cfg.ready ==> inv.version <= b
  }

  ghost predicate MarksReady(inv: Inventory) {
    forall b :: b in inv.marked ==>
      b in inv.buffers && FirstNonOccupied(inv.buffers[b]) == inv.cfg.ready && !HasReserved(inv.buffers[b])
  }

  /** The part of the invariant that does not mention the tracker. */
  ghost predicate Sound(inv: Inventory) {
    Sized(inv) && Shaped(inv) && Bounded(inv) && Ordered(inv) && MarksReady(inv)
  }

  ghost predicate Inv(inv: Inventory) {
    Sound(inv) && Tracked(inv)
  }

  /** inv1 differs from inv in the tracker and in having these buffers. */
  predicate Rewritten(inv: Inventory, inv1: Inventory, buffers: map<nat, seq<Slot>>) {
    && inv1.cfg == inv.cfg && inv1.next == inv.next && inv1.marked == inv.marked && inv1.version == inv.version
    && inv1.buffers == buffers
  }

  /** Every group among these slots may sit in buffer b. */
  ghost predicate AllAdmissible(inv: Inventory, b: nat, es: seq<Slot>) {
    forall i :: 0 <= i < |es| && !es[i].Empty? ==> Admissible(inv, b, es[i].info)
  }

  lemma SwapKeepsBounded(inv: Inventory, b: nat, es: seq<Slot>, inv1: Inventory)
    requires Bounded(inv) && b in inv.buffers && AllAdmissible(inv, b, es) && Rewritten(inv, inv1, inv.buffers[b := es])
    ensures Bounded(inv1)
  {
    assert forall b1, e :: Used(inv1, b1, e) && b1 != b ==> Used(inv, b1, e);
  }

  /** Replacing the slots of one buffer. */
  lemma SwapKeepsSound(inv: Inventory, b: nat, es: seq<Slot>, inv1: Inventory)
    requires Sound(inv) && b in inv.buffers && |es| == inv.cfg.entries && Shape(es, inv.cfg.ready)
    requires FirstNonOccupied(es) < inv.cfg.ready ==> inv.version <= b
    requires b in inv.marked ==> FirstNonOccupied(es) == inv.cfg.ready && !HasReserved(es)
    requires AllAdmissible(inv, b, es) && Rewritten(inv, inv1, inv.buffers[b := es])
    ensures Sound(inv1)
  {
    SwapKeepsBounded(inv, b, es, inv1);
  }

  lemma HeldAdmissible(inv: Inventory, b: nat)
    requires Bounded(inv) && b in inv.buffers
    ensures AllAdmissible(inv, b, inv.buffers[b])
  {
    assert forall i :: 0 <= i < |inv.buffers[b]| && !inv.buffers[b][i].Empty? ==> Used(inv, b, i);
  }

  /** One slot changes to an empty one or to an admissible group. */
  lemma EditAdmissible(inv: Inventory, b: nat, e: nat, slot: Slot)
    requires Bounded(inv) && In(inv, b, e) && (slot.Empty? || Admissible(inv, b, slot.info))
    ensures AllAdmissible(inv, b, inv.buffers[b][e := slot])
  {
    HeldAdmissible(inv, b);
  }

  // ---- Slot edits ----

  function Write(inv: Inventory, b: nat, e: nat, slot: Slot): Inventory
    requires In(inv, b, e)
  {
    inv.(buffers := inv.buffers[b := inv.buffers[b][e := slot]])
  }

  /** Put a group into a slot and track it there. */
  function Place(inv: Inventory, b: nat, e: nat, slot: Slot): Inventory
    requires In(inv, b, e) && !slot.Empty?
  {
    Write(inv, b, e, slot).(tracker := inv.tracker[slot.info.prompt := (b, e)])
  }

  /** Empty a slot and forget its group. */
  function Vacate(inv: Inventory, b: nat, e: nat): Inventory
    requires Used(inv, b, e)
  {
    Write(inv, b, e, Empty).(tracker := inv.tracker - {inv.buffers[b][e].info.prompt})
  }

  /** Move a group from one slot to another. */
  function Relocate(inv: Inventory, b: nat, e: nat, b2: nat, e2: nat): Inventory
    requires Used(inv, b, e) && In(inv, b2, e2)
  {
    Place(Write(inv, b, e, Empty), b2, e2, inv.buffers[b][e])
  }

  lemma PlacedElsewhere(inv: Inventory, b: nat, e: nat, slot: Slot, b1: int, e1: int)
    requires In(inv, b, e) && !slot.Empty? && (b1, e1) != (b, e)
    ensures Used(Place(inv, b, e, slot), b1, e1) <==> Used(inv, b1, e1)
    ensures Used(inv, b1, e1) ==> Place(inv, b, e, slot).buffers[b1][e1] == inv.buffers[b1][e1]
  {
  }

  lemma PlaceTracks(inv: Inventory, b: nat, e: nat, slot: Slot)
    requires Tracked(inv) && In(inv, b, e) && inv.buffers[b][e].Empty? && !slot.Empty?
    requires slot.info.prompt !in inv.tracker
    ensures Tracked(Place(inv, b, e, slot))
  {
    var inv1 := Place(inv, b, e, slot);
    forall p | p in inv1.tracker
      ensures var (x, f) := inv1.tracker[p]; Used(inv1, x, f) && inv1.buffers[x][f].info.prompt == p
    {
      if p in inv.tracker {
        PlacedElsewhere(inv, b, e, slot, inv.tracker[p].0, inv.tracker[p].1);
      }
    }
    forall x, f | Used(inv1, x, f)
      ensures var p := inv1.buffers[x][f].info.prompt; p in inv1.tracker && inv1.tracker[p] == (x, f)
    {
      if (x, f) != (b, e) {
        PlacedElsewhere(inv, b, e, slot, x, f);
      }
    }
  }

  lemma VacateTracks(inv: Inventory, b: nat, e: nat)
    requires Tracked(inv) && Used(inv, b, e)
    ensures Tracked(Vacate(inv, b, e))
  {
  }

  lemma MoveIsVacateThenPlace(inv: Inventory, b: nat, e: nat, b2: nat, e2: nat)
    requires Used(inv, b, e) && In(inv, b2, e2)
    ensures Relocate(inv, b, e, b2, e2) == Place(Vacate(inv, b, e), b2, e2, inv.buffers[b][e])
  {
  }

  lemma MoveWithinBuffer(inv: Inventory, b: nat, e: nat, e2: nat)
    requires Used(inv, b, e) && In(inv, b, e2)
    ensures Rewritten(inv, Relocate(inv, b, e, b, e2), inv.buffers[b := inv.buffers[b][e := Empty][e2 := inv.buffers[b][e]]])
  {
  }

  // ---- The abstract view: groups without positions ----

  /** Each tracked prompt with its slot's contents. */
  function Groups(inv: Inventory): map<nat, Slot>
    requires Tracked(inv)
  {
    map p | p in inv.tracker :: inv.buffers[inv.tracker[p].0][inv.tracker[p].1]
  }

  lemma PlaceGroups(inv: Inventory, b: nat, e: nat, slot: Slot)
    requires Tracked(inv) && In(inv, b, e) && inv.buffers[b][e].Empty? && !slot.Empty?
    requires slot.info.prompt !in inv.tracker
    ensures Tracked(Place(inv, b, e, slot))
    ensures Groups(Place(inv, b, e, slot)) == Groups(inv)[slot.info.prompt := slot]
  {
    PlaceTracks(inv, b, e, slot);
  }

  lemma VacateGroups(inv: Inventory, b: nat, e: nat)
    requires Tracked(inv) && Used(inv, b, e)
    ensures Tracked(Vacate(inv, b, e))
    ensures Groups(Vacate(inv, b, e)) == Groups(inv) - {inv.buffers[b][e].info.prompt}
  {
    VacateTracks(inv, b, e);
  }

  lemma GroupAt(inv: Inventory, b: nat, e: nat)
    requires Tracked(inv) && Used(inv, b, e)
    ensures var slot := inv.buffers[b][e]; slot.info.prompt in Groups(inv) && Groups(inv)[slot.info.prompt] == slot
  {
  }

  lemma Reinsert(groups: map<nat, Slot>, p: nat, slot: Slot)
    requires p in groups && groups[p] == slot
    ensures (groups - {p})[p := slot] == groups
  {
  }

  /** Moving a group is invisible. */
  lemma RelocateGroups(inv: Inventory, b: nat, e: nat, b2: nat, e2: nat)
    requires Tracked(inv) && Used(inv, b, e) && In(inv, b2, e2) && inv.buffers[b2][e2].Empty?
    ensures Tracked(Relocate(inv, b, e, b2, e2))
    ensures Groups(Relocate(inv, b, e, b2, e2)) == Groups(inv)
  {
    var slot := inv.buffers[b][e];
    GroupAt(inv, b, e);
    Reinsert(Groups(inv), slot.info.prompt, slot);
    MoveIsVacateThenPlace(inv, b, e, b2, e2);
    VacateGroups(inv, b, e);
    PlaceGroups(Vacate(inv, b, e), b2, e2, slot);
  }

  // ---- Creating buffers ----

  function EmptyBuffer(n: nat): (es: seq<Slot>)
    ensures |es| == n && forall i :: 0 <= i < n ==> es[i].Empty?
  {
    seq(n, _ => Empty)
  }

  /** Create every buffer up to id m that has not been created yet. */
  function Ensure(inv: Inventory, m: int): Inventory {
    if m < inv.next then inv
    else
      inv.(next := m + 1,
           buffers := map b | b in inv.buffers.Keys + Range(inv.next, m + 1)
                        :: if b in inv.buffers then inv.buffers[b] else EmptyBuffer(inv.cfg.entries))
  }

  lemma EnsureKeepsInv(inv: Inventory, m: int)
    requires Inv(inv)
    ensures Inv(Ensure(inv, m))
    ensures Ensure(inv, m).tracker == inv.tracker
  {
    EnsureTracks(inv, m);
    EnsureSound(inv, m);
  }

  lemma EnsureSound(inv: Inventory, m: int)
    requires Sound(inv)
    ensures Sound(Ensure(inv, m))
  {
    FreshShape(inv.cfg.entries, inv.cfg.ready);
    EnsureBounded(inv, m);
  }

  lemma EnsureBounded(inv: Inventory, m: int)
    requires Bounded(inv)
    ensures Bounded(Ensure(inv, m))
  {
    assert forall b, e :: Used(Ensure(inv, m), b, e) ==> Used(inv, b, e);
  }

  lemma FreshShape(n: nat, ready: nat)
    ensures Shape(EmptyBuffer(n), ready) && FirstNonOccupied(EmptyBuffer(n)) == 0
  {
    PrefixLength(EmptyBuffer(n), 0);
  }

  lemma EnsureTracks(inv: Inventory, m: int)
    requires Tracked(inv)
    ensures Tracked(Ensure(inv, m))
    ensures forall b, e :: Used(Ensure(inv, m), b, e) <==> Used(inv, b, e)
  {
  }

  // ---- Reserve ----

  function WithCapacity(inv: Inventory): set<nat>
    requires forall b :: b in inv.buffers ==> inv.cfg.ready <= |inv.buffers[b]|
  {
    set b | b in inv.buffers && Capacious(Status(inv.buffers[b], inv.cfg.ready))
  }

  /** Unmarked buffers with room in the window [low, high]. */
  function Candidates(inv: Inventory, low: int, high: int): set<nat>
    requires forall b :: b in inv.buffers ==> inv.cfg.ready <= |inv.buffers[b]|
  {
    set b | b in WithCapacity(inv) && low <= b <= high && b !in inv.marked
  }

  predicate Fits(inv: Inventory) {
    forall b :: b in inv.buffers ==> inv.cfg.ready <= |inv.buffers[b]|
  }

  /** The admission check a router makes before it dispatches a request. */
  predicate CanReserve(inv: Inventory, prompt: nat, version: int)
    requires inv.cfg.ready <= inv.cfg.entries && Fits(inv)
  {
    if prompt in inv.tracker then
      BufferOf(inv, prompt) <= version + inv.cfg.staleness
    else
      Candidates(Ensure(inv, version + inv.cfg.staleness), version, version + inv.cfg.staleness) != {}
  }

  datatype Grant = Granted(buffer: nat, entry: nat) | Refused | Failed

  /** Reserve the slot before the reserved suffix of the latest candidate. */
  function ReserveIn(inv: Inventory, candidates: set<nat>, info: Info): (Inventory, Grant)
    requires candidates <= inv.buffers.Keys
  {
    if candidates == {} then (inv, Refused)
    else
      var b := MaxOf(candidates);
      var e := LastNonReserved(inv.buffers[b]);
      if e < 0 || !inv.buffers[b][e].Empty? then (inv, Failed)
      else (Place(inv, b, e, Reserved(info)), Granted(b, e))
  }

  /** The buffers a new reservation may go to: those of its window, or all with room when the bound is 0. */
  function Room(inv: Inventory, high: int): set<nat>
    requires Fits(inv)
  {
    if high == 0 then WithCapacity(inv) else Candidates(inv, high - inv.cfg.staleness, high)
  }

  /** Reserve in the buffers that exist. Buffer bound 0 takes the validation branch. */
  function ReserveWithin(inv: Inventory, info: Info, high: int): (Inventory, Grant)
    requires Fits(inv)
  {
    if high == 0 && |WithCapacity(inv)| != 1 then (inv, Failed) else ReserveIn(inv, Room(inv, high), info)
  }

  /** Reserve a slot for a prompt that has none. */
  function ReserveNew(inv: Inventory, info: Info, high: int): (Inventory, Grant)
    requires inv.cfg.ready <= inv.cfg.entries && Fits(inv)
  {
    ReserveWithin(Ensure(inv, high), info, high)
  }

  /** The same slot with other metadata. */
  function Relabel(slot: Slot, info: Info): Slot
    requires !slot.Empty?
  {
    match slot
    case Reserved(_) => Reserved(info)
    case Occupied(_) => Occupied(info)
  }

  /** The metadata of a group that starts with this request. */
  function NewInfo(prompt: nat, request: int, version: int, inst: int): Info {
    Info(prompt, One(request), One(version), One(inst), One(1))
  }

  function ReserveData(inv: Inventory, prompt: nat, request: int, version: int, inst: int, high: int): (Inventory, Grant)
    requires inv.cfg.ready <= inv.cfg.entries && Fits(inv)
    requires prompt in inv.tracker ==> Used(inv, BufferOf(inv, prompt), EntryOf(inv, prompt))
  {
    if prompt in inv.tracker then
      var b, e := BufferOf(inv, prompt), EntryOf(inv, prompt);
      var slot := inv.buffers[b][e];
      (Write(inv, b, e, Relabel(slot, Join(slot.info, request, version, inst, 1))), Granted(b, e))
    else
      ReserveNew(inv, NewInfo(prompt, request, version, inst), high)
  }

  lemma RoomMeansCapacity(inv: Inventory, b: nat)
    requires Sized(inv) && Shaped(inv) && b in inv.buffers
    ensures b in WithCapacity(inv) <==> HasEmpty(inv.buffers[b])
  {
    StatusMeaning(inv.buffers[b], inv.cfg.ready);
  }

  /** Placing a fresh reservation into an unmarked buffer with room. */
  lemma ReservePlaceKeepsInv(inv: Inventory, b: nat, info: Info)
    requires Inv(inv) && b in inv.buffers && HasEmpty(inv.buffers[b]) && b !in inv.marked
    requires info.prompt !in inv.tracker && Admissible(inv, b, info)
    ensures var e := LastNonReserved(inv.buffers[b]);
            0 <= e && inv.buffers[b][e].Empty? && Inv(Place(inv, b, e, Reserved(info)))
  {
    var e := LastNonReserved(inv.buffers[b]);
    RoomAtBack(inv.buffers[b], inv.cfg.ready);
    ReserveKeepsShape(inv.buffers[b], inv.cfg.ready, info);
    PlaceTracks(inv, b, e, Reserved(info));
    EditAdmissible(inv, b, e, Reserved(info));
    SwapKeepsSound(inv, b, inv.buffers[b][e := Reserved(info)], Place(inv, b, e, Reserved(info)));
  }

  /** Two slot sequences with the same categories. */
  lemma SameCategories(es: seq<Slot>, es': seq<Slot>, ready: nat)
    requires |es| == |es'|
    requires forall i :: 0 <= i < |es| ==>
      (es'[i].Empty? <==> es[i].Empty?) && (es'[i].Reserved? <==> es[i].Reserved?)
    ensures FirstNonOccupied(es') == FirstNonOccupied(es) && LastNonReserved(es') == LastNonReserved(es)
    ensures Shape(es, ready) ==> Shape(es', ready)
    ensures HasReserved(es') ==> HasReserved(es)
  {
    PrefixLength(es', FirstNonOccupied(es));
    SuffixStart(es', LastNonReserved(es));
  }

  /** Relabelling a slot keeps the invariant as long as the new metadata is admissible where it is. */
  lemma RelabelKeepsInv(inv: Inventory, b: nat, e: nat, info: Info)
    requires Inv(inv) && Used(inv, b, e) && info.prompt == inv.buffers[b][e].info.prompt
    requires Admissible(inv, b, info)
    ensures Inv(Write(inv, b, e, Relabel(inv.buffers[b][e], info)))
  {
    var es := inv.buffers[b];
    var es' := es[e := Relabel(es[e], info)];
    SameCategories(es, es', inv.cfg.ready);
    RelabelTracks(inv, b, e, info);
    EditAdmissible(inv, b, e, Relabel(es[e], info));
    SwapKeepsSound(inv, b, es', Write(inv, b, e, Relabel(es[e], info)));
  }

  lemma RelabelTracks(inv: Inventory, b: nat, e: nat, info: Info)
    requires Tracked(inv) && Used(inv, b, e) && info.prompt == inv.buffers[b][e].info.prompt
    ensures Tracked(Write(inv, b, e, Relabel(inv.buffers[b][e], info)))
    ensures Groups(Write(inv, b, e, Relabel(inv.buffers[b][e], info))) ==
      Groups(inv)[info.prompt := Relabel(inv.buffers[b][e], info)]
  {
  }

  // ---- Clearing a reservation ----

  /** Fill the gap at slot e from slot `last`, the boundary of the reserved suffix, when it lies before the gap. */
  function CloseGap(inv: Inventory, b: nat, e: nat, last: nat): Inventory
    requires In(inv, b, e) && (e > last ==> Used(inv, b, last))
  {
    if e > last then Relocate(inv, b, last, b, e) else inv
  }

  lemma CloseGapSlots(inv: Inventory, b: nat, e: nat, es: seq<Slot>)
    requires In(inv, b, e) && |es| == |inv.buffers[b]| && inv.buffers[b] == es[e := Empty] && es[e].Reserved?
    ensures Rewritten(inv, CloseGap(inv, b, e, LastNonReserved(es) + 1), inv.buffers[b := WithoutReserved(es, e)])
  {
    var last := LastNonReserved(es) + 1;
    if e > last {
      MoveWithinBuffer(inv, b, last, e);
      assert es[e := Empty][last := Empty][e := es[last]] == WithoutReserved(es, e);
    } else {
      assert inv.buffers == inv.buffers[b := WithoutReserved(es, e)];
    }
  }

  lemma CloseGapTracks(inv: Inventory, b: nat, e: nat, last: nat)
    requires Tracked(inv) && In(inv, b, e) && inv.buffers[b][e].Empty? && (e > last ==> Used(inv, b, last))
    ensures Tracked(CloseGap(inv, b, e, last)) && Groups(CloseGap(inv, b, e, last)) == Groups(inv)
  {
    if e > last {
      RelocateGroups(inv, b, last, b, e);
    }
  }

  /** Clear a reservation and close the gap inside its buffer. Untracked prompts are skipped. */
  function ClearReserved(inv: Inventory, prompt: nat): Inventory
    requires prompt in inv.tracker ==> Used(inv, BufferOf(inv, prompt), EntryOf(inv, prompt))
  {
    if prompt !in inv.tracker then inv
    else
      var b, e := BufferOf(inv, prompt), EntryOf(inv, prompt);
      CloseGap(Vacate(inv, b, e), b, e, LastNonReserved(inv.buffers[b]) + 1)
  }

  /** A reservation that may take over a slot of buffer b. */
  predicate Movable(inv: Inventory, slot: Slot, prompt: nat, b: nat) {
    && slot.Reserved?
    && b - inv.cfg.staleness <= Version(slot.info) <= b
    && slot.info.prompt != prompt
  }

  /** First movable slot of es in [i, limit). */
  function ScanSlots(inv: Inventory, es: seq<Slot>, i: nat, limit: nat, prompt: nat, b: nat): (r: Option<nat>)
    requires i <= limit <= |es|
    ensures r.Some? ==> i <= r.value < limit && Movable(inv, es[r.value], prompt, b)
    ensures forall j :: i <= j < (if r.Some? then r.value else limit) ==> !Movable(inv, es[j], prompt, b)
    decreases limit - i
  {
    if i == limit then None
    else if Movable(inv, es[i], prompt, b) then Some(i)
    else ScanSlots(inv, es, i + 1, limit, prompt, b)
  }

  /** Slots of buffer x that may fill the gap at (b, e): all of an earlier buffer, those before e in b itself. */
  function Limit(inv: Inventory, x: int, b: int, e: nat): nat
    requires x in inv.buffers
  {
    if x == b then e else |inv.buffers[x]|
  }

  predicate Searchable(inv: Inventory, x: int) {
    x in inv.buffers && FirstNonOccupied(inv.buffers[x]) != inv.cfg.ready
  }

  /** First movable reservation in the not-ready buffers x .. top. */
  function ScanBuffers(inv: Inventory, x: int, top: int, prompt: nat, b: nat, e: nat): (r: Option<(nat, nat)>)
    requires In(inv, b, e)
    ensures r.Some? ==>
      && x <= r.value.0 <= top && Searchable(inv, r.value.0)
      && r.value.1 < Limit(inv, r.value.0, b, e)
      && Movable(inv, inv.buffers[r.value.0][r.value.1], prompt, b)
    ensures r.None? ==>
      forall y, f :: x <= y <= top && Searchable(inv, y) && 0 <= f < Limit(inv, y, b, e) ==>
        !Movable(inv, inv.buffers[y][f], prompt, b)
    decreases top - x
  {
    if x > top then None
    else if !Searchable(inv, x) then ScanBuffers(inv, x + 1, top, prompt, b, e)
    else
      var r := ScanSlots(inv, inv.buffers[x], 0, Limit(inv, x, b, e), prompt, b);
      if r.Some? then Some((x, r.value)) else ScanBuffers(inv, x + 1, top, prompt, b, e)
  }

  /** The reservation that takes over the slot of `prompt` when it is released. */
  function FindExchange(inv: Inventory, prompt: nat): Option<(nat, nat)>
    requires prompt in inv.tracker && Used(inv, BufferOf(inv, prompt), EntryOf(inv, prompt))
  {
    var b: nat, e: nat := BufferOf(inv, prompt), EntryOf(inv, prompt);
    var v := Version(inv.buffers[b][e].info);
    ScanBuffers(inv, v, Smaller(v + inv.cfg.staleness, b), prompt, b, e)
  }

  /** The inventory after reservation (x, f) took over slot (b, e). */
  function Exchanged(inv: Inventory, b: nat, e: nat, x: nat, f: nat): Inventory
    requires Used(inv, b, e) && Used(inv, x, f) && (x, f) != (b, e)
    requires inv.buffers[x][f].Reserved? && (x == b ==> f < e)
  {
    CloseGap(Relocate(Vacate(inv, b, e), x, f, b, e), x, f, LastNonReserved(inv.buffers[x]) + 1)
  }

  /** Clear a reservation and pull an earlier one into its slot. Without one the slot is left empty, gap or not. */
  function ReleaseMoving(inv: Inventory, prompt: nat): Inventory
    requires Tracked(inv) && prompt in inv.tracker
  {
    var b: nat, e: nat := BufferOf(inv, prompt), EntryOf(inv, prompt);
    match FindExchange(inv, prompt)
    case None => Vacate(inv, b, e)
    case Some((x, f)) => Exchanged(inv, b, e, x, f)
  }

  /** The two outcomes of a release. */
  lemma ReleaseEmpties(inv: Inventory, prompt: nat)
    requires Tracked(inv) && prompt in inv.tracker && FindExchange(inv, prompt).None?
    ensures ReleaseMoving(inv, prompt) == Vacate(inv, BufferOf(inv, prompt), EntryOf(inv, prompt))
  {
  }

  lemma ReleaseExchanges(inv: Inventory, prompt: nat, x: nat, f: nat)
    requires Tracked(inv) && prompt in inv.tracker && FindExchange(inv, prompt) == Some((x, f))
    ensures var b, e := BufferOf(inv, prompt), EntryOf(inv, prompt);
      && Used(inv, x, f) && (x, f) != (b, e) && inv.buffers[x][f].Reserved? && (x == b ==> f < e)
      && ReleaseMoving(inv, prompt) == Exchanged(inv, b, e, x, f)
  {
  }

  predicate IsReserved(inv: Inventory, prompt: nat) {
    && prompt in inv.tracker
    && In(inv, BufferOf(inv, prompt), EntryOf(inv, prompt))
    && inv.buffers[BufferOf(inv, prompt)][EntryOf(inv, prompt)].Reserved?
  }

  /** The slots a clear leaves behind. */
  lemma ClearSlots(inv: Inventory, prompt: nat)
    requires Tracked(inv) && IsReserved(inv, prompt)
    ensures var b, e := BufferOf(inv, prompt), EntryOf(inv, prompt);
            Rewritten(inv, ClearReserved(inv, prompt), inv.buffers[b := WithoutReserved(inv.buffers[b], e)])
  {
    var b: nat, e: nat := BufferOf(inv, prompt), EntryOf(inv, prompt);
    CloseGapSlots(Vacate(inv, b, e), b, e, inv.buffers[b]);
  }

  /** Emptying a slot touches no other. */
  lemma Vacated(inv: Inventory, b: nat, e: nat)
    requires Used(inv, b, e)
    ensures var inv1 := Vacate(inv, b, e);
            && In(inv1, b, e) && inv1.buffers[b][e].Empty?
            && forall x, f :: Used(inv, x, f) && (x, f) != (b, e) ==> Used(inv1, x, f) && inv1.buffers[x][f] == inv.buffers[x][f]
  {
  }

  lemma ClearIs(inv: Inventory, prompt: nat, b: nat, e: nat, last: nat)
    requires prompt in inv.tracker && inv.tracker[prompt] == (b, e) && Used(inv, b, e)
    requires last == LastNonReserved(inv.buffers[b]) + 1
    requires e > last ==> Used(inv, b, last)
    ensures ClearReserved(inv, prompt) == CloseGap(Vacate(inv, b, e), b, e, last)
  {
  }

  lemma ClearGroups(inv: Inventory, prompt: nat)
    requires Tracked(inv) && IsReserved(inv, prompt)
    ensures Tracked(ClearReserved(inv, prompt)) && Groups(ClearReserved(inv, prompt)) == Groups(inv) - {prompt}
  {
    var b: nat, e: nat := BufferOf(inv, prompt), EntryOf(inv, prompt);
    var last := LastNonReserved(inv.buffers[b]) + 1;
    ClosedGroups(inv, b, e, last);
    ClearIs(inv, prompt, b, e, last);
  }

  lemma ClosedGroups(inv: Inventory, b: nat, e: nat, last: nat)
    requires Tracked(inv) && Used(inv, b, e) && (e > last ==> Used(inv, b, last))
    ensures var inv1 := Vacate(inv, b, e);
            && In(inv1, b, e) && (e > last ==> Used(inv1, b, last)) && Tracked(CloseGap(inv1, b, e, last))
            && Groups(CloseGap(inv1, b, e, last)) == Groups(inv) - {inv.buffers[b][e].info.prompt}
  {
    var inv1 := Vacate(inv, b, e);
    Vacated(inv, b, e);
    VacateGroups(inv, b, e);
    CloseGapTracks(inv1, b, e, last);
  }

  lemma ClearKeepsInv(inv: Inventory, prompt: nat)
    requires Inv(inv) && IsReserved(inv, prompt)
    ensures Inv(ClearReserved(inv, prompt)) && Groups(ClearReserved(inv, prompt)) == Groups(inv) - {prompt}
  {
    var b: nat, e: nat := BufferOf(inv, prompt), EntryOf(inv, prompt);
    ClearSlots(inv, prompt);
    ClearGroups(inv, prompt);
    RemovalKeepsSound(inv, b, e, ClearReserved(inv, prompt));
  }

  lemma RemovalKeepsSound(inv: Inventory, b: nat, e: nat, inv1: Inventory)
    requires Sound(inv) && In(inv, b, e) && inv.buffers[b][e].Reserved?
    requires Rewritten(inv, inv1, inv.buffers[b := WithoutReserved(inv.buffers[b], e)])
    ensures Sound(inv1)
  {
    var es := inv.buffers[b];
    RemovalKeepsShape(es, inv.cfg.ready, e);
    HeldAdmissible(inv, b);
    SwapKeepsSound(inv, b, WithoutReserved(es, e), inv1);
  }

  // ---- Releasing a reservation on completion ----

  /** The buffer in which a release frees a slot. */
  function Freed(inv: Inventory, prompt: nat): nat
    requires Tracked(inv) && prompt in inv.tracker
  {
    match FindExchange(inv, prompt)
    case None => BufferOf(inv, prompt)
    case Some((x, _)) => x
  }

  /** Slots after reservation (x, f) was copied over (b, e). */
  function Copied(inv: Inventory, b: nat, e: nat, x: nat, f: nat): map<nat, seq<Slot>>
    requires In(inv, b, e) && In(inv, x, f)
  {
    inv.buffers[b := inv.buffers[b][e := inv.buffers[x][f]]]
  }

  lemma ExchangeSlots(inv: Inventory, b: nat, e: nat, x: nat, f: nat)
    requires Used(inv, b, e) && Used(inv, x, f) && (x, f) != (b, e)
    ensures var mid := Copied(inv, b, e, x, f);
            Rewritten(inv, Relocate(Vacate(inv, b, e), x, f, b, e), mid[x := mid[x][f := Empty]])
  {
    var inv2 := Relocate(Vacate(inv, b, e), x, f, b, e);
    var mid := Copied(inv, b, e, x, f);
    if x == b {
      assert inv2.buffers[b] == inv.buffers[b][e := Empty][f := Empty][e := inv.buffers[x][f]];
    } else {
      assert inv2.buffers[b] == inv.buffers[b][e := Empty][e := inv.buffers[x][f]] == mid[b];
    }
    assert inv2.buffers[x] == mid[x][f := Empty];
    assert inv2.buffers == mid[x := mid[x][f := Empty]];
  }

  /** Where the slot that closes the gap comes from, after the exchange. */
  lemma ExchangedLast(inv: Inventory, b: nat, e: nat, x: nat, f: nat, inv2: Inventory)
    requires Used(inv, b, e) && Used(inv, x, f) && (x, f) != (b, e)
    requires inv.buffers[b][e].Reserved? && inv.buffers[x][f].Reserved? && (x == b ==> f < e)
    requires inv2 == Relocate(Vacate(inv, b, e), x, f, b, e)
    ensures In(inv2, x, f) && inv2.buffers[x][f].Empty?
    ensures var last := LastNonReserved(inv.buffers[x]) + 1; f > last ==> Used(inv2, x, last)
  {
    ExchangeSlots(inv, b, e, x, f);
  }

  lemma ExchangedIs(inv: Inventory, b: nat, e: nat, x: nat, f: nat, inv2: Inventory, last: nat)
    requires Used(inv, b, e) && Used(inv, x, f) && (x, f) != (b, e)
    requires inv.buffers[x][f].Reserved? && (x == b ==> f < e)
    requires inv2 == Relocate(Vacate(inv, b, e), x, f, b, e) && last == LastNonReserved(inv.buffers[x]) + 1
    requires In(inv2, x, f) && (f > last ==> Used(inv2, x, last))
    ensures Exchanged(inv, b, e, x, f) == CloseGap(inv2, x, f, last)
  {
  }

  /** Copying one reservation over another moves no reserved suffix. */
  lemma CopiedSuffix(inv: Inventory, b: nat, e: nat, x: nat, f: nat)
    requires In(inv, b, e) && In(inv, x, f) && inv.buffers[b][e].Reserved? && inv.buffers[x][f].Reserved?
    ensures LastNonReserved(Copied(inv, b, e, x, f)[x]) == LastNonReserved(inv.buffers[x])
  {
    SuffixStart(Copied(inv, b, e, x, f)[x], LastNonReserved(inv.buffers[x]));
  }

  lemma ClosedExchangeSlots(inv: Inventory, b: nat, e: nat, x: nat, f: nat)
    requires Used(inv, b, e) && Used(inv, x, f) && (x, f) != (b, e)
    requires inv.buffers[b][e].Reserved? && inv.buffers[x][f].Reserved? && (x == b ==> f < e)
    ensures var mid := Copied(inv, b, e, x, f);
            Rewritten(inv, Exchanged(inv, b, e, x, f), mid[x := WithoutReserved(mid[x], f)])
  {
    var inv2 := Relocate(Vacate(inv, b, e), x, f, b, e);
    var mid := Copied(inv, b, e, x, f);
    ExchangeSlots(inv, b, e, x, f);
    CopiedSuffix(inv, b, e, x, f);
    CloseGapSlots(inv2, x, f, mid[x]);
    ExchangedLast(inv, b, e, x, f, inv2);
    ExchangedIs(inv, b, e, x, f, inv2, LastNonReserved(inv.buffers[x]) + 1);
    Overwritten(mid, x, mid[x][f := Empty], WithoutReserved(mid[x], f));
  }

  lemma Overwritten(buffers: map<nat, seq<Slot>>, x: nat, es: seq<Slot>, es': seq<Slot>)
    ensures buffers[x := es][x := es'] == buffers[x := es']
  {
  }

  lemma CopiedReserved(inv: Inventory, b: nat, e: nat, x: nat, f: nat)
    requires In(inv, b, e) && In(inv, x, f) && inv.buffers[x][f].Reserved?
    ensures var mid := Copied(inv, b, e, x, f); f < |mid[x]| && mid[x][f].Reserved?
  {
  }

  /** The slots a release leaves behind when reservation (x, f) takes over. */
  lemma ReleaseSlots(inv: Inventory, prompt: nat, x: nat, f: nat)
    requires Tracked(inv) && IsReserved(inv, prompt) && FindExchange(inv, prompt) == Some((x, f))
    ensures var b, e := BufferOf(inv, prompt), EntryOf(inv, prompt); var mid := Copied(inv, b, e, x, f);
            && f < |mid[x]| && mid[x][f].Reserved?
            && Rewritten(inv, ReleaseMoving(inv, prompt), mid[x := WithoutReserved(mid[x], f)])
  {
    var b: nat, e: nat := BufferOf(inv, prompt), EntryOf(inv, prompt);
    ReleaseExchanges(inv, prompt, x, f);
    ClosedExchangeSlots(inv, b, e, x, f);
    CopiedReserved(inv, b, e, x, f);
  }

  lemma ClosedExchangeGroups(inv: Inventory, b: nat, e: nat, x: nat, f: nat, inv2: Inventory, last: nat)
    requires Tracked(inv) && Used(inv, b, e) && Used(inv, x, f) && (x, f) != (b, e)
    requires inv2 == Relocate(Vacate(inv, b, e), x, f, b, e)
    requires In(inv2, x, f) && inv2.buffers[x][f].Empty? && (f > last ==> Used(inv2, x, last))
    ensures Tracked(CloseGap(inv2, x, f, last))
    ensures Groups(CloseGap(inv2, x, f, last)) == Groups(inv) - {inv.buffers[b][e].info.prompt}
  {
    VacateGroups(inv, b, e);
    Vacated(inv, b, e);
    RelocateGroups(Vacate(inv, b, e), x, f, b, e);
    CloseGapTracks(inv2, x, f, last);
  }

  lemma ExchangeGroups(inv: Inventory, b: nat, e: nat, x: nat, f: nat)
    requires Tracked(inv) && Used(inv, b, e) && Used(inv, x, f) && (x, f) != (b, e)
    requires inv.buffers[b][e].Reserved? && inv.buffers[x][f].Reserved? && (x == b ==> f < e)
    ensures Tracked(Exchanged(inv, b, e, x, f))
    ensures Groups(Exchanged(inv, b, e, x, f)) == Groups(inv) - {inv.buffers[b][e].info.prompt}
  {
    var inv2 := Relocate(Vacate(inv, b, e), x, f, b, e);
    var last := LastNonReserved(inv.buffers[x]) + 1;
    ExchangedLast(inv, b, e, x, f, inv2);
    ClosedExchangeGroups(inv, b, e, x, f, inv2, last);
    ExchangedIs(inv, b, e, x, f, inv2, last);
  }

  /** A release removes its group and no other. */
  lemma ReleaseGroups(inv: Inventory, prompt: nat)
    requires Tracked(inv) && IsReserved(inv, prompt)
    ensures Tracked(ReleaseMoving(inv, prompt)) && Groups(ReleaseMoving(inv, prompt)) == Groups(inv) - {prompt}
  {
    var b: nat, e: nat := BufferOf(inv, prompt), EntryOf(inv, prompt);
    match FindExchange(inv, prompt)
    case None => VacateGroups(inv, b, e);
    case Some((x, f)) =>
      ReleaseExchanges(inv, prompt, x, f);
      ExchangeGroups(inv, b, e, x, f);
  }
}
