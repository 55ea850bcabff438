/**
 Occupy: a finished group leaves its worst-case reservation for the earliest admissible buffer.
 */
module StalenessOccupy {
  import opened Common
  import opened EntryInfo
  import opened StalenessBuffer
  import opened StalenessInventory

  /** Metadata of a tracked prompt. */
  function InfoOf(inv: Inventory, prompt: nat): Info
    requires prompt in inv.tracker && Used(inv, BufferOf(inv, prompt), EntryOf(inv, prompt))
  {
    inv.buffers[BufferOf(inv, prompt)][EntryOf(inv, prompt)].info
  }

  // ---- The release step keeps the invariant ----

  /** Without an exchange candidate the released slot is the first reserved one, or a surplus slot. */
  lemma NothingBefore(inv: Inventory, prompt: nat)
    requires Inv(inv) && IsReserved(inv, prompt) && FindExchange(inv, prompt) == None
    ensures var b, e := BufferOf(inv, prompt), EntryOf(inv, prompt);
            forall i :: 0 <= i < e && i < inv.cfg.ready ==> !inv.buffers[b][i].Reserved?
  {
    var b: nat, e: nat := BufferOf(inv, prompt), EntryOf(inv, prompt);
    var es := inv.buffers[b];
    if FirstNonOccupied(es) < inv.cfg.ready {
      assert Used(inv, b, e) && Searchable(inv, b);
      var v := Version(es[e].info);
      assert Smaller(v + inv.cfg.staleness, b) == b && v <= b;
      forall i | 0 <= i < e && es[i].Reserved?
        ensures false
      {
        assert Used(inv, b, i);
        assert es[i].info.prompt != prompt;
        assert Movable(inv, es[i], prompt, b);
      }
    }
  }

  /** Emptying the first reserved slot of a buffer, or a surplus slot. */
  lemma VacateKeepsInv(inv: Inventory, b: nat, e: nat)
    requires Inv(inv) && In(inv, b, e) && inv.buffers[b][e].Reserved?
    requires forall i :: 0 <= i < e && i < inv.cfg.ready ==> !inv.buffers[b][i].Reserved?
    ensures Inv(Vacate(inv, b, e))
  {
    var es := inv.buffers[b];
    assert Used(inv, b, e);
    GapKeepsShape(es, inv.cfg.ready, e);
    VacateTracks(inv, b, e);
    EditAdmissible(inv, b, e, Empty);
    SwapKeepsSound(inv, b, es[e := Empty], Vacate(inv, b, e));
  }

  /** Overwriting a reservation by one that is admissible there. */
  lemma CopyKeepsSound(inv: Inventory, b: nat, e: nat, x: nat, f: nat)
    requires Sound(inv) && In(inv, b, e) && In(inv, x, f)
    requires inv.buffers[b][e].Reserved? && inv.buffers[x][f].Reserved?
    requires b <= Version(inv.buffers[x][f].info) + inv.cfg.staleness
    ensures Sound(inv.(buffers := Copied(inv, b, e, x, f)))
  {
    var es, es' := inv.buffers[b], Copied(inv, b, e, x, f)[b];
    assert Used(inv, x, f) && Used(inv, b, e);
    SameCategories(es, es', inv.cfg.ready);
    EditAdmissible(inv, b, e, inv.buffers[x][f]);
    SwapKeepsSound(inv, b, es', inv.(buffers := Copied(inv, b, e, x, f)));
  }

  lemma ReleaseExchanging(inv: Inventory, prompt: nat, x: nat, f: nat)
    requires Inv(inv) && IsReserved(inv, prompt) && FindExchange(inv, prompt) == Some((x, f))
    ensures Inv(ReleaseMoving(inv, prompt))
  {
    var b: nat, e: nat := BufferOf(inv, prompt), EntryOf(inv, prompt);
    var inv1 := ReleaseMoving(inv, prompt);
    var mid := Copied(inv, b, e, x, f);
    var invM := inv.(buffers := mid);
    assert Used(inv, x, f) && Used(inv, b, e);
    CopyKeepsSound(inv, b, e, x, f);
    ReleaseSlots(inv, prompt, x, f);
    ReleaseGroups(inv, prompt);
    RemovalKeepsSound(invM, x, f, inv1);
  }

  lemma ReleaseKeepsInv(inv: Inventory, prompt: nat)
    requires Inv(inv) && IsReserved(inv, prompt)
    ensures Inv(ReleaseMoving(inv, prompt)) && Groups(ReleaseMoving(inv, prompt)) == Groups(inv) - {prompt}
  {
    ReleaseGroups(inv, prompt);
    match FindExchange(inv, prompt)
    case None =>
      NothingBefore(inv, prompt);
      VacateKeepsInv(inv, BufferOf(inv, prompt), EntryOf(inv, prompt));
    case Some((x, f)) =>
      ReleaseExchanging(inv, prompt, x, f);
  }

  /** Copying a reservation over (b, e) and taking it out of x frees room in x alone. */
  lemma ExchangeRoom(buffers: map<nat, seq<Slot>>, mid: map<nat, seq<Slot>>, ready: nat, b: nat, x: nat, f: nat, y: nat)
    requires b in buffers && x in buffers && y in buffers && b in mid && mid == buffers[b := mid[b]]
    requires |mid[b]| == |buffers[b]| && ready <= |mid[x]| && Shape(mid[x], ready) && f < |mid[x]| && mid[x][f].Reserved?
    requires forall i :: 0 <= i < |mid[b]| ==>
      (mid[b][i].Empty? <==> buffers[b][i].Empty?) && (mid[b][i].Reserved? <==> buffers[b][i].Reserved?)
    ensures var after := mid[x := WithoutReserved(mid[x], f)];
            && FirstNonOccupied(after[y]) == FirstNonOccupied(buffers[y])
            && (HasEmpty(after[y]) <==> HasEmpty(buffers[y]) || y == x)
  {
    SameCategories(buffers[b], mid[b], ready);
    SameEmpties(buffers[b], mid[b]);
    RemovalKeepsShape(mid[x], ready, f);
  }

  lemma CopiedShape(inv: Inventory, b: nat, e: nat, x: nat, f: nat)
    requires Sized(inv) && Shaped(inv) && In(inv, b, e) && In(inv, x, f)
    requires inv.buffers[b][e].Reserved? && inv.buffers[x][f].Reserved?
    ensures var mid := Copied(inv, b, e, x, f); inv.cfg.ready <= |mid[x]| && Shape(mid[x], inv.cfg.ready)
  {
    SameCategories(inv.buffers[b], Copied(inv, b, e, x, f)[b], inv.cfg.ready);
  }

  lemma ExchangedRoom(inv: Inventory, prompt: nat, x: nat, f: nat, y: nat)
    requires Inv(inv) && IsReserved(inv, prompt) && FindExchange(inv, prompt) == Some((x, f)) && y in inv.buffers
    ensures var after := ReleaseMoving(inv, prompt).buffers;
            && y in after && FirstNonOccupied(after[y]) == FirstNonOccupied(inv.buffers[y])
            && (HasEmpty(after[y]) <==> HasEmpty(inv.buffers[y]) || y == x)
  {
    var b: nat, e: nat := BufferOf(inv, prompt), EntryOf(inv, prompt);
    var mid := Copied(inv, b, e, x, f);
    ReleaseSlots(inv, prompt, x, f);
    CopiedShape(inv, b, e, x, f);
    ExchangeRoom(inv.buffers, mid, inv.cfg.ready, b, x, f, y);
  }

  /** A release moves no occupied slot and frees room in exactly one buffer. */
  lemma ReleaseRoom(inv: Inventory, prompt: nat, y: nat)
    requires Inv(inv) && IsReserved(inv, prompt) && y in inv.buffers
    ensures var after := ReleaseMoving(inv, prompt).buffers;
            && y in after
            && FirstNonOccupied(after[y]) == FirstNonOccupied(inv.buffers[y])
            && (HasEmpty(after[y]) <==> HasEmpty(inv.buffers[y]) || y == Freed(inv, prompt))
  {
    match FindExchange(inv, prompt)
    case None =>
      var b: nat, e: nat := BufferOf(inv, prompt), EntryOf(inv, prompt);
      NothingBefore(inv, prompt);
      GapKeepsShape(inv.buffers[b], inv.cfg.ready, e);
    case Some((x, f)) => ExchangedRoom(inv, prompt, x, f, y);
  }

  lemma SameEmpties(es: seq<Slot>, es': seq<Slot>)
    requires |es| == |es'| && forall i :: 0 <= i < |es| ==> (es[i].Empty? <==> es'[i].Empty?)
    ensures HasEmpty(es) <==> HasEmpty(es')
  {
  }

  // ---- Occupy ----

  /** Buffers of the window whose batch is incomplete and that have room. */
  function Openings(inv: Inventory, v: int): set<nat>
    requires Fits(inv)
  {
    set b | b in WithCapacity(inv) && v <= b <= v + inv.cfg.staleness
            && FirstNonOccupied(inv.buffers[b]) < inv.cfg.ready
  }

  /** Buffers of the window whose batch is incomplete. */
  function Unfinished(inv: Inventory, v: int): set<nat>
    requires Fits(inv)
  {
    set b | b in inv.buffers && !IsReady(Status(inv.buffers[b], inv.cfg.ready)) && v <= b <= v + inv.cfg.staleness
            && FirstNonOccupied(inv.buffers[b]) < inv.cfg.ready
  }

  /** Unmarked buffers with room before t. */
  function Below(inv: Inventory, t: nat): set<nat>
    requires Fits(inv)
  {
    set y | y in WithCapacity(inv) && y < t && y !in inv.marked
  }

  /** The end of t's prefix is empty, or its reservation can retreat to an earlier buffer. */
  predicate Usable(inv: Inventory, t: nat)
    requires Fits(inv)
  {
    && t in inv.buffers && FirstNonOccupied(inv.buffers[t]) < |inv.buffers[t]|
    && (inv.buffers[t][FirstNonOccupied(inv.buffers[t])].Empty? || Below(inv, t) != {})
  }

  /** The sanity check made before anything is changed; its window reaches further back than the candidates do. */
  predicate HasTarget(inv: Inventory, v: int) {
    exists b :: b in inv.buffers && v - inv.cfg.staleness <= b <= v + inv.cfg.staleness
                && FirstNonOccupied(inv.buffers[b]) < inv.cfg.ready
  }

  /** Put a finished group at the end of t's prefix, moving a reservation out of the way if needed. */
  function Settle(inv: Inventory, t: nat, info: Info): Result<Inventory>
    requires Fits(inv) && Usable(inv, t)
  {
    var k := FirstNonOccupied(inv.buffers[t]);
    if inv.buffers[t][k].Empty? then Ok(Place(inv, t, k, Occupied(info)))
    else
      var x := MaxOf(Below(inv, t));
      var l := LastNonReserved(inv.buffers[x]);
      if l < 0 || !inv.buffers[x][l].Empty? then Raised
      else Ok(Place(Relocate(inv, t, k, x, l), t, k, Occupied(info)))
  }

  datatype Landing = Landing(inv: Inventory, buffer: nat, entry: nat)

  /**
   Occupy a reserved prompt. A reservation inside the batch part of its buffer goes to the earliest
   opening. A surplus reservation goes to the first usable buffer in the iteration order of a set:
   `choice` is where that iteration stops, and no usable buffer means an exception.
   */
  function Occupy(inv: Inventory, prompt: nat, choice: nat): Result<Landing>
    requires Inv(inv) && IsReserved(inv, prompt)
  {
    var b: nat, e: nat := BufferOf(inv, prompt), EntryOf(inv, prompt);
    var info := inv.buffers[b][e].info;
    var v := Version(info);
    if !HasTarget(inv, v) then Raised
    else
      var inv1 := ReleaseMoving(inv, prompt);
      ReleaseKeepsInv(inv, prompt);
      if e < inv.cfg.ready then
        var openings := Openings(inv1, v);
        if openings == {} then Raised
        else Settled(inv1, MinOf(openings), info)
      else if choice in Unfinished(inv1, v) && Usable(inv1, choice) then Settled(inv1, choice, info)
      else Raised
  }

  function Settled(inv: Inventory, t: nat, info: Info): Result<Landing>
    requires Fits(inv) && t in inv.buffers
  {
    if !Usable(inv, t) then Raised
    else
      match Settle(inv, t, info)
      case Raised => Raised
      case Ok(inv1) => Ok(Landing(inv1, t, FirstNonOccupied(inv.buffers[t])))
  }

  lemma PlaceKeepsInv(inv: Inventory, t: nat, info: Info)
    requires Inv(inv) && t in inv.buffers && FirstNonOccupied(inv.buffers[t]) < inv.cfg.ready
    requires inv.buffers[t][FirstNonOccupied(inv.buffers[t])].Empty?
    requires info.prompt !in inv.tracker && Admissible(inv, t, info)
    ensures Inv(Place(inv, t, FirstNonOccupied(inv.buffers[t]), Occupied(info)))
  {
    var es := inv.buffers[t];
    var k := FirstNonOccupied(es);
    OccupyKeepsShape(es, inv.cfg.ready, info);
    PlaceTracks(inv, t, k, Occupied(info));
    EditAdmissible(inv, t, k, Occupied(info));
    SwapKeepsSound(inv, t, es[k := Occupied(info)], Place(inv, t, k, Occupied(info)));
  }

  /** A reservation at the end of an incomplete prefix retreats into earlier room. */
  lemma RetreatKeepsInv(inv: Inventory, t: nat, x: nat)
    requires Inv(inv) && t in inv.buffers && FirstNonOccupied(inv.buffers[t]) < inv.cfg.ready
    requires inv.buffers[t][FirstNonOccupied(inv.buffers[t])].Reserved?
    requires x in inv.buffers && x < t && x !in inv.marked && HasEmpty(inv.buffers[x])
    ensures var k := FirstNonOccupied(inv.buffers[t]); var l := LastNonReserved(inv.buffers[x]);
            0 <= l && inv.buffers[x][l].Empty? && Inv(Place(Vacate(inv, t, k), x, l, inv.buffers[t][k]))
  {
    var k := FirstNonOccupied(inv.buffers[t]);
    var moved := inv.buffers[t][k].info;
    assert Used(inv, t, k);
    VacateKeepsInv(inv, t, k);
    ReservePlaceKeepsInv(Vacate(inv, t, k), x, moved);
  }

  lemma Retreated(inv: Inventory, t: nat, k: nat, x: nat, l: nat, inv1: Inventory)
    requires Inv(inv) && Used(inv, t, k) && FirstNonOccupied(inv.buffers[t]) == k && In(inv, x, l) && x < t
    requires inv1 == Relocate(inv, t, k, x, l)
    ensures t in inv1.buffers && FirstNonOccupied(inv1.buffers[t]) == k < |inv1.buffers[t]| && inv1.buffers[t][k].Empty?
    ensures inv1.cfg == inv.cfg && inv1.version == inv.version && inv1.tracker.Keys == inv.tracker.Keys
  {
    assert inv1.buffers[t] == inv.buffers[t][k := Empty];
    PrefixLength(inv1.buffers[t], k);
    assert inv.buffers[t][k].info.prompt in inv.tracker;
  }

  /** The group takes the slot the retreating reservation left. */
  lemma TakeOverKeepsInv(inv: Inventory, t: nat, x: nat, info: Info)
    requires Inv(inv) && t in inv.buffers && FirstNonOccupied(inv.buffers[t]) < inv.cfg.ready
    requires inv.buffers[t][FirstNonOccupied(inv.buffers[t])].Reserved?
    requires x in inv.buffers && x < t && x !in inv.marked && HasEmpty(inv.buffers[x])
    requires info.prompt !in inv.tracker && Admissible(inv, t, info)
    ensures var k := FirstNonOccupied(inv.buffers[t]); var l := LastNonReserved(inv.buffers[x]);
            && 0 <= l && inv.buffers[x][l].Empty?
            && Inv(Place(Relocate(inv, t, k, x, l), t, k, Occupied(info)))
            && Groups(Place(Relocate(inv, t, k, x, l), t, k, Occupied(info))) == Groups(inv)[info.prompt := Occupied(info)]
  {
    var k := FirstNonOccupied(inv.buffers[t]);
    var l := LastNonReserved(inv.buffers[x]);
    RetreatKeepsInv(inv, t, x);
    MoveIsVacateThenPlace(inv, t, k, x, l);
    var inv1 := Relocate(inv, t, k, x, l);
    Retreated(inv, t, k, x, l, inv1);
    PlaceKeepsInv(inv1, t, info);
    RelocateGroups(inv, t, k, x, l);
    PlaceGroups(inv1, t, k, Occupied(info));
  }

  /** Settling always succeeds and leaves the group occupied at the end of t's prefix. */
  lemma SettleKeepsInv(inv: Inventory, t: nat, info: Info)
    requires Inv(inv) && t in inv.buffers && FirstNonOccupied(inv.buffers[t]) < inv.cfg.ready
    requires Usable(inv, t) && info.prompt !in inv.tracker && Admissible(inv, t, info)
    ensures Settle(inv, t, info).Ok? && Inv(Settle(inv, t, info).value)
    ensures var inv1 := Settle(inv, t, info).value; var k := FirstNonOccupied(inv.buffers[t]);
            && Groups(inv1) == Groups(inv)[info.prompt := Occupied(info)]
            && info.prompt in inv1.tracker && inv1.tracker[info.prompt] == (t, k)
  {
    if inv.buffers[t][FirstNonOccupied(inv.buffers[t])].Empty? {
      PlaceKeepsInv(inv, t, info);
      PlaceGroups(inv, t, FirstNonOccupied(inv.buffers[t]), Occupied(info));
    } else {
      var x := MaxOf(Below(inv, t));
      RoomMeansCapacity(inv, x);
      TakeOverKeepsInv(inv, t, x, info);
    }
  }

  // ---- What Occupy guarantees ----

  /** After a release, room at the end of a prefix is what makes a buffer an opening. */
  lemma OpeningMeaning(inv: Inventory, v: int, t: nat)
    requires Inv(inv)
    ensures t in Openings(inv, v) <==>
      t in inv.buffers && HasEmpty(inv.buffers[t]) && v <= t <= v + inv.cfg.staleness
      && FirstNonOccupied(inv.buffers[t]) < inv.cfg.ready
    ensures t in Openings(inv, v) ==> inv.buffers[t][FirstNonOccupied(inv.buffers[t])].Empty?
  {
    if t in inv.buffers {
      StatusMeaning(inv.buffers[t], inv.cfg.ready);
      if HasEmpty(inv.buffers[t]) && FirstNonOccupied(inv.buffers[t]) < inv.cfg.ready {
        RoomAtFront(inv.buffers[t], inv.cfg.ready);
      }
    }
  }

  /**
   What a successful Occupy establishes: the group is occupied in the batch part of a buffer inside
   its staleness window, and no other group changes.
   */
  ghost predicate Lands(inv: Inventory, prompt: nat, r: Result<Landing>)
    requires Inv(inv) && IsReserved(inv, prompt)
  {
    var info := InfoOf(inv, prompt);
    && r.Ok? && Inv(r.value.inv)
    && Groups(r.value.inv) == Groups(inv)[prompt := Occupied(info)]
    && prompt in r.value.inv.tracker && r.value.inv.tracker[prompt] == (r.value.buffer, r.value.entry)
    && r.value.entry < inv.cfg.ready
    && Version(info) <= r.value.buffer <= Version(info) + inv.cfg.staleness
  }

  /** Settling a released group lands it. */
  lemma SettledLands(inv: Inventory, prompt: nat, inv1: Inventory, t: nat)
    requires Inv(inv) && IsReserved(inv, prompt) && inv1 == ReleaseMoving(inv, prompt)
    requires Inv(inv1) && t in inv1.buffers && FirstNonOccupied(inv1.buffers[t]) < inv.cfg.ready && Usable(inv1, t)
    requires Version(InfoOf(inv, prompt)) <= t <= Version(InfoOf(inv, prompt)) + inv.cfg.staleness
    ensures Lands(inv, prompt, Settled(inv1, t, InfoOf(inv, prompt)))
    ensures Settled(inv1, t, InfoOf(inv, prompt)).value.buffer == t
  {
    var info := InfoOf(inv, prompt);
    assert Used(inv, BufferOf(inv, prompt), EntryOf(inv, prompt));
    ReleaseGroups(inv, prompt);
    ReleaseFrame(inv, prompt);
    assert info.prompt == prompt && prompt !in Groups(inv1);
    SettleKeepsInv(inv1, t, info);
    var settled := Settle(inv1, t, info).value;
    assert Groups(settled) == Groups(inv1)[prompt := Occupied(info)];
    PutBack(Groups(inv1), Groups(inv), prompt, Occupied(info));
    assert Groups(settled) == Groups(inv)[prompt := Occupied(info)];
    LandsBySettle(inv, prompt, inv1, t);
  }

  /** What settling establishes, put together. */
  lemma LandsBySettle(inv: Inventory, prompt: nat, inv1: Inventory, t: nat)
    requires Inv(inv) && IsReserved(inv, prompt) && Fits(inv1) && Usable(inv1, t)
    requires var info := InfoOf(inv, prompt); var r := Settle(inv1, t, info); var k := FirstNonOccupied(inv1.buffers[t]);
      && r.Ok? && Inv(r.value) && Groups(r.value) == Groups(inv)[prompt := Occupied(info)]
      && prompt in r.value.tracker && r.value.tracker[prompt] == (t, k) && k < inv.cfg.ready
      && Version(info) <= t <= Version(info) + inv.cfg.staleness
    ensures Lands(inv, prompt, Settled(inv1, t, InfoOf(inv, prompt)))
    ensures Settled(inv1, t, InfoOf(inv, prompt)).value.buffer == t
  {
  }

  lemma PutBack(without: map<nat, Slot>, groups: map<nat, Slot>, prompt: nat, slot: Slot)
    requires without == groups - {prompt}
    ensures without[prompt := slot] == groups[prompt := slot]
  {
  }

  lemma ReleaseFrame(inv: Inventory, prompt: nat)
    requires Inv(inv) && IsReserved(inv, prompt)
    ensures var inv1 := ReleaseMoving(inv, prompt);
            && inv1.cfg == inv.cfg && inv1.version == inv.version && inv1.marked == inv.marked
            && inv1.buffers.Keys == inv.buffers.Keys
  {
    if FindExchange(inv, prompt).Some? {
      var (x, f) := FindExchange(inv, prompt).value;
      ReleaseSlots(inv, prompt, x, f);
    }
  }

  lemma BatchWindow(inv: Inventory, prompt: nat)
    requires Inv(inv) && IsReserved(inv, prompt) && EntryOf(inv, prompt) < inv.cfg.ready
    ensures var b, v := BufferOf(inv, prompt), Version(InfoOf(inv, prompt));
            FirstNonOccupied(inv.buffers[b]) < inv.cfg.ready && v <= b <= v + inv.cfg.staleness && HasTarget(inv, v)
  {
    var b: nat, e: nat := BufferOf(inv, prompt), EntryOf(inv, prompt);
    assert Used(inv, b, e);
    assert FirstNonOccupied(inv.buffers[b]) < inv.cfg.ready;
  }

  lemma FreedWindow(inv: Inventory, prompt: nat, v: int)
    requires Inv(inv) && IsReserved(inv, prompt) && EntryOf(inv, prompt) < inv.cfg.ready && v == Version(InfoOf(inv, prompt))
    ensures var h := Freed(inv, prompt);
            h in inv.buffers && v <= h <= BufferOf(inv, prompt) && FirstNonOccupied(inv.buffers[h]) < inv.cfg.ready
  {
    BatchWindow(inv, prompt);
  }

  /** Releasing a batch reservation leaves an opening no later than it was. */
  lemma BatchOpening(inv: Inventory, prompt: nat)
    requires Inv(inv) && IsReserved(inv, prompt) && EntryOf(inv, prompt) < inv.cfg.ready
    ensures var inv1 := ReleaseMoving(inv, prompt); var v := Version(InfoOf(inv, prompt));
            && HasTarget(inv, v) && Inv(inv1) && Openings(inv1, v) != {}
            && MinOf(Openings(inv1, v)) <= BufferOf(inv, prompt)
  {
    var v := Version(InfoOf(inv, prompt));
    var h := Freed(inv, prompt);
    BatchWindow(inv, prompt);
    FreedWindow(inv, prompt, v);
    ReleaseKeepsInv(inv, prompt);
    ReleaseFrame(inv, prompt);
    ReleaseRoom(inv, prompt, h);
    OpeningMeaning(ReleaseMoving(inv, prompt), v, h);
  }

  lemma BatchLanding(inv: Inventory, prompt: nat, inv1: Inventory, t: nat)
    requires Inv(inv) && IsReserved(inv, prompt) && inv1 == ReleaseMoving(inv, prompt) && Inv(inv1)
    requires t in Openings(inv1, Version(InfoOf(inv, prompt)))
    ensures Lands(inv, prompt, Settled(inv1, t, InfoOf(inv, prompt)))
    ensures Settled(inv1, t, InfoOf(inv, prompt)).value.buffer == t
  {
    ReleaseFrame(inv, prompt);
    OpeningMeaning(inv1, Version(InfoOf(inv, prompt)), t);
    SettledLands(inv, prompt, inv1, t);
  }

  /** A reservation in the batch part of a buffer can always be occupied, in no later a buffer. */
  lemma BatchOccupyNeverLater(inv: Inventory, prompt: nat, choice: nat)
    requires Inv(inv) && IsReserved(inv, prompt) && EntryOf(inv, prompt) < inv.cfg.ready
    ensures Lands(inv, prompt, Occupy(inv, prompt, choice))
    ensures Occupy(inv, prompt, choice).value.buffer <= BufferOf(inv, prompt)
  {
    BatchOpening(inv, prompt);
    var inv1 := ReleaseMoving(inv, prompt);
    var t := MinOf(Openings(inv1, Version(InfoOf(inv, prompt))));
    BatchLanding(inv, prompt, inv1, t);
    BatchOccupyIs(inv, prompt, choice, inv1, t);
  }

  /** A batch reservation is settled in the earliest opening its release leaves. */
  lemma BatchOccupyIs(inv: Inventory, prompt: nat, choice: nat, inv1: Inventory, t: nat)
    requires Inv(inv) && IsReserved(inv, prompt) && EntryOf(inv, prompt) < inv.cfg.ready
    requires inv1 == ReleaseMoving(inv, prompt) && Fits(inv1) && HasTarget(inv, Version(InfoOf(inv, prompt)))
    requires var openings := Openings(inv1, Version(InfoOf(inv, prompt))); openings != {} && t == MinOf(openings)
    ensures Occupy(inv, prompt, choice) == Settled(inv1, t, InfoOf(inv, prompt))
  {
  }

  /** Settling where the end of the prefix is empty. */
  lemma SettledEmpty(inv: Inventory, t: nat, k: nat, info: Info)
    requires Fits(inv) && t in inv.buffers && FirstNonOccupied(inv.buffers[t]) == k
    requires k < |inv.buffers[t]| && inv.buffers[t][k].Empty?
    ensures Settled(inv, t, info) == Ok(Landing(Place(inv, t, k, Occupied(info)), t, k))
  {
  }

  // ---- Surplus reservations ----

  predicate RoomBefore(inv: Inventory, t: nat) {
    exists y :: y in inv.buffers && y < t && y !in inv.marked && HasEmpty(inv.buffers[y])
  }

  /**
   Buffer t can take the finished surplus group `prompt`: its batch is incomplete, it is in the
   window, and there is room in it, or unmarked room before it, once the reservation is released.
   */
  predicate Takes(inv: Inventory, prompt: nat, t: nat)
    requires Tracked(inv) && IsReserved(inv, prompt)
  {
    var v := Version(InfoOf(inv, prompt));
    && t in inv.buffers && v <= t <= v + inv.cfg.staleness && FirstNonOccupied(inv.buffers[t]) < inv.cfg.ready
    && (HasEmpty(inv.buffers[t]) || RoomBefore(inv, t) || Freed(inv, prompt) <= t)
  }

  lemma UnfinishedMeaning(inv: Inventory, v: int, t: nat)
    requires Inv(inv)
    ensures t in Unfinished(inv, v) <==>
      t in inv.buffers && v <= t <= v + inv.cfg.staleness && FirstNonOccupied(inv.buffers[t]) < inv.cfg.ready
  {
    if t in inv.buffers {
      StatusMeaning(inv.buffers[t], inv.cfg.ready);
    }
  }

  lemma UsableMeaning(inv: Inventory, t: nat)
    requires Inv(inv) && t in inv.buffers && FirstNonOccupied(inv.buffers[t]) < inv.cfg.ready
    ensures Usable(inv, t) <==> HasEmpty(inv.buffers[t]) || RoomBefore(inv, t)
  {
    if HasEmpty(inv.buffers[t]) {
      RoomAtFront(inv.buffers[t], inv.cfg.ready);
    }
    if y :| y in inv.buffers && y < t && y !in inv.marked && HasEmpty(inv.buffers[y]) {
      RoomMeansCapacity(inv, y);
      assert y in Below(inv, t);
    }
    if Below(inv, t) != {} {
      var y := MaxOf(Below(inv, t));
      RoomMeansCapacity(inv, y);
    }
  }

  lemma RoomRemains(inv: Inventory, prompt: nat, inv1: Inventory, t: nat)
    requires Inv(inv) && IsReserved(inv, prompt) && inv1 == ReleaseMoving(inv, prompt) && inv1.marked == inv.marked
    requires RoomBefore(inv, t)
    ensures RoomBefore(inv1, t)
  {
    var y :| y in inv.buffers && y < t && y !in inv.marked && HasEmpty(inv.buffers[y]);
    ReleaseRoom(inv, prompt, y);
  }

  lemma RoomBeforeRelease(inv: Inventory, prompt: nat, inv1: Inventory, t: nat)
    requires Inv(inv) && IsReserved(inv, prompt) && inv1 == ReleaseMoving(inv, prompt) && inv1.marked == inv.marked
    requires inv1.buffers.Keys == inv.buffers.Keys && RoomBefore(inv1, t)
    ensures RoomBefore(inv, t) || (Freed(inv, prompt) < t && Freed(inv, prompt) !in inv.marked)
  {
    var y :| y in inv1.buffers && y < t && y !in inv1.marked && HasEmpty(inv1.buffers[y]);
    ReleaseRoom(inv, prompt, y);
  }

  /** Room before t after the release is room before t, or the slot that was freed. */
  lemma RoomAfterRelease(inv: Inventory, prompt: nat, t: nat)
    requires Inv(inv) && IsReserved(inv, prompt)
    ensures RoomBefore(ReleaseMoving(inv, prompt), t) <==>
      RoomBefore(inv, t) || (Freed(inv, prompt) < t && Freed(inv, prompt) !in inv.marked)
  {
    var inv1 := ReleaseMoving(inv, prompt);
    ReleaseFrame(inv, prompt);
    ReleaseRoom(inv, prompt, Freed(inv, prompt));
    if RoomBefore(inv, t) {
      RoomRemains(inv, prompt, inv1, t);
    }
    if RoomBefore(inv1, t) {
      RoomBeforeRelease(inv, prompt, inv1, t);
    }
  }

  /** The freed slot is never in a buffer that awaits deletion. */
  lemma FreedUnmarked(inv: Inventory, prompt: nat)
    requires Inv(inv) && IsReserved(inv, prompt)
    ensures Freed(inv, prompt) in inv.buffers && Freed(inv, prompt) !in inv.marked
    ensures Freed(inv, prompt) <= BufferOf(inv, prompt)
  {
    var b: nat, e: nat := BufferOf(inv, prompt), EntryOf(inv, prompt);
    assert HasReserved(inv.buffers[b]);
  }

  lemma UsableAfterRelease(inv: Inventory, prompt: nat, inv1: Inventory, t: nat)
    requires Inv(inv) && IsReserved(inv, prompt) && inv1 == ReleaseMoving(inv, prompt) && Inv(inv1)
    requires t in inv.buffers && t in inv1.buffers && inv1.cfg == inv.cfg
    requires FirstNonOccupied(inv1.buffers[t]) == FirstNonOccupied(inv.buffers[t]) < inv.cfg.ready
    ensures Usable(inv1, t) <==> HasEmpty(inv.buffers[t]) || RoomBefore(inv, t) || Freed(inv, prompt) <= t
  {
    ReleaseRoom(inv, prompt, t);
    FreedUnmarked(inv, prompt);
    UsableMeaning(inv1, t);
    RoomAfterRelease(inv, prompt, t);
  }

  /** A buffer takes the group exactly when it is an unfinished, usable buffer after the release. */
  lemma TakesMeaning(inv: Inventory, prompt: nat, inv1: Inventory, t: nat)
    requires Inv(inv) && IsReserved(inv, prompt) && inv1 == ReleaseMoving(inv, prompt) && Inv(inv1)
    ensures Takes(inv, prompt, t) <==> t in Unfinished(inv1, Version(InfoOf(inv, prompt))) && Usable(inv1, t)
  {
    ReleaseFrame(inv, prompt);
    UnfinishedMeaning(inv1, Version(InfoOf(inv, prompt)), t);
    if t in inv.buffers {
      ReleaseRoom(inv, prompt, t);
      if FirstNonOccupied(inv.buffers[t]) < inv.cfg.ready {
        UsableAfterRelease(inv, prompt, inv1, t);
      }
    }
  }

  /** A surplus reservation is settled where the iteration over the unfinished buffers stops. */
  lemma SurplusOccupyIs(inv: Inventory, prompt: nat, inv1: Inventory, t: nat)
    requires Inv(inv) && IsReserved(inv, prompt) && inv.cfg.ready <= EntryOf(inv, prompt)
    requires inv1 == ReleaseMoving(inv, prompt) && Inv(inv1) && HasTarget(inv, Version(InfoOf(inv, prompt)))
    ensures Occupy(inv, prompt, t) ==
      if t in Unfinished(inv1, Version(InfoOf(inv, prompt))) && Usable(inv1, t) then Settled(inv1, t, InfoOf(inv, prompt))
      else Raised
  {
  }

  lemma TakenLands(inv: Inventory, prompt: nat, inv1: Inventory, t: nat)
    requires Inv(inv) && IsReserved(inv, prompt) && inv.cfg.ready <= EntryOf(inv, prompt)
    requires inv1 == ReleaseMoving(inv, prompt) && Inv(inv1) && Takes(inv, prompt, t)
    ensures Occupy(inv, prompt, t) == Settled(inv1, t, InfoOf(inv, prompt))
    ensures Lands(inv, prompt, Occupy(inv, prompt, t)) && Occupy(inv, prompt, t).value.buffer == t
  {
    assert HasTarget(inv, Version(InfoOf(inv, prompt)));
    TakesMeaning(inv, prompt, inv1, t);
    SurplusOccupyIs(inv, prompt, inv1, t);
    ReleaseFrame(inv, prompt);
    ReleaseRoom(inv, prompt, t);
    SettledLands(inv, prompt, inv1, t);
  }

  /**
   A surplus reservation lands in buffer t exactly when t takes it. When no buffer does, every
   iteration order ends in the overflow branch, which raises.
   */
  lemma SurplusOccupyCondition(inv: Inventory, prompt: nat, t: nat)
    requires Inv(inv) && IsReserved(inv, prompt) && inv.cfg.ready <= EntryOf(inv, prompt)
    ensures Occupy(inv, prompt, t).Ok? <==> Takes(inv, prompt, t)
    ensures Takes(inv, prompt, t) ==>
      Lands(inv, prompt, Occupy(inv, prompt, t)) && Occupy(inv, prompt, t).value.buffer == t
  {
    var inv1 := ReleaseMoving(inv, prompt);
    ReleaseKeepsInv(inv, prompt);
    if Takes(inv, prompt, t) {
      TakenLands(inv, prompt, inv1, t);
    } else if HasTarget(inv, Version(InfoOf(inv, prompt))) {
      TakesMeaning(inv, prompt, inv1, t);
      SurplusOccupyIs(inv, prompt, inv1, t);
    }
  }
}
