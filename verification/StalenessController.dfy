/**
 The inventory as the object that updates itself in place, with buffer ids cached by status.
 Every method is tied to the function of the same purpose on inventory values.
 */
module StalenessController {
  import opened Common
  import opened EntryInfo
  import opened StalenessBuffer
  import opened StalenessInventory
  import opened StalenessOccupy
  import opened StalenessProtocol

  // ---- Scans over one buffer ----

  method ScanFirstNonOccupied(es: seq<Slot>) returns (k: nat)
    ensures k == FirstNonOccupied(es)
  {
    k := 0;
    while k < |es|
      invariant k <= |es| && forall i :: 0 <= i < k ==> es[i].Occupied?
    {
      if !es[k].Occupied? {
        PrefixLength(es, k);
        return;
      }
      k := k + 1;
    }
    PrefixLength(es, k);
  }

  method ScanLastNonReserved(es: seq<Slot>) returns (k: int)
    ensures k == LastNonReserved(es)
  {
    k := |es| - 1;
    while 0 <= k
      invariant -1 <= k < |es| && forall i :: k < i < |es| ==> es[i].Reserved?
    {
      if !es[k].Reserved? {
        SuffixStart(es, k);
        return;
      }
      k := k - 1;
    }
    SuffixStart(es, k);
  }

  /** Find the first movable reservation of the not-ready buffers low .. high. */
  method SearchExchange(inv: Inventory, low: int, high: int, prompt: nat, b: nat, e: nat) returns (r: Option<(nat, nat)>)
    requires In(inv, b, e)
    ensures r == ScanBuffers(inv, low, high, prompt, b, e)
  {
    var x := low;
    while x <= high
      invariant ScanBuffers(inv, low, high, prompt, b, e) == ScanBuffers(inv, x, high, prompt, b, e)
      decreases high - x
    {
      if x in inv.buffers {
        var first := ScanFirstNonOccupied(inv.buffers[x]);
        if first != inv.cfg.ready {
          var limit, f := Limit(inv, x, b, e), 0;
          while f < limit
            invariant f <= limit
            invariant ScanSlots(inv, inv.buffers[x], 0, limit, prompt, b) == ScanSlots(inv, inv.buffers[x], f, limit, prompt, b)
          {
            if Movable(inv, inv.buffers[x][f], prompt, b) {
              return Some((x, f));
            }
            f := f + 1;
          }
        }
      }
      x := x + 1;
    }
    r := None;
  }

  /** The elements of a group field that belong to surviving requests. */
  method KeepSurvivors<T>(requests: seq<int>, gone: set<int>, xs: seq<T>) returns (ys: seq<T>)
    requires |requests| <= |xs|
    ensures ys == Surviving(requests, gone, xs)
  {
    ys := [];
    var i := 0;
    while i < |requests|
      invariant i <= |requests|
      invariant ys + Surviving(requests[i..], gone, xs[i..]) == Surviving(requests, gone, xs)
    {
      SurvivingStep(requests[i..], gone, xs[i..], ys);
      assert requests[i..][1..] == requests[i + 1..] && xs[i..][1..] == xs[i + 1..];
      if requests[i] !in gone {
        ys := ys + [xs[i]];
      }
      i := i + 1;
    }
  }

  lemma SurvivingStep<T>(requests: seq<int>, gone: set<int>, xs: seq<T>, ys: seq<T>)
    requires requests != [] && |requests| <= |xs|
    ensures ys + Surviving(requests, gone, xs) ==
      (if requests[0] in gone then ys else ys + [xs[0]]) + Surviving(requests[1..], gone, xs[1..])
  {
  }

  method KeepField<T>(requests: seq<int>, gone: set<int>, field: OneOrMany<T>) returns (kept: OneOrMany<T>)
    requires field.Many? ==> |requests| <= |field.values|
    ensures kept == Filtered(requests, gone, field)
  {
    match field
    case One(_) => kept := field;
    case Many(xs) =>
      var ys := KeepSurvivors(requests, gone, xs);
      kept := Many(ys);
  }

  /** The reservation that may take over the slot of a group. */
  method SearchExchangeFor(inv: Inventory, prompt: nat) returns (r: Option<(nat, nat)>)
    requires prompt in inv.tracker && Used(inv, BufferOf(inv, prompt), EntryOf(inv, prompt))
    ensures r == FindExchange(inv, prompt)
  {
    var b: nat, e: nat := BufferOf(inv, prompt), EntryOf(inv, prompt);
    var v := Version(inv.buffers[b][e].info);
    r := SearchExchange(inv, v, Smaller(v + inv.cfg.staleness, b), prompt, b, e);
  }

  // ---- The status cache ----

  /** Buffer ids by status. */
  datatype StatusIndex = StatusIndex(ready: set<nat>, stuck: set<nat>, pending: set<nat>, roomy: set<nat>) {

    function Without(b: nat): StatusIndex {
      if b in ready then this.(ready := ready - {b})
      else if b in stuck then this.(stuck := stuck - {b})
      else if b in pending then this.(pending := pending - {b})
      else this.(roomy := roomy - {b})
    }

    function With(b: nat, st: BufferStatus): StatusIndex {
      match st
      case Ready => this.(ready := ready + {b})
      case Stuck => this.(stuck := stuck + {b})
      case Pending => this.(pending := pending + {b})
      case ReadyWithCapacity => this.(roomy := roomy + {b})
    }
  }

  function Having(buffers: map<nat, seq<Slot>>, ready: nat, st: BufferStatus): set<nat> {
    set b | b in buffers && ready <= |buffers[b]| && Status(buffers[b], ready) == st
  }

  /** The index recomputed from the slots. */
  function Indexed(buffers: map<nat, seq<Slot>>, ready: nat): StatusIndex {
    StatusIndex(Having(buffers, ready, Ready), Having(buffers, ready, Stuck),
                Having(buffers, ready, Pending), Having(buffers, ready, ReadyWithCapacity))
  }

  /** Moving one buffer between the sets is what recomputing the index after a change to it would do. */
  lemma IndexFollows(was: map<nat, seq<Slot>>, ready: nat, b: nat, es: seq<Slot>)
    requires ready <= |es|
    ensures Indexed(was, ready).Without(b).With(b, Status(es, ready)) == Indexed(was[b := es], ready)
  {
    HavingFollows(was, ready, b, es, Ready);
    HavingFollows(was, ready, b, es, Stuck);
    HavingFollows(was, ready, b, es, Pending);
    HavingFollows(was, ready, b, es, ReadyWithCapacity);
    ListedOnce(was, ready, b);
  }

  lemma HavingFollows(was: map<nat, seq<Slot>>, ready: nat, b: nat, es: seq<Slot>, st: BufferStatus)
    requires ready <= |es|
    ensures Having(was[b := es], ready, st) ==
      if Status(es, ready) == st then (Having(was, ready, st) - {b}) + {b} else Having(was, ready, st) - {b}
  {
  }

  lemma ListedOnce(was: map<nat, seq<Slot>>, ready: nat, b: nat)
    ensures var i := Indexed(was, ready);
            i.Without(b) == StatusIndex(i.ready - {b}, i.stuck - {b}, i.pending - {b}, i.roomy - {b})
  {
  }

  class Controller {
    const cfg: Config
    var next: nat
    var buffers: map<nat, seq<Slot>>
    var tracker: map<nat, (nat, nat)>
    var byStatus: StatusIndex
    var marked: set<nat>
    var version: nat

    function State(): Inventory
      reads this
    {
      Inventory(cfg, next, buffers, tracker, marked, version)
    }

    ghost predicate Valid()
      reads this
    {
      Inv(State()) && byStatus == Indexed(buffers, cfg.ready)
    }

    constructor (config: Config)
      requires 1 <= config.ready <= config.entries
      ensures Valid() && State() == Initial(config)
    {
      cfg := config;
      next, buffers, tracker, marked, version := 0, map[], map[], {}, 0;
      byStatus := StatusIndex({}, {}, {}, {});
      new;
      InitialInv(config);
    }

    method ComputeStatus(b: nat) returns (st: BufferStatus)
      requires b in buffers && cfg.ready <= |buffers[b]|
      ensures st == Status(buffers[b], cfg.ready)
    {
      var es := buffers[b];
      var first := ScanFirstNonOccupied(es);
      if first == cfg.ready {
        st := if HasEmpty(es[cfg.ready..]) then ReadyWithCapacity else Ready;
      } else {
        var last := ScanLastNonReserved(es);
        st := if first == last + 1 then Stuck else Pending;
      }
    }

    /** Refresh the cache entry of one buffer whose slots changed since the cache was right for `was`. */
    method RefreshEntry(b: nat, ghost was: map<nat, seq<Slot>>)
      requires b in buffers && cfg.ready <= |buffers[b]| && byStatus == Indexed(was, cfg.ready)
      modifies this`byStatus
      ensures byStatus == Indexed(was[b := buffers[b]], cfg.ready)
    {
      IndexFollows(was, cfg.ready, b, buffers[b]);
      var st := ComputeStatus(b);
      byStatus := byStatus.Without(b).With(b, st);
    }

    /** Refresh the cache after the slots of one buffer changed. */
    method RefreshStatus(b: nat, ghost was: map<nat, seq<Slot>>)
      requires b in buffers && cfg.ready <= |buffers[b]| && byStatus == Indexed(was, cfg.ready) && buffers == was[b := buffers[b]]
      modifies this`byStatus
      ensures byStatus == Indexed(buffers, cfg.ready)
    {
      RefreshEntry(b, was);
    }

    /** The cached answer to "which buffers have room" is the recomputed one. */
    method BuffersWithCapacity() returns (room: set<nat>)
      requires Fits(State()) && byStatus == Indexed(buffers, cfg.ready)
      ensures room == WithCapacity(State())
    {
      room := byStatus.pending + byStatus.roomy;
    }
  
    /** The unmarked buffers with room in the window that ends at `high`. */
    method RoomInWindow(high: int) returns (candidates: set<nat>)
      requires Fits(State()) && byStatus == Indexed(buffers, cfg.ready)
      ensures candidates == Candidates(State(), high - cfg.staleness, high)
    {
      var room := BuffersWithCapacity();
      candidates := set b | b in room && high - cfg.staleness <= b <= high && b !in marked;
    }

    /** Create the next buffer in sequence. */
    method CreateBuffer()
      requires cfg.ready <= cfg.entries && byStatus == Indexed(buffers, cfg.ready)
      modifies this`next, this`buffers, this`byStatus
      ensures next == old(next) + 1 && buffers == old(buffers)[old(next) := EmptyBuffer(cfg.entries)]
      ensures byStatus == Indexed(buffers, cfg.ready)
    {
      ghost var was := buffers;
      buffers := buffers[next := EmptyBuffer(cfg.entries)];
      RefreshStatus(next, was);
      next := next + 1;
    }

    /** Create one more of the buffers that are missing since `start`. */
    method CreateNext(ghost start: Inventory)
      requires Sized(start) && start.next <= next && State() == Ensure(start, next - 1) && byStatus == Indexed(buffers, cfg.ready)
      modifies this`next, this`buffers, this`byStatus
      ensures next == old(next) + 1 && State() == Ensure(start, next - 1) && byStatus == Indexed(buffers, cfg.ready)
    {
      ghost var inv := State();
      CreateBuffer();
      EnsureStep(start, inv, State());
    }

    /** Create the missing buffers up to id m, one after the other. */
    method EnsureBuffers(m: int)
      requires Sized(State()) && byStatus == Indexed(buffers, cfg.ready)
      modifies this`next, this`buffers, this`byStatus
      ensures State() == Ensure(old(State()), m) && byStatus == Indexed(buffers, cfg.ready)
    {
      ghost var start := State();
      while next <= m
        invariant start.next <= next && (next <= m + 1 || next == start.next)
        invariant State() == Ensure(start, next - 1)
        invariant byStatus == Indexed(buffers, cfg.ready)
        decreases m + 1 - next
      {
        CreateNext(start);
      }
    }

    /** Reserve the slot before the reserved suffix of the latest candidate. */
    method ReserveAmong(candidates: set<nat>, info: Info) returns (g: Grant)
      requires Fits(State()) && candidates <= buffers.Keys && byStatus == Indexed(buffers, cfg.ready)
      modifies this`buffers, this`tracker, this`byStatus
      ensures (State(), g) == ReserveIn(old(State()), candidates, info) && byStatus == Indexed(buffers, cfg.ready)
    {
      if candidates == {} {
        return Refused;
      }
      var b := MaxOf(candidates);
      var e := ScanLastNonReserved(buffers[b]);
      if e < 0 || !buffers[b][e].Empty? {
        return Failed;
      }
      ghost var was := buffers;
      PutSlot(b, e, Reserved(info));
      RefreshStatus(b, was);
      g := Granted(b, e);
    }

    /** Put a group into a slot and track it there. */
    method PutSlot(b: nat, e: nat, slot: Slot)
      requires In(State(), b, e) && !slot.Empty?
      modifies this`buffers, this`tracker
      ensures State() == Place(old(State()), b, e, slot)
    {
      buffers := buffers[b := buffers[b][e := slot]];
      tracker := tracker[slot.info.prompt := (b, e)];
    }

    /** Reserve in the buffers that exist; without a bound exactly one of them must have room. */
    method ReserveExisting(info: Info, high: int) returns (g: Grant)
      requires Fits(State()) && byStatus == Indexed(buffers, cfg.ready)
      modifies this`buffers, this`tracker, this`byStatus
      ensures (State(), g) == ReserveWithin(old(State()), info, high) && byStatus == Indexed(buffers, cfg.ready)
    {
      var candidates;
      if high == 0 {
        candidates := BuffersWithCapacity();
        if |candidates| != 1 {
          return Failed;
        }
      } else {
        candidates := RoomInWindow(high);
      }
      g := ReserveAmong(candidates, info);
    }

    /** Reserve a slot for a prompt that has none. */
    method ReserveSlot(info: Info, high: int) returns (g: Grant)
      requires Sized(State()) && byStatus == Indexed(buffers, cfg.ready)
      modifies this
      ensures (State(), g) == ReserveNew(old(State()), info, high) && byStatus == Indexed(buffers, cfg.ready)
    {
      EnsureFits(State(), high);
      EnsureBuffers(high);
      g := ReserveExisting(info, high);
    }

    /** Reserve a slot for a request, or join the reservation its prompt already has. */
    method Reserve(prompt: nat, request: int, ver: nat, inst: int, high: int,
                   ghost inv: Inventory, ghost outcome: (Inventory, Grant)) returns (g: Grant)
      requires inv == State() && Sized(inv) && Tracked(inv) && byStatus == Indexed(buffers, cfg.ready)
      requires outcome == ReserveData(inv, prompt, request, ver, inst, high)
      modifies this
      ensures State() == outcome.0 && g == outcome.1 && byStatus == Indexed(buffers, cfg.ready)
    {
      if prompt in tracker {
        var b, e := tracker[prompt].0, tracker[prompt].1;
        ghost var was := buffers;
        var slot := buffers[b][e];
        buffers := buffers[b := buffers[b][e := Relabel(slot, Join(slot.info, request, ver, inst, 1))]];
        SameStatus(was, cfg.ready, b, buffers[b]);
        g := Granted(b, e);
      } else {
        g := ReserveSlot(NewInfo(prompt, request, ver, inst), high);
      }
    }

    // ---- Clearing ----

    method VacateSlot(b: nat, e: nat)
      requires Used(State(), b, e)
      modifies this`buffers, this`tracker
      ensures State() == Vacate(old(State()), b, e)
    {
      tracker := tracker - {buffers[b][e].info.prompt};
      buffers := buffers[b := buffers[b][e := Empty]];
    }

    method MoveSlot(b: nat, e: nat, b2: nat, e2: nat)
      requires Used(State(), b, e) && In(State(), b2, e2)
      modifies this`buffers, this`tracker
      ensures State() == Relocate(old(State()), b, e, b2, e2)
    {
      var slot := buffers[b][e];
      buffers := buffers[b := buffers[b][e := Empty]];
      buffers := buffers[b2 := buffers[b2][e2 := slot]];
      tracker := tracker[slot.info.prompt := (b2, e2)];
    }

    method FillGap(b: nat, e: nat, last: nat)
      requires In(State(), b, e) && (e > last ==> Used(State(), b, last))
      modifies this`buffers, this`tracker
      ensures State() == CloseGap(old(State()), b, e, last)
    {
      if e > last {
        MoveSlot(b, last, b, e);
      }
    }

    /** Abort the reservation of a prompt; prompts without one are skipped. */
    method AbortReservation(prompt: nat)
      requires Sized(State()) && byStatus == Indexed(buffers, cfg.ready)
      requires prompt in tracker ==> Used(State(), BufferOf(State(), prompt), EntryOf(State(), prompt))
      modifies this`buffers, this`tracker, this`byStatus
      ensures State() == ClearReserved(old(State()), prompt) && byStatus == Indexed(buffers, cfg.ready)
    {
      if prompt !in tracker {
        return;
      }
      var b, e := tracker[prompt].0, tracker[prompt].1;
      ghost var inv := State();
      var last := ScanLastNonReserved(buffers[b]);
      VacateSlot(b, e);
      FillGap(b, e, last + 1);
      ClearTouches(inv, b, e, last + 1);
      RefreshStatus(b, inv.buffers);
    }

    /** Slot (b, e) is taken over by reservation (x, f), and the gap that leaves is closed. */
    method TakeOver(b: nat, e: nat, x: nat, f: nat, ghost inv: Inventory)
      requires inv == State() && Used(inv, b, e) && Used(inv, x, f) && (x, f) != (b, e)
      requires buffers[x][f].Reserved? && (x == b ==> f < e)
      modifies this`buffers, this`tracker
      ensures State() == Exchanged(inv, b, e, x, f)
      ensures b in buffers && x in buffers && |buffers[b]| == |inv.buffers[b]| && |buffers[x]| == |inv.buffers[x]|
      ensures buffers == inv.buffers[b := buffers[b]][x := buffers[x]]
    {
      var last := ScanLastNonReserved(buffers[x]);
      VacateSlot(b, e);
      MoveSlot(x, f, b, e);
      FillGap(x, f, last + 1);
      ExchangeTouches(inv, b, e, x, f);
    }

    method RefreshBoth(b: nat, x: nat, ghost was: map<nat, seq<Slot>>)
      requires b in buffers && x in buffers && cfg.ready <= |buffers[b]| && cfg.ready <= |buffers[x]|
      requires byStatus == Indexed(was, cfg.ready) && buffers == was[b := buffers[b]][x := buffers[x]]
      modifies this`byStatus
      ensures byStatus == Indexed(buffers, cfg.ready)
    {
      RefreshEntry(b, was);
      RefreshEntry(x, was[b := buffers[b]]);
    }

    /** Release a reservation, pulling an earlier one into its slot. */
    method ReleaseReservation(prompt: nat, ghost inv: Inventory)
      requires inv == State() && Sized(inv) && Tracked(inv) && prompt in tracker && byStatus == Indexed(buffers, cfg.ready)
      modifies this`buffers, this`tracker, this`byStatus
      ensures State() == ReleaseMoving(inv, prompt) && byStatus == Indexed(buffers, cfg.ready)
    {
      var b, e := tracker[prompt].0, tracker[prompt].1;
      var exchange := SearchExchangeFor(State(), prompt);
      if exchange.None? {
        ReleaseEmpties(inv, prompt);
        VacateSlot(b, e);
        RefreshStatus(b, inv.buffers);
      } else {
        var x, f := exchange.value.0, exchange.value.1;
        ReleaseExchanges(inv, prompt, x, f);
        TakeOver(b, e, x, f, inv);
        RefreshBoth(b, x, inv.buffers);
      }
    }

    // ---- Occupying ----

    /** Put a finished group at the end of t's prefix, moving a reservation out of the way if needed. */
    method SettleIn(t: nat, info: Info, ghost inv: Inventory) returns (entry: Option<nat>)
      requires inv == State() && Fits(inv) && Usable(inv, t) && byStatus == Indexed(buffers, cfg.ready)
      modifies this`buffers, this`tracker, this`byStatus
      ensures byStatus == Indexed(buffers, cfg.ready)
      ensures Reports(Settled(inv, t, info), inv, State(), t, entry)
    {
      var k := ScanFirstNonOccupied(buffers[t]);
      if buffers[t][k].Empty? {
        PutSlot(t, k, Occupied(info));
        RefreshStatus(t, inv.buffers);
        return Some(k);
      }
      var room := BuffersWithCapacity();
      var x := MaxOf(set y | y in room && y < t && y !in marked);
      var l := ScanLastNonReserved(buffers[x]);
      if l < 0 || !buffers[x][l].Empty? {
        return None;
      }
      Displace(t, k, x, l, info, inv);
      entry := Some(k);
    }

    /** Occupy slot (t, k) after its reservation retreated to (x, l). */
    method Displace(t: nat, k: nat, x: nat, l: nat, info: Info, ghost inv: Inventory)
      requires inv == State() && Fits(inv) && Used(inv, t, k) && In(inv, x, l) && x != t && byStatus == Indexed(buffers, cfg.ready)
      modifies this`buffers, this`tracker, this`byStatus
      ensures State() == Place(Relocate(inv, t, k, x, l), t, k, Occupied(info)) && byStatus == Indexed(buffers, cfg.ready)
    {
      MoveSlot(t, k, x, l);
      PutSlot(t, k, Occupied(info));
      DisplaceTouches(inv, t, k, x, l, info);
      RefreshBoth(x, t, inv.buffers);
    }

    /** A group reserved in the batch part goes to the earliest opening. */
    method OccupyEarliest(v: int, info: Info, ghost inv: Inventory) returns (t: nat, entry: Option<nat>)
      requires inv == State() && Fits(inv) && byStatus == Indexed(buffers, cfg.ready)
      modifies this`buffers, this`tracker, this`byStatus
      ensures byStatus == Indexed(buffers, cfg.ready)
      ensures var openings := Openings(inv, v);
              if openings == {} then State() == inv && entry.None?
              else t == MinOf(openings) && Reports(Settled(inv, t, info), inv, State(), t, entry)
    {
      t, entry := 0, None;
      var room := BuffersWithCapacity();
      var openings := set b | b in room && v <= b <= v + cfg.staleness && FirstNonOccupied(buffers[b]) < cfg.ready;
      assert openings == Openings(inv, v);
      if openings != {} {
        t := MinOf(openings);
        if Usable(State(), t) {
          entry := SettleIn(t, info, inv);
        }
      }
    }

    /** A surplus group goes to the first usable buffer the iteration meets, in whatever order it runs. */
    method OccupyAny(v: int, info: Info, ghost inv: Inventory) returns (t: nat, entry: Option<nat>)
      requires inv == State() && Fits(inv) && byStatus == Indexed(buffers, cfg.ready)
      modifies this`buffers, this`tracker, this`byStatus
      ensures byStatus == Indexed(buffers, cfg.ready)
      ensures if forall c :: c in Unfinished(inv, v) ==> !Usable(inv, c) then State() == inv && entry.None?
              else t in Unfinished(inv, v) && Usable(inv, t) && Reports(Settled(inv, t, info), inv, State(), t, entry)
    {
      t, entry := 0, None;
      var notReady := byStatus.stuck + byStatus.pending;
      var left := set b | b in notReady && v <= b <= v + cfg.staleness && FirstNonOccupied(buffers[b]) < cfg.ready;
      UnfinishedFromIndex(inv, v);
      while left != {}
        invariant State() == inv && byStatus == Indexed(buffers, cfg.ready)
        invariant left <= Unfinished(inv, v)
        invariant forall c :: c in Unfinished(inv, v) - left ==> !Usable(inv, c)
        decreases |left|
      {
        t :| t in left;
        left := left - {t};
        if Usable(State(), t) {
          entry := SettleIn(t, info, inv);
          return;
        }
      }
    }

    /** The sanity check made before anything changes. */
    method FindTarget(v: int) returns (found: bool)
      ensures found <==> HasTarget(State(), v)
    {
      var x := v - cfg.staleness;
      found := false;
      while x <= v + cfg.staleness
        invariant forall b :: b in buffers && v - cfg.staleness <= b < x ==> FirstNonOccupied(buffers[b]) >= cfg.ready
        decreases v + cfg.staleness - x
      {
        if x in buffers {
          var first := ScanFirstNonOccupied(buffers[x]);
          if first < cfg.ready {
            return true;
          }
        }
        x := x + 1;
      }
    }

    /**
     Occupy a reserved prompt. Where the set iteration settles is reported as t; an exception means
     that no iteration order would have succeeded.
     */
    method Occupy(prompt: nat) returns (t: nat, entry: Option<nat>)
      requires Valid() && IsReserved(State(), prompt)
      modifies this`buffers, this`tracker, this`byStatus
      ensures byStatus == Indexed(buffers, cfg.ready)
      ensures entry.Some? ==>
        StalenessOccupy.Occupy(old(State()), prompt, t) == Ok(Landing(State(), t, entry.value)) && Valid()
      ensures entry.None? ==> forall c :: StalenessOccupy.Occupy(old(State()), prompt, c).Raised?
    {
      ghost var inv := State();
      var b, e := tracker[prompt].0, tracker[prompt].1;
      var info := buffers[b][e].info;
      var v := Version(info);
      var found := FindTarget(v);
      if !found {
        return 0, None;
      }
      ReleaseReservation(prompt, inv);
      ReleaseKeepsInv(inv, prompt);
      if e < cfg.ready {
        t, entry := OccupyEarliest(v, info, State());
        BatchOutcome(inv, prompt, State(), t, entry);
      } else {
        ghost var inv1 := State();
        t, entry := OccupyAny(v, info, inv1);
        SurplusOutcome(inv, prompt, inv1, State(), t, entry);
      }
    }

    // ---- The remaining steps ----

    /** Drop a finished group; the last occupied slot of its prefix takes its place. */
    method DropOccupied(prompt: nat, ghost inv: Inventory)
      requires inv == State() && Fits(inv) && IsOccupied(inv, prompt) && byStatus == Indexed(buffers, cfg.ready)
      requires EntryOf(inv, prompt) < FirstNonOccupied(buffers[BufferOf(inv, prompt)])
      modifies this`buffers, this`tracker, this`byStatus
      ensures State() == ClearOccupied(inv, prompt) && byStatus == Indexed(buffers, cfg.ready)
    {
      var b, e := tracker[prompt].0, tracker[prompt].1;
      var first := ScanFirstNonOccupied(buffers[b]);
      DropIs(inv, prompt, b, e, first - 1);
      ShiftDown(b, e, first - 1, inv);
      RefreshStatus(b, inv.buffers);
    }

    /** Slot e of buffer b is refilled from a later slot. */
    method ShiftDown(b: nat, e: nat, last: nat, ghost inv: Inventory)
      requires inv == State() && Used(inv, b, e) && Used(inv, b, last) && e <= last
      modifies this`buffers, this`tracker
      ensures State() == if e < last then Relocate(Vacate(inv, b, e), b, last, b, e) else Vacate(inv, b, e)
      ensures b in buffers && |buffers[b]| == |inv.buffers[b]| && buffers == inv.buffers[b := buffers[b]]
    {
      VacateSlot(b, e);
      if e < last {
        MoveSlot(b, last, b, e);
      }
    }

    /** Record the version one request of a group now runs under. */
    method UpdateVersionTag(prompt: nat, request: int, ver: nat)
      requires Fits(State()) && prompt in tracker && Used(State(), BufferOf(State(), prompt), EntryOf(State(), prompt))
      requires Recorded(InfoOf(State(), prompt)) && byStatus == Indexed(buffers, cfg.ready)
      requires InfoOf(State(), prompt).requests.Many? ==> request in InfoOf(State(), prompt).requests.values
      modifies this`buffers
      ensures State() == RetagRequest(old(State()), prompt, request, ver) && byStatus == Indexed(buffers, cfg.ready)
    {
      var b, e := tracker[prompt].0, tracker[prompt].1;
      ghost var was := buffers;
      var slot := buffers[b][e];
      buffers := buffers[b := buffers[b][e := Relabel(slot, Retag(slot.info, request, ver))]];
      SameStatus(was, cfg.ready, b, buffers[b]);
    }

    /** Drop the aborted requests from a group that stays. */
    method ShrinkGroup(prompt: nat, gone: set<int>)
      requires Fits(State()) && prompt in tracker && Used(State(), BufferOf(State(), prompt), EntryOf(State(), prompt))
      requires Recorded(InfoOf(State(), prompt)) && InfoOf(State(), prompt).requests.Many?
      requires byStatus == Indexed(buffers, cfg.ready)
      modifies this`buffers
      ensures State() == Shrink(old(State()), prompt, gone) && byStatus == Indexed(buffers, cfg.ready)
    {
      var b, e := tracker[prompt].0, tracker[prompt].1;
      ghost var was := buffers;
      var slot := buffers[b][e];
      var info := slot.info;
      var rs := info.requests.values;
      var requests := KeepSurvivors(rs, gone, rs);
      var versions := KeepField(rs, gone, info.versions);
      var instances := KeepField(rs, gone, info.instances);
      info := info.(requests := Many(requests), versions := versions, instances := instances);
      buffers := buffers[b := buffers[b][e := Relabel(slot, info)]];
      SameStatus(was, cfg.ready, b, buffers[b]);
    }

    /** Abort requests of one prompt: the group goes, shrinks, or the abort raises and changes nothing. */
    method Abort(prompt: nat, gone: set<int>, need: nat) returns (ok: bool)
      requires Sized(State()) && byStatus == Indexed(buffers, cfg.ready)
      requires prompt in tracker ==>
        Used(State(), BufferOf(State(), prompt), EntryOf(State(), prompt)) && Recorded(InfoOf(State(), prompt))
      modifies this`buffers, this`tracker, this`byStatus
      ensures byStatus == Indexed(buffers, cfg.ready)
      ensures AbortRequests(old(State()), prompt, gone, need) == if ok then Ok(State()) else Raised
      ensures !ok ==> State() == old(State())
    {
      ok := true;
      if prompt in tracker {
        if Dissolves(State(), prompt, gone, need) {
          AbortReservation(prompt);
        } else if InfoOf(State(), prompt).requests.One? {
          ok := false;
        } else {
          ShrinkGroup(prompt, gone);
        }
      }
    }

    /** Forget the groups of buffer b, one slot after the other. */
    method ForgetGroups(b: nat, ghost inv: Inventory)
      requires inv == State() && Tracked(inv) && b in buffers
      modifies this`tracker
      ensures tracker == Untouched(inv, b, |buffers[b]|)
    {
      var i := 0;
      NoneForgotten(inv, b);
      while i < |buffers[b]|
        invariant i <= |buffers[b]| && tracker == Untouched(inv, b, i)
      {
        ForgetSlot(inv, b, i);
        if !buffers[b][i].Empty? {
          tracker := tracker - {buffers[b][i].info.prompt};
        }
        i := i + 1;
      }
    }

    /** Delete a buffer with every group in it. */
    method DeleteBuffer(b: nat)
      requires Tracked(State()) && byStatus == Indexed(buffers, cfg.ready)
      modifies this
      ensures State() == if b in old(buffers) then Delete(old(State()), b) else old(State())
      ensures byStatus == Indexed(buffers, cfg.ready)
    {
      if b in buffers {
        AllForgotten(State(), b);
        ForgetGroups(b, State());
        IndexWithout(buffers, cfg.ready, b);
        byStatus := byStatus.Without(b);
        buffers := buffers - {b};
        marked := marked - {b};
      }
    }

    /** Mark a ready buffer for deletion; a buffer that is not ready raises. */
    method MarkForDeletion(b: nat) returns (ok: bool)
      requires b in buffers && cfg.ready <= |buffers[b]|
      modifies this`marked
      ensures ok <==> IsReady(Status(buffers[b], cfg.ready))
      ensures State() == if ok then Mark(old(State()), b) else old(State())
    {
      var st := ComputeStatus(b);
      ok := IsReady(st);
      if ok {
        marked := marked + {b};
      }
    }

    /** The trainer pushes the model trained on the ready buffer of the current version. */
    method PushModel()
      modifies this`version
      ensures State() == Push(old(State()))
    {
      version := version + 1;
    }

    /** Reserve up to the latest buffer a request of this version may go to. */
    method TakeReserve(p: nat, r: int, v: nat, i: int, ghost inv: Inventory, ghost pair: (Inventory, Grant)) returns (ok: bool)
      requires inv == State() && Sized(inv) && Tracked(inv) && byStatus == Indexed(buffers, cfg.ready)
      requires pair == ReserveData(inv, p, r, v, i, v + inv.cfg.staleness)
      modifies this
      ensures byStatus == Indexed(buffers, cfg.ready) && IfGranted(pair) == if ok then Ok(State()) else Raised
    {
      var high := v + cfg.staleness;
      assert high == v + inv.cfg.staleness;
      var g := Reserve(p, r, v, i, high, inv, pair);
      ok := g.Granted?;
    }

    /** The protocol's reservation step. */
    method PerformReserve(p: nat, r: int, v: nat, i: int, ghost inv: Inventory, ghost next: Result<Inventory>) returns (ok: bool)
      requires inv == State() && Sized(inv) && Tracked(inv) && byStatus == Indexed(buffers, cfg.ready)
      requires next == ReserveNext(inv, p, r, v, i)
      modifies this
      ensures byStatus == Indexed(buffers, cfg.ready) && next == if ok then Ok(State()) else Raised
    {
      ghost var pair := NextReserves(inv, p, r, v, i, next);
      ok := TakeReserve(p, r, v, i, inv, pair);
    }

    /** A protocol step of the trainer. */
    method PerformByTrainer(step: Step) returns (ok: bool)
      requires Valid() && Enabled(State(), step) && (step.ConsumeStep? || step.MarkStep? || step.DeleteStep?)
      modifies this
      ensures Next(old(State()), step) == (if ok then Ok(State()) else Raised) && byStatus == Indexed(buffers, cfg.ready)
    {
      ok := true;
      match step
      case ConsumeStep => PushModel();
      case MarkStep(b) =>
        StatusMeaning(buffers[b], cfg.ready);
        ok := MarkForDeletion(b);
      case DeleteStep(b) => DeleteBuffer(b);
    }

    /** A protocol step on one group. */
    method PerformOnGroup(step: Step) returns (ok: bool)
      requires Valid() && Enabled(State(), step) && (step.RetagStep? || step.AbortStep? || step.DropStep?)
      modifies this
      ensures Next(old(State()), step) == (if ok then Ok(State()) else Raised) && byStatus == Indexed(buffers, cfg.ready)
    {
      ghost var inv := State();
      ok := true;
      match step
      case RetagStep(p, r, v) =>
        RetagCondition(inv, p, r, v);
        UpdateVersionTag(p, r, v);
      case AbortStep(p, gone, need) =>
        assert p in tracker ==> Used(inv, BufferOf(inv, p), EntryOf(inv, p));
        ok := Abort(p, gone, need);
      case DropStep(p) =>
        DropKeepsInv(inv, p);
        DropOccupied(p, inv);
    }

    /**
     Take one protocol step other than occupying. The object moves as the protocol does.
     */
    method Perform(step: Step) returns (ok: bool)
      requires Valid() && Enabled(State(), step) && !step.OccupyStep?
      modifies this
      ensures Next(old(State()), step) == if ok then Ok(State()) else Raised
      ensures ok ==> Valid()
    {
      NextKeepsInv(State(), step);
      if step.ReserveStep? {
        ok := PerformReserve(step.prompt, step.request, step.version, step.inst, State(), Next(State(), step));
      } else if step.ConsumeStep? || step.MarkStep? || step.DeleteStep? {
        ok := PerformByTrainer(step);
      } else {
        ok := PerformOnGroup(step);
      }
    }
  }

  /** What settling left behind: the new state and slot, or an exception before anything changed. */
  ghost predicate Reports(outcome: Result<Landing>, was: Inventory, now: Inventory, t: nat, entry: Option<nat>) {
    match outcome
    case Raised => entry.None? && now == was
    case Ok(landing) => entry.Some? && landing == Landing(now, t, entry.value)
  }

  lemma UnfinishedFromIndex(inv: Inventory, v: int)
    requires Fits(inv)
    ensures var i := Indexed(inv.buffers, inv.cfg.ready);
      (set b | b in i.stuck + i.pending && v <= b <= v + inv.cfg.staleness
               && FirstNonOccupied(inv.buffers[b]) < inv.cfg.ready) == Unfinished(inv, v)
  {
  }

  /** A batch reservation always lands. */
  lemma BatchOutcome(inv: Inventory, prompt: nat, now: Inventory, t: nat, entry: Option<nat>)
    requires Inv(inv) && IsReserved(inv, prompt) && EntryOf(inv, prompt) < inv.cfg.ready
    requires var inv1 := ReleaseMoving(inv, prompt); var info := InfoOf(inv, prompt);
             && Fits(inv1)
             && var openings := Openings(inv1, Version(info));
                if openings == {} then now == inv1 && entry.None?
                else t == MinOf(openings) && Reports(Settled(inv1, t, info), inv1, now, t, entry)
    ensures entry.Some? && StalenessOccupy.Occupy(inv, prompt, t) == Ok(Landing(now, t, entry.value)) && Inv(now)
  {
    BatchOccupyNeverLater(inv, prompt, t);
  }

  /** A surplus reservation lands when some buffer takes it. */
  lemma SurplusOutcome(inv: Inventory, prompt: nat, inv1: Inventory, now: Inventory, t: nat, entry: Option<nat>)
    requires Inv(inv) && IsReserved(inv, prompt) && inv.cfg.ready <= EntryOf(inv, prompt)
    requires HasTarget(inv, Version(InfoOf(inv, prompt))) && inv1 == ReleaseMoving(inv, prompt) && Fits(inv1)
    requires var info := InfoOf(inv, prompt); var v := Version(info);
             if forall c :: c in Unfinished(inv1, v) ==> !Usable(inv1, c) then now == inv1 && entry.None?
             else t in Unfinished(inv1, v) && Usable(inv1, t) && Reports(Settled(inv1, t, info), inv1, now, t, entry)
    ensures entry.Some? ==> StalenessOccupy.Occupy(inv, prompt, t) == Ok(Landing(now, t, entry.value)) && Inv(now)
    ensures entry.None? ==> forall c :: StalenessOccupy.Occupy(inv, prompt, c).Raised?
  {
    ReleaseKeepsInv(inv, prompt);
    if t in Unfinished(inv1, Version(InfoOf(inv, prompt))) && Usable(inv1, t) {
      TakesMeaning(inv, prompt, inv1, t);
      TakenLands(inv, prompt, inv1, t);
    } else {
      forall c: nat ensures StalenessOccupy.Occupy(inv, prompt, c).Raised? {
        SurplusOccupyIs(inv, prompt, inv1, c);
      }
    }
  }

  /** A clear changes one buffer. */
  lemma ClearTouches(inv: Inventory, b: nat, e: nat, last: nat)
    requires Used(inv, b, e) && (e > last ==> Used(inv, b, last))
    ensures var after := CloseGap(Vacate(inv, b, e), b, e, last).buffers;
            b in after && |after[b]| == |inv.buffers[b]| && after == inv.buffers[b := after[b]]
  {
  }

  /** An exchange changes two. */
  lemma ExchangeTouches(inv: Inventory, b: nat, e: nat, x: nat, f: nat)
    requires Used(inv, b, e) && Used(inv, x, f) && (x, f) != (b, e)
    requires inv.buffers[x][f].Reserved? && (x == b ==> f < e)
    ensures var after := Exchanged(inv, b, e, x, f).buffers;
            && b in after && x in after && |after[b]| == |inv.buffers[b]| && |after[x]| == |inv.buffers[x]|
            && after == inv.buffers[b := after[b]][x := after[x]]
  {
  }

  /** So does taking over a slot whose reservation retreats. */
  lemma DisplaceTouches(inv: Inventory, t: nat, k: nat, x: nat, l: nat, info: Info)
    requires Used(inv, t, k) && In(inv, x, l) && x != t
    ensures var after := Place(Relocate(inv, t, k, x, l), t, k, Occupied(info)).buffers;
            && t in after && x in after && |after[t]| == |inv.buffers[t]| && |after[x]| == |inv.buffers[x]|
            && after == inv.buffers[x := after[x]][t := after[t]]
  {
  }

  lemma DropIs(inv: Inventory, prompt: nat, b: nat, e: nat, last: nat)
    requires IsOccupied(inv, prompt) && inv.tracker[prompt] == (b, e) && e < FirstNonOccupied(inv.buffers[b]) == last + 1
    ensures Used(inv, b, e) && Used(inv, b, last)
    ensures ClearOccupied(inv, prompt) == if e < last then Relocate(Vacate(inv, b, e), b, last, b, e) else Vacate(inv, b, e)
  {
  }

  lemma EnsureFits(inv: Inventory, m: int)
    requires inv.cfg.ready <= inv.cfg.entries && Fits(inv)
    ensures Fits(Ensure(inv, m))
  {
  }

  lemma EnsureStep(inv: Inventory, inv1: Inventory, inv2: Inventory)
    requires inv.next <= inv1.next && (forall b :: b in inv.buffers ==> b < inv.next) && inv1 == Ensure(inv, inv1.next - 1)
    requires inv2 == inv1.(next := inv1.next + 1, buffers := inv1.buffers[inv1.next := EmptyBuffer(inv.cfg.entries)])
    ensures inv2 == Ensure(inv, inv1.next)
  {
    assert Ensure(inv, inv1.next).buffers == inv2.buffers;
  }

  lemma HavingSame(was: map<nat, seq<Slot>>, ready: nat, b: nat, es: seq<Slot>, st: BufferStatus)
    requires b in was && ready <= |es| == |was[b]| && Status(es, ready) == Status(was[b], ready)
    ensures Having(was[b := es], ready, st) == Having(was, ready, st)
  {
    HavingFollows(was, ready, b, es, st);
  }

  lemma SameIndex(was: map<nat, seq<Slot>>, ready: nat, b: nat, es: seq<Slot>)
    requires b in was && ready <= |es| == |was[b]| && Status(es, ready) == Status(was[b], ready)
    ensures Indexed(was[b := es], ready) == Indexed(was, ready)
  {
    HavingSame(was, ready, b, es, Ready);
    HavingSame(was, ready, b, es, Stuck);
    HavingSame(was, ready, b, es, Pending);
    HavingSame(was, ready, b, es, ReadyWithCapacity);
  }

  /** Relabelling a slot changes no status. */
  lemma SameStatus(was: map<nat, seq<Slot>>, ready: nat, b: nat, es: seq<Slot>)
    requires b in was && ready <= |es| == |was[b]|
    requires forall i :: 0 <= i < |es| ==>
      (es[i].Empty? <==> was[b][i].Empty?) && (es[i].Reserved? <==> was[b][i].Reserved?)
    ensures Indexed(was[b := es], ready) == Indexed(was, ready)
  {
    SameCategories(was[b], es, ready);
    SameEmpties(was[b][ready..], es[ready..]);
    SameIndex(was, ready, b, es);
  }

  /** The tracker without the groups in the first i slots of buffer b. */
  function Untouched(inv: Inventory, b: nat, i: nat): map<nat, (nat, nat)> {
    map p | p in inv.tracker && !(inv.tracker[p].0 == b && inv.tracker[p].1 < i) :: inv.tracker[p]
  }

  lemma NoneForgotten(inv: Inventory, b: nat)
    ensures Untouched(inv, b, 0) == inv.tracker
  {
  }

  lemma ForgetSlot(inv: Inventory, b: nat, i: nat)
    requires Tracked(inv) && In(inv, b, i)
    ensures Untouched(inv, b, i + 1) ==
      if inv.buffers[b][i].Empty? then Untouched(inv, b, i)
      else Untouched(inv, b, i) - {inv.buffers[b][i].info.prompt}
  {
    if !inv.buffers[b][i].Empty? {
      assert Used(inv, b, i);
    }
  }

  lemma AllForgotten(inv: Inventory, b: nat)
    requires Tracked(inv) && b in inv.buffers
    ensures Untouched(inv, b, |inv.buffers[b]|) == Delete(inv, b).tracker
  {
  }

  lemma IndexWithout(was: map<nat, seq<Slot>>, ready: nat, b: nat)
    ensures Indexed(was, ready).Without(b) == Indexed(was - {b}, ready)
  {
    ListedOnce(was, ready, b);
    assert forall st :: Having(was - {b}, ready, st) == Having(was, ready, st) - {b};
  }
}
