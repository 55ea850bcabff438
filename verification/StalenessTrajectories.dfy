/**
 The staleness bound for single trajectories. A group records versions for its members; here every
 request's own version is carried beside the inventory, and the bound is stated for those.
 */
module StalenessTrajectories {
  import opened Common
  import opened EntryInfo
  import opened StalenessBuffer
  import opened StalenessInventory
  import opened StalenessOccupy
  import opened StalenessProtocol

  /** For each prompt and request, the version the request really runs under. */
  type Own = map<nat, map<int, int>>

  predicate LinedUp(info: Info) {
    Aligned(info.versions, |Requests(info)|)
  }

  /** The record follows the requests' own versions and, with `covered`, shows no request a newer one than its own. */
  predicate Truthful(covered: bool, info: Info, own: map<int, int>) {
    Recorded(info) && Follows(info, own) && (covered ==> Covers(info, own))
  }

  /** The record of every group is truthful. */
  ghost predicate Traced(covered: bool, groups: map<nat, Slot>, own: Own) {
    forall p :: p in groups ==> p in own && !groups[p].Empty? && Truthful(covered, groups[p].info, own[p])
  }

  /** No request runs under a version that does not exist yet. */
  ghost predicate Past(own: Own, version: int) {
    forall p, r :: p in own && r in own[p] ==> own[p][r] <= version
  }

  ghost predicate TracedNext(covered: bool, next: Result<Inventory>, own: Own) {
    next.Ok? ==> Tracked(next.value) && Traced(covered, Groups(next.value), own)
  }

  function Assign(own: Own, p: nat, r: int, v: int): Own {
    own[p := (if p in own then own[p] else map[])[r := v]]
  }

  /**
   What a step does to the requests' own versions; nothing but these three gives or takes one. A retry
   runs under the version it arrives with, whatever the record says.
   */
  function Trace(inv: Inventory, own: Own, step: Step): Own
    requires Inv(inv)
  {
    match step
    case ReserveStep(p, r, v, _) =>
      if p !in inv.tracker then own[p := map[r := v]] else Assign(own, p, r, v)
    case RetagStep(p, r, v) => Assign(own, p, r, v)
    case AbortStep(p, gone, _) => if p in own then own[p := own[p] - gone] else own
    case _ => own
  }

  // ---- Which steps keep the record truthful ----

  lemma GroupOf(inv: Inventory, p: nat)
    requires Inv(inv) && p in inv.tracker
    ensures p in Groups(inv) && !Groups(inv)[p].Empty? && Groups(inv)[p].info == InfoOf(inv, p)
    ensures InfoOf(inv, p).prompt == p && Recorded(InfoOf(inv, p))
  {
    assert Used(inv, BufferOf(inv, p), EntryOf(inv, p));
  }

  /** A retried request comes back with a version no older than the record shows for it. */
  predicate RetryFits(inv: Inventory, p: nat, r: int, v: int)
    requires Inv(inv)
  {
    p in inv.tracker && r in Requests(InfoOf(inv, p)) ==>
      (GroupOf(inv, p); Shown(InfoOf(inv, p), r) <= v)
  }

  /** A retag names a member; a retag or partial abort finds the group's versions lined up with its requests. */
  predicate Orderly(inv: Inventory, step: Step)
    requires Inv(inv)
  {
    match step
    case ReserveStep(p, r, v, _) => RetryFits(inv, p, r, v)
    case RetagStep(p, r, _) => p in inv.tracker ==> r in Requests(InfoOf(inv, p)) && LinedUp(InfoOf(inv, p))
    case AbortStep(p, gone, need) => p in inv.tracker && !Dissolves(inv, p, gone, need) ==> LinedUp(InfoOf(inv, p))
    case _ => true
  }

  /** A retag names a member, and the record will show a joining request no newer version than its own. */
  predicate JoinsCovered(inv: Inventory, step: Step)
    requires Inv(inv)
  {
    match step
    case ReserveStep(p, r, v, _) =>
      && RetryFits(inv, p, r, v)
      && (p in inv.tracker && r !in Requests(InfoOf(inv, p)) ==> ShownToNext(InfoOf(inv, p), v) <= v)
    case RetagStep(p, r, _) => p in inv.tracker ==> r in Requests(InfoOf(inv, p))
    case _ => true
  }

  predicate Allowed(covered: bool, inv: Inventory, step: Step)
    requires Inv(inv)
  {
    if covered then JoinsCovered(inv, step) else Orderly(inv, step)
  }

  // ---- Steps on the abstract view ----

  lemma TracedExcept(covered: bool, groups: map<nat, Slot>, own: Own, groups1: map<nat, Slot>, own1: Own, p: nat)
    requires Traced(covered, groups, own)
    requires forall q :: q in groups1 && q != p ==> q in groups && groups1[q] == groups[q]
    requires forall q :: q in own && q != p ==> q in own1 && own1[q] == own[q]
    requires p in groups1 ==> p in own1 && !groups1[p].Empty? && Truthful(covered, groups1[p].info, own1[p])
    ensures Traced(covered, groups1, own1)
  {
    forall q | q in groups1
      ensures q in own1 && !groups1[q].Empty? && Truthful(covered, groups1[q].info, own1[q])
    {
      assert q == p || q in groups;
    }
  }

  /** Forgetting a group, whatever is then said of its requests. */
  lemma TracedWithout(covered: bool, groups: map<nat, Slot>, own: Own, own1: Own, p: nat)
    requires Traced(covered, groups, own) && forall q :: q in own && q != p ==> q in own1 && own1[q] == own[q]
    ensures Traced(covered, groups - {p}, own1)
  {
    TracedExcept(covered, groups, own, groups - {p}, own1, p);
  }

  lemma TracedOccupied(covered: bool, groups: map<nat, Slot>, own: Own, p: nat)
    requires Traced(covered, groups, own) && p in groups
    ensures Traced(covered, groups[p := Occupied(groups[p].info)], own)
  {
    TracedExcept(covered, groups, own, groups[p := Occupied(groups[p].info)], own, p);
  }

  lemma TracedChanged(covered: bool, groups: map<nat, Slot>, own: Own, p: nat, slot: Slot, own1: map<int, int>)
    requires Traced(covered, groups, own) && !slot.Empty? && Truthful(covered, slot.info, own1)
    ensures Traced(covered, groups[p := slot], own[p := own1])
  {
    TracedExcept(covered, groups, own, groups[p := slot], own[p := own1], p);
  }

  /** inv0 is inv with further, empty buffers. */
  ghost predicate Grows(inv: Inventory, inv0: Inventory) {
    && inv0.tracker == inv.tracker
    && (forall b :: b in inv.buffers ==> b in inv0.buffers && inv0.buffers[b] == inv.buffers[b])
    && (forall b, e :: Used(inv0, b, e) ==> b in inv.buffers)
  }

  lemma GrowsGroups(inv: Inventory, inv0: Inventory)
    requires Tracked(inv) && Grows(inv, inv0)
    ensures Tracked(inv0) && Groups(inv0) == Groups(inv)
  {
    assert forall b, e :: Used(inv0, b, e) <==> Used(inv, b, e);
  }

  lemma EnsureGrows(inv: Inventory)
    ensures forall m :: Grows(inv, Ensure(inv, m))
  {
  }

  /** A granted reservation of a new prompt chooses from some buffers of the inventory with the missing ones created. */
  lemma NewPath(inv: Inventory, p: nat, r: int, v: nat, i: int, outcome: (Inventory, Grant))
    returns (inv0: Inventory, room: set<nat>)
    requires inv.cfg.ready <= inv.cfg.entries && Fits(inv) && p !in inv.tracker
    requires outcome == ReserveData(inv, p, r, v, i, v + inv.cfg.staleness) && outcome.1.Granted?
    ensures Grows(inv, inv0) && room <= inv0.buffers.Keys
    ensures outcome == ReserveIn(inv0, room, NewInfo(p, r, v, i))
  {
    inv0 := Ensure(inv, v + inv.cfg.staleness);
    room := Room(inv0, v + inv.cfg.staleness);
    EnsureGrows(inv);
  }

  lemma PlacedGroups(inv: Inventory, room: set<nat>, info: Info)
    requires Tracked(inv) && room <= inv.buffers.Keys && info.prompt !in inv.tracker
    requires ReserveIn(inv, room, info).1.Granted?
    ensures Tracked(ReserveIn(inv, room, info).0)
    ensures Groups(ReserveIn(inv, room, info).0) == Groups(inv)[info.prompt := Reserved(info)]
  {
    var b := MaxOf(room);
    PlaceGroups(inv, b, LastNonReserved(inv.buffers[b]), Reserved(info));
  }

  lemma GrantTraced(covered: bool, inv: Inventory, own: Own, inv0: Inventory, room: set<nat>,
                    info: Info, r: int, v: int, outcome: (Inventory, Grant))
    requires Tracked(inv) && Traced(covered, Groups(inv), own) && info.prompt !in inv.tracker
    requires Recorded(info) && info.requests == One(r) && info.versions == One(v)
    requires Grows(inv, inv0) && room <= inv0.buffers.Keys
    requires outcome == ReserveIn(inv0, room, info) && outcome.1.Granted?
    ensures TracedNext(covered, Ok(outcome.0), own[info.prompt := map[r := v]])
  {
    GrowsGroups(inv, inv0);
    PlacedGroups(inv0, room, info);
    FirstTraced(covered, Groups(inv), own, info, r, v);
  }

  lemma NewTraced(covered: bool, inv: Inventory, own: Own, p: nat, r: int, v: nat, i: int, next: Result<Inventory>)
    requires inv.cfg.ready <= inv.cfg.entries && Fits(inv) && Tracked(inv) && p !in inv.tracker
    requires Traced(covered, Groups(inv), own)
    requires next == ReserveNext(inv, p, r, v, i)
    ensures TracedNext(covered, next, own[p := map[r := v]])
  {
    var outcome := NextReserves(inv, p, r, v, i, next);
    if outcome.1.Granted? {
      var inv0, room := NewPath(inv, p, r, v, i, outcome);
      GrantTraced(covered, inv, own, inv0, room, NewInfo(p, r, v, i), r, v, outcome);
    }
  }

  lemma FirstTraced(covered: bool, groups: map<nat, Slot>, own: Own, info: Info, r: int, v: int)
    requires Traced(covered, groups, own) && Recorded(info) && info.requests == One(r) && info.versions == One(v)
    ensures Traced(covered, groups[info.prompt := Reserved(info)], own[info.prompt := map[r := v]])
  {
    assert Requests(info) == [r];
    TracedChanged(covered, groups, own, info.prompt, Reserved(info), map[r := v]);
  }

  /** Relabelling one group, whatever slot it is in. */
  lemma RelabelTraced(covered: bool, inv: Inventory, own: Own, p: nat, info: Info, own1: map<int, int>)
    requires Inv(inv) && p in inv.tracker && Traced(covered, Groups(inv), own) && info.prompt == p && Truthful(covered, info, own1)
    ensures Used(inv, BufferOf(inv, p), EntryOf(inv, p))
    ensures var b, e := BufferOf(inv, p), EntryOf(inv, p);
            var inv1 := Write(inv, b, e, Relabel(inv.buffers[b][e], info));
            Tracked(inv1) && Traced(covered, Groups(inv1), own[p := own1])
  {
    var b: nat, e: nat := BufferOf(inv, p), EntryOf(inv, p);
    GroupOf(inv, p);
    assert Used(inv, b, e);
    RelabelTracks(inv, b, e, info);
    TracedChanged(covered, Groups(inv), own, p, Relabel(inv.buffers[b][e], info), own1);
  }

  /** A retry or a join of one group. */
  lemma JoinTruthful(covered: bool, info: Info, own: map<int, int>, r: int, v: int, i: int)
    requires Truthful(covered, info, own)
    requires if r in Requests(info) then Shown(info, r) <= v else covered ==> ShownToNext(info, v) <= v
    ensures Truthful(covered, Join(info, r, v, i, 1), own[r := v])
  {
    if r in Requests(info) {
      RetryFollows(info, own, r, v);
      if covered {
        RetryCovers(info, own, r, v);
      }
    } else {
      JoinFollows(info, own, r, v, i, 1);
      if covered {
        JoinCovers(info, own, r, v, i, 1);
      }
    }
  }

  lemma RetagTruthful(covered: bool, info: Info, own: map<int, int>, r: int, v: int)
    requires Truthful(covered, info, own) && r in Requests(info) && (covered || LinedUp(info))
    ensures Truthful(covered, Retag(info, r, v), own[r := v])
  {
    RetagCovers(info, own, r, v);
    CoversFollows(Retag(info, r, v), own[r := v]);
  }

  lemma AbortTruthful(covered: bool, info: Info, own: map<int, int>, gone: set<int>)
    requires Truthful(covered, info, own) && info.requests.Many? && (covered || LinedUp(info))
    requires exists r :: r in Requests(info) && r !in gone
    ensures Truthful(covered, AbortSome(info, gone), own - gone)
  {
    AbortCovers(info, own, gone);
    CoversFollows(AbortSome(info, gone), own - gone);
  }

  lemma JoinTraced(covered: bool, inv: Inventory, own: Own, p: nat, r: int, v: nat, i: int)
    requires Inv(inv) && p in inv.tracker && Traced(covered, Groups(inv), own)
    requires ReserveNext(inv, p, r, v, i).Ok? && Allowed(covered, inv, ReserveStep(p, r, v, i))
    ensures var inv1 := ReserveNext(inv, p, r, v, i).value;
            Tracked(inv1) && Traced(covered, Groups(inv1), Trace(inv, own, ReserveStep(p, r, v, i)))
  {
    GroupOf(inv, p);
    JoinTruthful(covered, InfoOf(inv, p), own[p], r, v, i);
    RelabelTraced(covered, inv, own, p, Join(InfoOf(inv, p), r, v, i, 1), own[p][r := v]);
  }

  lemma RetagTraced(covered: bool, inv: Inventory, own: Own, p: nat, r: int, v: nat)
    requires Inv(inv) && p in inv.tracker && Recorded(InfoOf(inv, p)) && Traced(covered, Groups(inv), own)
    requires r in Requests(InfoOf(inv, p)) && (covered || LinedUp(InfoOf(inv, p)))
    ensures TracedNext(covered, Ok(RetagRequest(inv, p, r, v)), Assign(own, p, r, v))
  {
    GroupOf(inv, p);
    RetagTruthful(covered, InfoOf(inv, p), own[p], r, v);
    RelabelTraced(covered, inv, own, p, Retag(InfoOf(inv, p), r, v), own[p][r := v]);
  }

  lemma AbortTraced(covered: bool, inv: Inventory, own: Own, p: nat, gone: set<int>, need: nat)
    requires Inv(inv) && Enabled(inv, AbortStep(p, gone, need)) && Allowed(covered, inv, AbortStep(p, gone, need))
    requires Traced(covered, Groups(inv), own)
    ensures TracedNext(covered, AbortNext(inv, p, gone, need), Trace(inv, own, AbortStep(p, gone, need)))
  {
    if p in inv.tracker {
      GroupOf(inv, p);
      if Dissolves(inv, p, gone, need) {
        ClearTraced(covered, inv, own, p, own[p := own[p] - gone]);
      } else if InfoOf(inv, p).requests.Many? {
        RestRemains(inv, p, gone, need);
        ShrinkTraced(covered, inv, own, p, gone);
      }
    } else {
      UntrackedTraced(covered, Groups(inv), own, p, gone);
    }
  }

  lemma UntrackedTraced(covered: bool, groups: map<nat, Slot>, own: Own, p: nat, gone: set<int>)
    requires Traced(covered, groups, own) && p !in groups
    ensures Traced(covered, groups, if p in own then own[p := own[p] - gone] else own)
  {
    TracedExcept(covered, groups, own, groups, if p in own then own[p := own[p] - gone] else own, p);
  }

  lemma ClearTraced(covered: bool, inv: Inventory, own: Own, p: nat, own1: Own)
    requires Inv(inv) && Clearable(inv, p) && Traced(covered, Groups(inv), own)
    requires forall q :: q in own && q != p ==> q in own1 && own1[q] == own[q]
    ensures Tracked(ClearReserved(inv, p)) && Traced(covered, Groups(ClearReserved(inv, p)), own1)
  {
    ClearableKeepsInv(inv, p);
    TracedWithout(covered, Groups(inv), own, own1, p);
  }

  lemma ShrinkTraced(covered: bool, inv: Inventory, own: Own, p: nat, gone: set<int>)
    requires Inv(inv) && p in inv.tracker && Traced(covered, Groups(inv), own)
    requires InfoOf(inv, p).requests.Many? && (covered || LinedUp(InfoOf(inv, p)))
    requires exists r :: r in Rest(InfoOf(inv, p), gone)
    ensures p in own && Recorded(InfoOf(inv, p))
    ensures Tracked(Shrink(inv, p, gone)) && Traced(covered, Groups(Shrink(inv, p, gone)), own[p := own[p] - gone])
  {
    GroupOf(inv, p);
    var r :| r in Rest(InfoOf(inv, p), gone);
    AbortTruthful(covered, InfoOf(inv, p), own[p], gone);
    RelabelTraced(covered, inv, own, p, AbortSome(InfoOf(inv, p), gone), own[p] - gone);
  }

  lemma OccupyTraced(covered: bool, inv: Inventory, own: Own, p: nat, t: nat)
    requires Inv(inv) && IsReserved(inv, p) && Traced(covered, Groups(inv), own)
    ensures TracedNext(covered, OccupyNext(inv, p, t), own)
  {
    GroupOf(inv, p);
    TracedOccupied(covered, Groups(inv), own, p);
    if EntryOf(inv, p) < inv.cfg.ready {
      BatchOccupyNeverLater(inv, p, t);
    } else {
      SurplusOccupyCondition(inv, p, t);
    }
  }

  lemma DropTraced(covered: bool, inv: Inventory, own: Own, p: nat)
    requires Inv(inv) && Droppable(inv, p) && Traced(covered, Groups(inv), own)
    ensures TracedNext(covered, DropNext(inv, p), own)
  {
    DropKeepsInv(inv, p);
    TracedWithout(covered, Groups(inv), own, own, p);
  }

  lemma DeleteTraced(covered: bool, inv: Inventory, own: Own, b: nat)
    requires Inv(inv) && Enabled(inv, DeleteStep(b)) && Traced(covered, Groups(inv), own)
    ensures Tracked(Delete(inv, b)) && Traced(covered, Groups(Delete(inv, b)), own)
  {
    DeleteKeepsInv(inv, b);
  }

  lemma ReserveTraced(covered: bool, inv: Inventory, own: Own, p: nat, r: int, v: nat, i: int)
    requires Inv(inv) && Allowed(covered, inv, ReserveStep(p, r, v, i)) && Traced(covered, Groups(inv), own)
    ensures TracedNext(covered, ReserveNext(inv, p, r, v, i), Trace(inv, own, ReserveStep(p, r, v, i)))
  {
    if p !in inv.tracker {
      NewTraced(covered, inv, own, p, r, v, i, ReserveNext(inv, p, r, v, i));
    } else if ReserveNext(inv, p, r, v, i).Ok? {
      JoinTraced(covered, inv, own, p, r, v, i);
    }
  }

  /** Steps on the record of one group. */
  lemma RecordTraced(covered: bool, inv: Inventory, own: Own, step: Step)
    requires Inv(inv) && Enabled(inv, step) && Allowed(covered, inv, step) && Traced(covered, Groups(inv), own)
    requires step.RetagStep? || step.AbortStep?
    ensures TracedNext(covered, Next(inv, step), Trace(inv, own, step))
  {
    match step
    case RetagStep(p, r, v) =>
      GroupOf(inv, p);
      RetagTraced(covered, inv, own, p, r, v);
    case AbortStep(p, gone, need) => AbortTraced(covered, inv, own, p, gone, need);
  }

  /** The trainer's steps change no record. */
  lemma TrainerTraced(covered: bool, inv: Inventory, own: Own, step: Step)
    requires Inv(inv) && Enabled(inv, step) && Traced(covered, Groups(inv), own)
    requires step.ConsumeStep? || step.MarkStep? || step.DeleteStep?
    ensures TracedNext(covered, Next(inv, step), own)
  {
    match step
    case ConsumeStep => PushTracks(inv);
    case MarkStep(b) => MarkKeepsInv(inv, b);
    case DeleteStep(b) => DeleteTraced(covered, inv, own, b);
  }

  /** Every orderly step keeps the record truthful. */
  lemma NextTraced(covered: bool, inv: Inventory, own: Own, step: Step)
    requires Inv(inv) && Enabled(inv, step) && Allowed(covered, inv, step) && Traced(covered, Groups(inv), own)
    ensures TracedNext(covered, Next(inv, step), Trace(inv, own, step))
  {
    if step.ReserveStep? {
      ReserveTraced(covered, inv, own, step.prompt, step.request, step.version, step.inst);
    } else if step.OccupyStep? {
      OccupyTraced(covered, inv, own, step.prompt, step.where);
    } else if step.DropStep? {
      DropTraced(covered, inv, own, step.prompt);
    } else if step.RetagStep? || step.AbortStep? {
      RecordTraced(covered, inv, own, step);
    } else {
      TrainerTraced(covered, inv, own, step);
    }
  }

  lemma NextPast(inv: Inventory, own: Own, step: Step)
    requires Inv(inv) && Enabled(inv, step) && Past(own, inv.version)
    ensures Past(Trace(inv, own, step), inv.version)
  {
    match step
    case ReserveStep(p, r, v, _) => AssignPast(own, p, r, v, inv.version);
    case RetagStep(p, r, v) => AssignPast(own, p, r, v, inv.version);
    case _ =>
  }

  lemma AssignPast(own: Own, p: nat, r: int, v: int, version: int)
    requires Past(own, version) && v <= version
    ensures Past(Assign(own, p, r, v), version) && Past(own[p := map[r := v]], version)
  {
  }

  // ---- Runs ----

  /** One training step: the version it started from, the groups, and their requests' own versions. */
  datatype Consumed = Consumed(version: nat, groups: seq<Info>, members: seq<map<int, int>>)

  datatype Trail = Trail(inv: Inventory, own: Own, log: seq<Consumed>)

  /** What is known of the requests of the batch that is consumed next. */
  function Members(inv: Inventory, own: Own): seq<map<int, int>>
    requires BatchReady(inv)
  {
    seq(inv.cfg.ready, i requires 0 <= i < inv.cfg.ready =>
      var p := Batch(inv)[i].prompt; if p in own then own[p] else map[])
  }

  function Logged(t: Trail, step: Step): seq<Consumed> {
    if step.ConsumeStep? && BatchReady(t.inv) then
      t.log + [Consumed(t.inv.version, Batch(t.inv), Members(t.inv, t.own))]
    else t.log
  }

  /** An enabled step succeeds. */
  ghost predicate Advances(t: Trail, step: Step, t1: Trail) {
    && Inv(t.inv) && Enabled(t.inv, step) && Next(t.inv, step) == Ok(t1.inv)
    && t1.own == Trace(t.inv, t.own, step) && t1.log == Logged(t, step)
  }

  /** These steps lead from t to t1. */
  ghost predicate RunsTo(t: Trail, steps: seq<Step>, t1: Trail)
    decreases |steps|
  {
    if steps == [] then t1 == t
    else
      var n := |steps| - 1;
      exists mid :: RunsTo(t, steps[..n], mid) && Advances(mid, steps[n], t1)
  }

  lemma RunsOn(t: Trail, steps: seq<Step>, t1: Trail, step: Step, t2: Trail)
    requires RunsTo(t, steps, t1) && Advances(t1, step, t2)
    ensures RunsTo(t, steps + [step], t2)
  {
    InitOfAppend(steps, step);
  }

  /**
   A fresh batch, in which moreover every trajectory of every group was generated at most `staleness`
   versions before it is consumed, and never after.
   */
  ghost predicate MembersFresh(cfg: Config, c: Consumed) {
    && Fresh(cfg, Trained(c.version, c.groups)) && |c.members| == cfg.ready
    && (forall i :: 0 <= i < cfg.ready ==> c.members[i].Keys == set r | r in Requests(c.groups[i]))
    && (forall i, r :: 0 <= i < cfg.ready && r in c.members[i] ==>
          c.version - cfg.staleness <= c.members[i][r] <= c.version)
  }

  ghost predicate TrailFresh(cfg: Config, version: nat, log: seq<Consumed>) {
    && |log| == version
    && forall i :: 0 <= i < |log| ==> log[i].version == i && MembersFresh(cfg, log[i])
  }

  /** What every allowed run keeps. */
  ghost predicate Sure(covered: bool, t: Trail) {
    && Inv(t.inv) && Traced(covered, Groups(t.inv), t.own) && Past(t.own, t.inv.version)
    && TrailFresh(t.inv.cfg, t.inv.version, t.log)
  }

  function Beginning(cfg: Config): Trail {
    Trail(Initial(cfg), map[], [])
  }

  lemma SureAtFirst(covered: bool, cfg: Config)
    requires 1 <= cfg.ready <= cfg.entries
    ensures Sure(covered, Beginning(cfg))
  {
    InitialInv(cfg);
  }

  lemma MemberFresh(covered: bool, inv: Inventory, own: Own, i: nat)
    requires Inv(inv) && BatchReady(inv) && Traced(covered, Groups(inv), own) && Past(own, inv.version) && i < inv.cfg.ready
    ensures var m := Members(inv, own)[i];
            && m.Keys == (set r | r in Requests(Batch(inv)[i]))
            && forall r :: r in m ==> inv.version - inv.cfg.staleness <= m[r] <= inv.version
  {
    assert Used(inv, inv.version, i);
    var p := inv.buffers[inv.version][i].info.prompt;
    GroupOf(inv, p);
    assert Members(inv, own)[i] == own[p] && Truthful(covered, InfoOf(inv, p), own[p]);
  }

  lemma BatchMembersFresh(covered: bool, inv: Inventory, own: Own)
    requires Inv(inv) && BatchReady(inv) && Traced(covered, Groups(inv), own) && Past(own, inv.version)
    ensures MembersFresh(inv.cfg, Consumed(inv.version, Batch(inv), Members(inv, own)))
  {
    BatchIsFresh(inv);
    forall i | 0 <= i < inv.cfg.ready
      ensures var m := Members(inv, own)[i];
              && m.Keys == (set r | r in Requests(Batch(inv)[i]))
              && forall r :: r in m ==> inv.version - inv.cfg.staleness <= m[r] <= inv.version
    {
      MemberFresh(covered, inv, own, i);
    }
  }

  lemma LogFresh(covered: bool, t: Trail, step: Step, t1: Trail)
    requires Sure(covered, t) && Advances(t, step, t1)
    ensures TrailFresh(t.inv.cfg, t1.inv.version, t1.log)
  {
    NextFrame(t.inv, step);
    if step.ConsumeStep? {
      BatchMembersFresh(covered, t.inv, t.own);
    }
  }

  lemma AdvanceKeeps(t: Trail, step: Step, t1: Trail)
    requires Advances(t, step, t1)
    ensures Inv(t1.inv) && t1.inv.cfg == t.inv.cfg && t.inv.version <= t1.inv.version
  {
    NextKeepsInv(t.inv, step);
    NextFrame(t.inv, step);
  }

  lemma AdvanceSure(covered: bool, t: Trail, step: Step, t1: Trail)
    requires Sure(covered, t) && Advances(t, step, t1) && Allowed(covered, t.inv, step)
    ensures Sure(covered, t1) && t1.inv.cfg == t.inv.cfg
  {
    AdvanceKeeps(t, step, t1);
    NextTraced(covered, t.inv, t.own, step);
    NextPast(t.inv, t.own, step);
    LogFresh(covered, t, step, t1);
  }

  /** Every step of the run is allowed where it is taken. */
  ghost predicate AllowedRun(covered: bool, t: Trail, steps: seq<Step>)
    decreases |steps|
  {
    steps != [] ==>
      var n := |steps| - 1;
      && AllowedRun(covered, t, steps[..n])
      && forall mid :: RunsTo(t, steps[..n], mid) && Inv(mid.inv) ==> Allowed(covered, mid.inv, steps[n])
  }

  /**
   The staleness guarantee for trajectories. In every run whose joins are shown no newer version than
   their own, and likewise in every run whose retags and partial aborts find the versions of their group
   lined up with its requests, each trajectory of each batch trained on is within the staleness bound of
   its own version.
   */
  lemma {:induction false} EveryTrajectoryIsFresh(covered: bool, t: Trail, steps: seq<Step>, t1: Trail)
    requires Sure(covered, t) && RunsTo(t, steps, t1) && AllowedRun(covered, t, steps)
    ensures Sure(covered, t1) && t1.inv.cfg == t.inv.cfg
    decreases |steps|
  {
    if steps != [] {
      var n := |steps| - 1;
      var mid :| RunsTo(t, steps[..n], mid) && Advances(mid, steps[n], t1);
      EveryTrajectoryIsFresh(covered, t, steps[..n], mid);
      AdvanceSure(covered, mid, steps[n], t1);
    }
  }

  /** The guarantee from the empty inventory on. */
  lemma EveryRunTrainsOnFresh(covered: bool, cfg: Config, steps: seq<Step>, t: Trail)
    requires 1 <= cfg.ready <= cfg.entries
    requires RunsTo(Beginning(cfg), steps, t) && AllowedRun(covered, Beginning(cfg), steps)
    ensures Inv(t.inv) && t.inv.cfg == cfg && TrailFresh(cfg, t.inv.version, t.log)
  {
    SureAtFirst(covered, cfg);
    EveryTrajectoryIsFresh(covered, Beginning(cfg), steps, t);
  }
}
