/**
 Where the protocol raises, exactly.
 */
module StalenessLimits {
  import opened StalenessInventory
  import opened StalenessOccupy
  import opened StalenessProtocol

  /** A new prompt under bound 0, where the check for a missing bound takes over. */
  predicate AtBoundZero(inv: Inventory, step: Step) {
    step.ReserveStep? && step.prompt !in inv.tracker && step.version + inv.cfg.staleness == 0
  }

  /** A finished surplus group. */
  predicate OfSurplus(inv: Inventory, step: Step) {
    step.OccupyStep? && step.prompt in inv.tracker && inv.cfg.ready <= EntryOf(inv, step.prompt)
  }

  /** Aborting requests that a group with a single, unlisted request does not have, when that one is enough. */
  predicate OfUnlisted(inv: Inventory, step: Step)
    requires Inv(inv)
  {
    && step.AbortStep? && step.prompt in inv.tracker && InfoOf(inv, step.prompt).requests.One?
    && InfoOf(inv, step.prompt).requests.value !in step.gone && step.need <= 1
  }

  /** Of all enabled steps exactly these raise: a surplus group no buffer takes is one of them. */
  lemma RaiseCondition(inv: Inventory, step: Step)
    requires Inv(inv) && Enabled(inv, step)
    ensures Next(inv, step).Raised? <==>
      || (OfSurplus(inv, step) && forall t :: !Takes(inv, step.prompt, t))
      || (AtBoundZero(inv, step) && |WithCapacity(Ensure(inv, 0))| != 1)
      || OfUnlisted(inv, step)
  {
    match step
    case ReserveStep(p, r, v, i) => ReserveRaises(inv, p, r, v, i);
    case RetagStep(p, r, v) =>
    case OccupyStep(p, t) => OccupyRaises(inv, p, t);
    case AbortStep(p, gone, need) => AbortRaises(inv, p, gone, need);
    case DropStep(p) =>
    case ConsumeStep =>
    case MarkStep(b) =>
    case DeleteStep(b) =>
  }

  lemma OccupyRaises(inv: Inventory, p: nat, t: nat)
    requires Inv(inv) && Enabled(inv, OccupyStep(p, t))
    ensures OccupyNext(inv, p, t).Raised? <==> OfSurplus(inv, OccupyStep(p, t)) && forall t :: !Takes(inv, p, t)
  {
    if EntryOf(inv, p) < inv.cfg.ready {
      BatchOccupyNeverLater(inv, p, t);
    } else {
      SurplusOccupyCondition(inv, p, t);
    }
  }

  lemma AbortRaises(inv: Inventory, p: nat, gone: set<int>, need: nat)
    requires Inv(inv) && 1 <= need
    ensures AbortNext(inv, p, gone, need).Raised? <==> OfUnlisted(inv, AbortStep(p, gone, need))
  {
    if p in inv.tracker && InfoOf(inv, p).requests.One? {
      var r := InfoOf(inv, p).requests.value;
      assert Rest(InfoOf(inv, p), gone) == if r in gone then {} else {r};
    }
  }

  lemma ReserveRaises(inv: Inventory, p: nat, r: int, v: nat, i: int)
    requires Inv(inv) && v <= inv.version && CanReserve(inv, p, v)
    ensures ReserveNext(inv, p, r, v, i).Raised? <==>
      p !in inv.tracker && v + inv.cfg.staleness == 0 && |WithCapacity(Ensure(inv, 0))| != 1
  {
    if p in inv.tracker {
      JoinIsGranted(inv, p, r, v, i);
    } else if v + inv.cfg.staleness == 0 {
      ReserveRaisesAtZero(inv, p, r, i);
    } else {
      NewIsGranted(inv, p, r, v, i);
    }
  }

  lemma JoinIsGranted(inv: Inventory, p: nat, r: int, v: nat, i: int)
    requires Inv(inv) && p in inv.tracker
    ensures ReserveNext(inv, p, r, v, i).Ok?
  {
  }

  lemma NewIsGranted(inv: Inventory, p: nat, r: int, v: nat, i: int)
    requires Inv(inv) && CanReserve(inv, p, v) && p !in inv.tracker && v + inv.cfg.staleness != 0
    ensures ReserveNext(inv, p, r, v, i).Ok?
  {
    ReserveAgreesWithCheck(inv, p, r, v, i);
  }

  lemma ReserveRaisesAtZero(inv: Inventory, p: nat, r: int, i: int)
    requires Inv(inv) && inv.cfg.staleness == 0 && p !in inv.tracker && CanReserve(inv, p, 0)
    ensures ReserveNext(inv, p, r, 0, i).Raised? <==> |WithCapacity(Ensure(inv, 0))| != 1
  {
    EnsureKeepsInv(inv, 0);
    LatestCandidate(Ensure(inv, 0), 0, 0);
    var room := WithCapacity(Ensure(inv, 0));
    assert 0 in room;
    ReserveAtBoundZero(inv, p, r, i, 0);
    if |room| == 1 {
      OnlyMember(room, 0);
    }
  }

  /** Without surplus slots and with a positive bound no enabled step raises but that abort. */
  lemma NoSurplusNeverRaises(inv: Inventory, step: Step)
    requires Inv(inv) && Enabled(inv, step)
    requires inv.cfg.ready == inv.cfg.entries && 0 < inv.cfg.staleness
    ensures Next(inv, step).Raised? <==> OfUnlisted(inv, step)
  {
    RaiseCondition(inv, step);
    if step.OccupyStep? {
      assert Used(inv, BufferOf(inv, step.prompt), EntryOf(inv, step.prompt));
    }
  }
}
