/**
 One staleness buffer: its slots, its status, and the slot edits that keep its shape.
 */
module StalenessBuffer {
  import opened EntryInfo

  datatype Slot = Empty | Reserved(info: Info) | Occupied(info: Info)

  datatype BufferStatus = Ready | Stuck | Pending | ReadyWithCapacity

  /** Index of the first slot that is not occupied, or the length. */
  function FirstNonOccupied(es: seq<Slot>): (k: nat)
    ensures k <= |es|
    ensures forall i :: 0 <= i < k ==> es[i].Occupied?
    ensures k < |es| ==> !es[k].Occupied?
  {
    if |es| == 0 || !es[0].Occupied? then 0 else 1 + FirstNonOccupied(es[1..])
  }

  /** Index of the last slot that is not reserved, or -1. */
  function LastNonReserved(es: seq<Slot>): (k: int)
    ensures -1 <= k < |es|
    ensures forall i :: k < i < |es| ==> es[i].Reserved?
    ensures 0 <= k ==> !es[k].Reserved?
  {
    if |es| == 0 || !es[|es| - 1].Reserved? then |es| - 1 else LastNonReserved(es[..|es| - 1])
  }

  predicate HasEmpty(es: seq<Slot>) {
    exists i :: 0 <= i < |es| && es[i].Empty?
  }

  predicate HasReserved(es: seq<Slot>) {
    exists i :: 0 <= i < |es| && es[i].Reserved?
  }

  /** The status computed from the slots; `ready` slots make a training batch. */
  function Status(es: seq<Slot>, ready: nat): BufferStatus
    requires ready <= |es|
  {
    var first := FirstNonOccupied(es);
    if first == ready then
      if HasEmpty(es[ready..]) then ReadyWithCapacity else Ready
    else if first == LastNonReserved(es) + 1 then Stuck
    else Pending
  }

  predicate Capacious(s: BufferStatus) {
    s.Pending? || s.ReadyWithCapacity?
  }

  predicate IsReady(s: BufferStatus) {
    s.Ready? || s.ReadyWithCapacity?
  }

  /**
   The shape every operation keeps: an occupied prefix of at most `ready` slots, and behind a
   reserved slot that belongs to the batch only reserved slots. The surplus slots from `ready` on
   may mix empty and reserved ones.
   */
  ghost predicate Shape(es: seq<Slot>, ready: nat) {
    && FirstNonOccupied(es) <= ready
    && (forall i :: FirstNonOccupied(es) <= i < |es| ==> !es[i].Occupied?)
    && (forall i :: 0 <= i < |es| && i < ready && es[i].Reserved? ==> LastNonReserved(es) < i)
  }

  lemma TailHasEmpty(es: seq<Slot>, ready: nat)
    requires ready <= |es| && forall i :: 0 <= i < ready ==> !es[i].Empty?
    ensures HasEmpty(es[ready..]) <==> HasEmpty(es)
  {
    var tail := es[ready..];
    if i :| 0 <= i < |es| && es[i].Empty? {
      assert tail[i - ready].Empty?;
    }
    if i :| 0 <= i < |tail| && tail[i].Empty? {
      assert es[i + ready].Empty?;
    }
  }

  /** In a buffer of this shape the status says what its documentation says. */
  lemma StatusMeaning(es: seq<Slot>, ready: nat)
    requires ready <= |es| && Shape(es, ready)
    ensures FirstNonOccupied(es) <= ready
    ensures IsReady(Status(es, ready)) <==> forall i :: 0 <= i < ready ==> es[i].Occupied?
    ensures Capacious(Status(es, ready)) <==> HasEmpty(es)
    ensures Status(es, ready).Stuck? <==> FirstNonOccupied(es) < ready && !HasEmpty(es)
    ensures IsReady(Status(es, ready)) <==> FirstNonOccupied(es) == ready
  {
    var first: int := FirstNonOccupied(es);
    if first == ready {
      TailHasEmpty(es, ready);
    } else if es[first].Reserved? {
      SuffixStart(es, first - 1);
    }
  }

  /** A not-ready buffer with room has that room at the end of its occupied prefix. */
  lemma RoomAtFront(es: seq<Slot>, ready: nat)
    requires ready <= |es| && Shape(es, ready) && HasEmpty(es) && FirstNonOccupied(es) < ready
    ensures es[FirstNonOccupied(es)].Empty?
  {
    var k := FirstNonOccupied(es);
    var i :| 0 <= i < |es| && es[i].Empty?;
    assert k <= i;
  }

  /** Any buffer with room has it right before its reserved suffix. */
  lemma RoomAtBack(es: seq<Slot>, ready: nat)
    requires ready <= |es| && Shape(es, ready) && HasEmpty(es)
    ensures 0 <= LastNonReserved(es) && es[LastNonReserved(es)].Empty?
  {
    var i :| 0 <= i < |es| && es[i].Empty?;
    assert i <= LastNonReserved(es);
  }

  /** The occupied prefix is determined by its length. */
  lemma PrefixLength(es: seq<Slot>, k: nat)
    requires k <= |es| && (forall i :: 0 <= i < k ==> es[i].Occupied?)
    requires k < |es| ==> !es[k].Occupied?
    ensures FirstNonOccupied(es) == k
  {
  }

  /** So is the reserved suffix. */
  lemma SuffixStart(es: seq<Slot>, k: int)
    requires -1 <= k < |es| && (forall i :: k < i < |es| ==> es[i].Reserved?)
    requires 0 <= k ==> !es[k].Reserved?
    ensures LastNonReserved(es) == k
  {
  }

  // ---- Edits ----

  /** Reserve the slot right before the reserved suffix. */
  lemma ReserveKeepsShape(es: seq<Slot>, ready: nat, info: Info)
    requires ready <= |es| && Shape(es, ready) && HasEmpty(es)
    ensures var e := LastNonReserved(es); var es' := es[e := Reserved(info)];
            Shape(es', ready) && FirstNonOccupied(es') == FirstNonOccupied(es)
  {
    RoomAtBack(es, ready);
    var e := LastNonReserved(es);
    PrefixLength(es[e := Reserved(info)], FirstNonOccupied(es));
    assert forall i :: 0 <= i < e && i < ready ==> !es[i].Reserved?;
    var last := LastNonReserved(es[e := Reserved(info)]);
    assert last < e;
  }

  /** Occupy the end of the prefix, over an empty or a reserved slot. */
  lemma OccupyKeepsShape(es: seq<Slot>, ready: nat, info: Info)
    requires ready <= |es| && Shape(es, ready) && FirstNonOccupied(es) < ready
    ensures var e := FirstNonOccupied(es); var es' := es[e := Occupied(info)];
            Shape(es', ready) && FirstNonOccupied(es') == e + 1
  {
    var e := FirstNonOccupied(es);
    PrefixLength(es[e := Occupied(info)], e + 1);
  }

  /** The slots after removing reserved slot e and closing the gap from the suffix's boundary. */
  function WithoutReserved(es: seq<Slot>, e: nat): (es': seq<Slot>)
    requires e < |es| && es[e].Reserved?
    ensures |es'| == |es|
  {
    var last := LastNonReserved(es) + 1;
    if e > last then es[e := es[last]][last := Empty] else es[e := Empty]
  }

  lemma RemovalKeepsShape(es: seq<Slot>, ready: nat, e: nat)
    requires e < |es| && es[e].Reserved? && ready <= |es| && Shape(es, ready)
    ensures Shape(WithoutReserved(es, e), ready) && HasEmpty(WithoutReserved(es, e))
    ensures FirstNonOccupied(WithoutReserved(es, e)) == FirstNonOccupied(es)
  {
    var es' := WithoutReserved(es, e);
    var last := LastNonReserved(es) + 1;
    var gap := if e > last then last else e;
    RemovedSlots(es, e, gap);
    assert es'[gap].Empty?;
    PrefixLength(es', FirstNonOccupied(es));
    SuffixStart(es', if gap < last then last - 1 else gap);
  }

  /** All categories stay but that of the slot that is left empty. */
  lemma RemovedSlots(es: seq<Slot>, e: nat, gap: nat)
    requires e < |es| && es[e].Reserved? && gap == if e > LastNonReserved(es) + 1 then LastNonReserved(es) + 1 else e
    ensures var es' := WithoutReserved(es, e);
            && es'[gap].Empty? && es[gap].Reserved?
            && forall i :: 0 <= i < |es| && i != gap ==>
                 (es'[i].Empty? <==> es[i].Empty?) && (es'[i].Reserved? <==> es[i].Reserved?)
  {
  }

  /** Emptying a reserved slot without closing the gap is safe for the first reserved slot and for surplus slots. */
  lemma GapKeepsShape(es: seq<Slot>, ready: nat, e: nat)
    requires e < |es| && es[e].Reserved? && ready <= |es| && Shape(es, ready)
    requires forall i :: 0 <= i < e && i < ready ==> !es[i].Reserved?
    ensures Shape(es[e := Empty], ready) && HasEmpty(es[e := Empty])
    ensures FirstNonOccupied(es[e := Empty]) == FirstNonOccupied(es)
  {
    assert es[e := Empty][e].Empty?;
    PrefixLength(es[e := Empty], FirstNonOccupied(es));
  }

  /** The slots after removing occupied slot e and closing the gap from the prefix's end. */
  function WithoutOccupied(es: seq<Slot>, e: nat): (es': seq<Slot>)
    requires e < FirstNonOccupied(es)
    ensures |es'| == |es|
  {
    var last := FirstNonOccupied(es) - 1;
    es[e := es[last]][last := Empty]
  }

  lemma DropKeepsShape(es: seq<Slot>, ready: nat, e: nat)
    requires e < FirstNonOccupied(es) && ready <= |es| && Shape(es, ready)
    ensures Shape(WithoutOccupied(es, e), ready) && HasEmpty(WithoutOccupied(es, e))
    ensures FirstNonOccupied(WithoutOccupied(es, e)) == FirstNonOccupied(es) - 1
  {
    var es', last := WithoutOccupied(es, e), FirstNonOccupied(es) - 1;
    DroppedSlots(es, e);
    assert es'[last].Empty?;
    PrefixLength(es', last);
    SuffixStart(es', LastNonReserved(es));
  }

  lemma DroppedSlots(es: seq<Slot>, e: nat)
    requires e < FirstNonOccupied(es)
    ensures var es', last := WithoutOccupied(es, e), FirstNonOccupied(es) - 1;
            && es'[last].Empty? && (forall i :: 0 <= i < last ==> es'[i].Occupied?)
            && forall i :: last < i < |es| ==> es'[i] == es[i]
  {
  }

  /**
   The "reserved" removal applied to an occupied slot keeps the shape only at the end of the
   prefix: the function trusts its caller that the slot is reserved.
   */
  lemma RemovalOfOccupied(es: seq<Slot>, ready: nat, e: nat)
    requires e < |es| && es[e].Occupied? && ready <= |es| && Shape(es, ready)
    ensures e <= LastNonReserved(es)
    ensures Shape(es[e := Empty], ready) <==> e == FirstNonOccupied(es) - 1
  {
    var last := FirstNonOccupied(es) - 1;
    var es' := es[e := Empty];
    PrefixLength(es', e);
    SuffixStart(es', LastNonReserved(es));
    assert e < last ==> es'[last].Occupied?;
  }
}
