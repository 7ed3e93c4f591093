/** Which ids lead to an order, and which of them still lead somewhere after it is closed. */
module OrderIds {
  import opened Common
  import opened Orders
  import opened OrderWorld

  /** Ids keep leading to another open order. */
  lemma OtherIds(w: World, ev: Event, s: nat, t: nat)
    requires SlotsOk(w) && AllIdsOk(w) && Contract(w, ev) && Defined(w.m, ev) && Touched(w, ev) == Some(s)
    requires t < |w.slots| && t != s
    ensures Shape(Next(w, ev).m) && IdsOk(Next(w, ev).m, Next(w, ev).slots, t)
  {
    StepShape(w, ev, s);
    assert IdsOk(w.m, w.slots, t) && SlotOk(w.m, w.slots, t);
  }

  lemma OneMore(ids: set<nat>, i: nat)
    requires i !in ids
    ensures |ids + {i}| == |ids| + 1
  {
  }

  lemma OneLess(ids: set<nat>, i: nat)
    requires i in ids
    ensures |ids - {i}| == |ids| - 1
  {
  }

  lemma FirstId(w: World, ev: Event, s: nat)
    requires SlotsOk(w) && Contract(w, ev) && Defined(w.m, ev) && Touched(w, ev) == Some(s) && ev.NewOrder?
    ensures Shape(Next(w, ev).m) && IdsOk(Next(w, ev).m, Next(w, ev).slots, s)
  {
    StepShape(w, ev, s);
  }

  lemma NextId(w: World, ev: Event, s: nat)
    requires SlotsOk(w) && AllIdsOk(w) && Contract(w, ev) && Defined(w.m, ev) && Touched(w, ev) == Some(s)
    requires ev.CancelOrder? || ev.EditOrder?
    ensures Shape(Next(w, ev).m) && IdsOk(Next(w, ev).m, Next(w, ev).slots, s)
  {
    StepShape(w, ev, s);
    assert IdsOk(w.m, w.slots, s) && SlotOk(w.m, w.slots, s);
    OneMore(w.slots[s].ids, w.m.nextId);
  }

  /** A refused request takes its id along. */
  lemma RefusedIds(w: World, ev: Event, s: nat)
    requires SlotsOk(w) && AllIdsOk(w) && Contract(w, ev) && Defined(w.m, ev) && Touched(w, ev) == Some(s)
    requires ev.CancelRejected? || ev.ReplaceRejected?
    ensures Shape(Next(w, ev).m) && IdsOk(Next(w, ev).m, Next(w, ev).slots, s)
  {
    StepShape(w, ev, s);
    assert IdsOk(w.m, w.slots, s) && SlotOk(w.m, w.slots, s);
    OneLess(w.slots[s].ids, ev.id);
  }

  /** The first accepted replacement takes the first id along. */
  lemma ReplacedIds(w: World, ev: Event, s: nat)
    requires SlotsOk(w) && AllIdsOk(w) && Contract(w, ev) && Defined(w.m, ev) && Touched(w, ev) == Some(s)
    requires ev.Replaced?
    ensures Shape(Next(w, ev).m) && IdsOk(Next(w, ev).m, Next(w, ev).slots, s)
  {
    StepShape(w, ev, s);
    var k := w.slots[s];
    assert IdsOk(w.m, w.slots, s) && SlotOk(w.m, w.slots, s);
    if k.accepted == 0 { OneLess(k.ids, k.order.id); } else { assert k.ids - {k.order.id} == k.ids; }
  }

  /** Acknowledgements and fills leave the ids alone, as long as the order is open. */
  lemma KeptIds(w: World, ev: Event, s: nat)
    requires SlotsOk(w) && AllIdsOk(w) && Contract(w, ev) && Defined(w.m, ev) && Touched(w, ev) == Some(s)
    requires ev.Ack? || (ev.Fill? && !ev.complete)
    ensures Shape(Next(w, ev).m) && IdsOk(Next(w, ev).m, Next(w, ev).slots, s)
  {
    StepShape(w, ev, s);
    assert IdsOk(w.m, w.slots, s) && SlotOk(w.m, w.slots, s);
    SameIds(w.m, Next(w, ev).m, w.slots, Next(w, ev).slots, s);
  }

  lemma SameIds(m: Manager, m': Manager, slots: seq<Slot>, slots': seq<Slot>, s: nat)
    requires Shape(m) && Shape(m') && s < |slots| == |m.entries| == |slots'| == |m'.entries| && IdsOk(m, slots, s)
    requires m'.idMap == m.idMap && m'.maxOrders == m.maxOrders && m'.nextId == m.nextId && slots[s].open
    requires var (k, k') := (slots[s], slots'[s]);
             && k'.ids == k.ids && k'.order.id == k.order.id && k'.accepted == k.accepted && k'.out == k.out
             && k'.answered
    ensures IdsOk(m', slots', s)
  {
  }

  lemma ClosedIds(w: World, ev: Event, s: nat)
    requires SlotsOk(w) && Contract(w, ev) && Defined(w.m, ev) && Touched(w, ev) == Some(s)
    requires ev.Reject? || ev.Cancelled? || (ev.Fill? && ev.complete)
    ensures Shape(Next(w, ev).m) && IdsOk(Next(w, ev).m, Next(w, ev).slots, s)
  {
    StepShape(w, ev, s);
  }

  lemma ReportIds(w: World, ev: Event, s: nat)
    requires SlotsOk(w) && AllIdsOk(w) && Contract(w, ev) && Defined(w.m, ev) && Touched(w, ev) == Some(s)
    requires !IsRequest(ev)
    ensures Shape(Next(w, ev).m) && IdsOk(Next(w, ev).m, Next(w, ev).slots, s)
  {
    if ev.CancelRejected? || ev.ReplaceRejected? { RefusedIds(w, ev, s); }
    else if ev.Replaced? { ReplacedIds(w, ev, s); }
    else if ev.Ack? || (ev.Fill? && !ev.complete) { KeptIds(w, ev, s); }
    else { ClosedIds(w, ev, s); }
  }

  lemma StepIdsOk(w: World, ev: Event)
    requires SlotsOk(w) && AllIdsOk(w) && Contract(w, ev) && Defined(w.m, ev)
    ensures SlotsOk(Next(w, ev)) && AllIdsOk(Next(w, ev))
  {
    StepSlotsOk(w, ev);
    UntouchedChangesNothing(w, ev);
    if Touched(w, ev).Some? {
      var s, w' := Touched(w, ev).value, Next(w, ev);
      forall t | 0 <= t < |w'.slots| ensures IdsOk(w'.m, w'.slots, t) {
        if t != s { OtherIds(w, ev, s, t); }
        else if ev.NewOrder? { FirstId(w, ev, s); }
        else if IsRequest(ev) { NextId(w, ev, s); }
        else { ReportIds(w, ev, s); }
      }
    }
  }

  /** Every id of an open order leads to its slot. */
  lemma IdsLead(w: World, id: nat)
    requires SlotsOk(w) && AllIdsOk(w)
    ensures forall s :: 0 <= s < |w.slots| && w.slots[s].open && id in w.slots[s].ids ==> Lookup(w.m, id) == Some(s)
  {
    forall s | 0 <= s < |w.slots| && w.slots[s].open && id in w.slots[s].ids ensures Lookup(w.m, id) == Some(s) {
      assert IdsOk(w.m, w.slots, s);
    }
  }

  // ---------------------------------------------------------------- after an order is closed

  /** The event closes the order in slot `s`. */
  predicate Closes(w: World, ev: Event, s: nat)
    requires SlotsOk(w) && Contract(w, ev) && Defined(w.m, ev)
  {
    Touched(w, ev) == Some(s) && w.slots[s].open && !Next(w, ev).slots[s].open
  }

  /** None of the order's ids leads anywhere. */
  ghost predicate Forgotten(ids: set<nat>, m: Manager)
    requires Shape(m)
  {
    forall i <- ids :: Lookup(m, i).None?
  }

  /** The report leaves no id behind: a rejection never does, a cancellation does for every
      replacement accepted before, a last fill for every one but the one it names. */
  predicate LeavesNone(ev: Event, k: Slot) {
    match ev
    case Cancelled(_) => k.accepted == 0
    case Fill(id, _, _, _, _, _) => id in k.ids && k.accepted <= 1
    case _ => true
  }

  lemma AnotherOf(ids: set<nat>, i: nat) returns (j: nat)
    requires |ids| >= 2
    ensures j in ids && j != i
  {
    if i in ids {
      OneLess(ids, i);
      j :| j in ids - {i};
    } else {
      j :| j in ids;
    }
  }

  lemma OnlyOne(ids: set<nat>, i: nat)
    requires |ids| == 1 && i in ids
    ensures ids == {i}
  {
    OneLess(ids, i);
  }

  lemma OnlyTwo(ids: set<nat>, i: nat, j: nat)
    requires |ids| == 2 && i in ids && j in ids && i != j
    ensures ids == {i, j}
  {
    OneLess(ids, i);
    OnlyOne(ids - {i}, j);
    assert ids == (ids - {i}) + {i};
  }

  lemma RejectForgets(w: World, ev: Event, s: nat)
    requires SlotsOk(w) && AllIdsOk(w) && Contract(w, ev) && Defined(w.m, ev) && ev.Reject? && Closes(w, ev, s)
    ensures Shape(Next(w, ev).m) && Forgotten(w.slots[s].ids, Next(w, ev).m)
  {
    StepShape(w, ev, s);
    assert IdsOk(w.m, w.slots, s) && SlotOk(w.m, w.slots, s);
    OnlyOne(w.slots[s].ids, w.slots[s].order.id);
  }

  lemma CancelForgets(w: World, ev: Event, s: nat)
    requires SlotsOk(w) && AllIdsOk(w) && Contract(w, ev) && Defined(w.m, ev) && ev.Cancelled? && Closes(w, ev, s)
    ensures Shape(Next(w, ev).m) && (Forgotten(w.slots[s].ids, Next(w, ev).m) <==> LeavesNone(ev, w.slots[s]))
  {
    StepShape(w, ev, s);
    var k := w.slots[s];
    assert IdsOk(w.m, w.slots, s) && SlotOk(w.m, w.slots, s);
    if k.accepted == 0 {
      OnlyTwo(k.ids, k.order.id, ev.id);
    } else {
      var j := AnotherOf(k.ids, ev.id);
      assert Lookup(Next(w, ev).m, j) == Some(s);
    }
  }

  lemma FillForgets(w: World, ev: Event, s: nat)
    requires SlotsOk(w) && AllIdsOk(w) && Contract(w, ev) && Defined(w.m, ev) && ev.Fill? && Closes(w, ev, s)
    ensures Shape(Next(w, ev).m) && (Forgotten(w.slots[s].ids, Next(w, ev).m) <==> LeavesNone(ev, w.slots[s]))
  {
    StepShape(w, ev, s);
    var k, m' := w.slots[s], Next(w, ev).m;
    assert IdsOk(w.m, w.slots, s) && SlotOk(w.m, w.slots, s);
    if ev.id in k.ids && k.accepted <= 1 {
      OnlyOne(k.ids, ev.id);
    } else if k.accepted > 1 {
      var j := AnotherOf(k.ids, ev.id);
      assert Lookup(m', j) == Some(s);
    } else {
      var j :| j in k.ids;
      assert Lookup(m', j) == Some(s);
    }
  }

  /** When an order closes, all ids that led to it lead nowhere exactly when `LeavesNone`. */
  lemma IdsForgottenIff(w: World, ev: Event, s: nat)
    requires SlotsOk(w) && AllIdsOk(w) && Contract(w, ev) && Defined(w.m, ev) && Closes(w, ev, s)
    ensures Shape(Next(w, ev).m)
    ensures Forgotten(w.slots[s].ids, Next(w, ev).m) <==> LeavesNone(ev, w.slots[s])
  {
    if ev.Reject? { RejectForgets(w, ev, s); }
    else if ev.Cancelled? { CancelForgets(w, ev, s); }
    else { FillForgets(w, ev, s); }
  }
}
