/** One broker's order manager as an observer sees it: the contract of broker and strategies, what
    each event does under it, and the slots and totals every event keeps right. */
module OrderWorld {
  import opened Common
  import opened Orders
  import opened Sums

  datatype Pending = Nothing | CancelOut(id: nat) | ReplaceOut(id: nat)

  /** What an observer knows of a slot: whether an open order is in it, where in the free list
      it waits otherwise, whether the broker has answered the order, and the request that is out
      for it.  `ids`: the order's own ids that lead here; `accepted`: its replacements that were
      accepted; `change`: how much more the replacement that is out would have cost when it was
      asked for; `since`: the shares filled from then on. */
  datatype Slot = Slot(order: Order, open: bool, place: nat, answered: bool, out: Pending,
                       ids: set<nat>, accepted: nat, change: int, since: int)

  /** The manager's state with that knowledge beside it.  `late`: shares filled while a
      cancellation was out; `bought`: limit price times shares over all buy fills; `lost` and
      `excess`: what accepted and rejected replacements took from the broker's funds and gave to
      them too much; `replaced`: whether a replacement was ever requested; `spent`: what left the
      reserves for good; `overfilled`: whether a replacement to less than is filled was accepted. */
  datatype World = World(m: Manager, slots: seq<Slot>, late: BySide, spent: int, bought: int,
                         lost: int, excess: int, replaced: bool, overfilled: bool)

  function Start(slots: nat, maxOrders: nat, balance: int): World {
    World(Init(slots, maxOrders, balance),
          seq(slots, i requires 0 <= i => Slot(NO_ORDER, false, i, false, Nothing, {}, 0, 0, 0)),
          BySide(0, 0), 0, 0, 0, 0, false, false)
  }

  // ---------------------------------------------------------------- what is counted

  function IsOpen(s: Slot): int { if s.open then 1 else 0 }

  function Left(o: Order): int { o.volume - o.filled }

  /** Shares an open order still asks for: those of the replacement while one is out. */
  function Wanted(side: Side): Slot -> int {
    (s: Slot) => if s.open && s.order.side == side
                 then (if s.out.ReplaceOut? then s.order.newVolume else s.order.volume) - s.order.filled else 0
  }

  function Withdrawn(side: Side): Slot -> int {
    (s: Slot) => if s.open && s.order.side == side && s.out.CancelOut? then Left(s.order) else 0
  }

  function CostLeft(o: Order): int { Cost(o.price, Left(o), o.side) }
  function NewCostLeft(o: Order): int { Cost(o.newPrice, o.newVolume - o.filled, o.side) }

  /** What should be kept back for an order: the larger cost while a replacement is out. */
  function Reserve(s: Slot): int {
    if !s.open then 0
    else if s.out.ReplaceOut? && NewCostLeft(s.order) > CostLeft(s.order) then NewCostLeft(s.order)
    else CostLeft(s.order)
  }

  function Positive(x: int): int { if x > 0 then x else 0 }

  /** What was in fact taken for an order and neither bought for nor given back. */
  function Held(s: Slot): int {
    if !s.open then 0 else CostLeft(s.order) + (if s.out.ReplaceOut? then Positive(s.change) else 0)
  }

  // ---------------------------------------------------------------- the contract

  predicate OpenFor(w: World, id: nat)
    requires Shape(w.m) && |w.slots| == |w.m.entries|
  {
    Lookup(w.m, id).Some? ==> w.slots[w.m.idMap[id]].open
  }

  /** Requests name open orders with nothing out, at non-negative prices and volumes; reports
      name open orders and answer the request that is out; a rejection answers only a new
      order nobody has answered; a fill carries the order's side, does not overfill it, and is
      complete exactly when it fills the order with nothing out.  Ids that lead to no order
      may be named freely. */
  predicate Contract(w: World, ev: Event)
    requires Shape(w.m) && |w.slots| == |w.m.entries|
  {
    var m := w.m;
    match ev
    case NewOrder(_, _, price, volume) => price >= 0 && volume >= 0
    case CancelOrder(id) => OpenFor(w, id) && (Lookup(m, id).Some? ==> w.slots[m.idMap[id]].out.Nothing?)
    case EditOrder(id, price, volume) =>
      OpenFor(w, id) && price >= 0 && volume >= 0 && (Lookup(m, id).Some? ==> w.slots[m.idMap[id]].out.Nothing?)
    case Ack(id) => OpenFor(w, id)
    case Reject(id) =>
      OpenFor(w, id) &&
      (Lookup(m, id).Some? ==> var s := w.slots[m.idMap[id]]; !s.answered && s.out.Nothing?)
    case Fill(id, side, last, cum, price, complete) =>
      OpenFor(w, id) &&
      (Lookup(m, id).Some? ==>
         var s := w.slots[m.idMap[id]];
         side == s.order.side && last >= 0 && cum <= s.order.volume &&
         (complete <==> cum == s.order.volume && s.out.Nothing?))
    case Cancelled(id) => OpenFor(w, id) && (Lookup(m, id).Some? ==> w.slots[m.idMap[id]].out == CancelOut(id))
    case CancelRejected(id) => OpenFor(w, id) && (Lookup(m, id).Some? ==> w.slots[m.idMap[id]].out == CancelOut(id))
    case Replaced(id) => OpenFor(w, id) && (Lookup(m, id).Some? ==> w.slots[m.idMap[id]].out == ReplaceOut(id))
    case ReplaceRejected(id) => OpenFor(w, id) && (Lookup(m, id).Some? ==> w.slots[m.idMap[id]].out == ReplaceOut(id))
  }

  // ---------------------------------------------------------------- the invariant

  predicate SlotOk(m: Manager, slots: seq<Slot>, s: nat)
    requires Shape(m) && s < |slots| == |m.entries|
  {
    var k := slots[s];
    && k.order == m.entries[s]
    && (!k.open ==> m.freePtr <= k.place < |m.free| && m.free[k.place] == s)
    && (k.open ==>
          && 0 < k.order.id < m.nextId && k.order.id <= m.maxOrders
          && k.order.price >= 0
          && (m.idMap[k.order.id] == s || (k.answered && m.idMap[k.order.id] == m.End()))
          && (!k.answered ==> k.order.filled == 0)
          && (k.out.ReplaceOut? ==> k.order.newPrice >= 0)
          && (!k.out.Nothing? ==> k.order.id < k.out.id < m.nextId))
  }

  /** The order's ids all lead to its slot: the first one until a replacement is accepted, then
      one for each accepted replacement, and the one of the request that is out. */
  ghost predicate IdsOk(m: Manager, slots: seq<Slot>, s: nat)
    requires Shape(m) && s < |slots| == |m.entries|
  {
    var k := slots[s];
    k.open ==>
      && (forall i <- k.ids :: i < m.nextId && Lookup(m, i) == Some(s))
      && (k.order.id in k.ids <==> k.accepted == 0)
      && (k.accepted > 0 ==> Lookup(m, k.order.id) == None)
      && (!k.answered ==> k.accepted == 0)
      && (!k.out.Nothing? ==> k.out.id in k.ids)
      && |k.ids| == (if k.accepted == 0 then 1 else k.accepted) + (if k.out.Nothing? then 0 else 1)
  }

  /** The replacement that is out costs what it did when asked for, less what the shares filled
      since then would have cost more. */
  predicate ChangeOk(k: Slot) {
    k.open && k.out.ReplaceOut? ==>
      NewCostLeft(k.order) - CostLeft(k.order)
      == k.change - Cost(k.order.newPrice, k.since, k.order.side) + Cost(k.order.price, k.since, k.order.side)
  }

  predicate PlaceOk(m: Manager, slots: seq<Slot>, j: nat)
    requires Shape(m) && |slots| == |m.entries| && j < |m.free|
  {
    !slots[m.free[j]].open && slots[m.free[j]].place == j
  }

  ghost predicate SlotsOk(w: World) {
    && Shape(w.m) && |w.slots| == |w.m.entries|
    && w.m.freePtr <= |w.m.free| && 0 < w.m.nextId <= w.m.maxOrders + 1
    && (forall s :: 0 <= s < |w.slots| ==> SlotOk(w.m, w.slots, s))
    && (forall j :: w.m.freePtr <= j < |w.m.free| ==> PlaceOk(w.m, w.slots, j))
    && Sum(w.slots, IsOpen) == w.m.freePtr
  }

  ghost predicate AllIdsOk(w: World)
    requires Shape(w.m) && |w.slots| == |w.m.entries|
  {
    forall s :: 0 <= s < |w.slots| ==> IdsOk(w.m, w.slots, s)
  }

  ghost predicate AllChangesOk(w: World) { forall s :: 0 <= s < |w.slots| ==> ChangeOk(w.slots[s]) }

  ghost predicate TotalsOk(w: World, side: Side) {
    && w.m.pending.Of(side) == Sum(w.slots, Wanted(side))
    && w.m.cancelling.Of(side) == Sum(w.slots, Withdrawn(side)) + w.late.Of(side)
  }

  // ---------------------------------------------------------------- a step

  /** The slot an event acts on, if it acts at all. */
  function Touched(w: World, ev: Event): (s: Option<nat>)
    requires Shape(w.m) && |w.slots| == |w.m.entries| && Contract(w, ev) && Defined(w.m, ev)
    ensures s.Some? ==> s.value < |w.slots|
  {
    var m := w.m;
    match ev
    case NewOrder(_, _, _, _) =>
      if Handle(m, ev).call.None? then None else Some(m.free[m.freePtr])
    case EditOrder(id, p, v) => if EditRefused(m, id, p, v) then None else Some(m.idMap[id])
    case CancelOrder(id) => if m.nextId > m.maxOrders then None else Lookup(m, id)
    case Fill(id, _, last, cum, _, _) =>
      var s := Lookup(m, id);
      if s.Some? && cum == m.entries[s.value].filled + last then s else None
    case _ => Lookup(m, ev.id)
  }

  /** The observer's record of the touched slot afterwards. */
  function Seen(w: World, ev: Event, k: Slot, order: Order): Slot
    requires Shape(w.m)
  {
    var was := k.(order := order);
    var shut := was.(open := false, place := if w.m.freePtr > 0 then w.m.freePtr - 1 else 0, out := Nothing, ids := {});
    match ev
    case NewOrder(_, _, _, _) =>
      was.(open := true, answered := false, out := Nothing, ids := {w.m.nextId}, accepted := 0)
    case CancelOrder(_) => was.(out := CancelOut(w.m.nextId), ids := k.ids + {w.m.nextId})
    case EditOrder(_, p, v) =>
      was.(out := ReplaceOut(w.m.nextId), ids := k.ids + {w.m.nextId}, since := 0,
           change := NewCostLeft(order) - CostLeft(order))
    case Ack(_) => was.(answered := true)
    case Reject(_) => shut
    case Fill(_, _, last, _, _, complete) => if complete then shut else was.(answered := true, since := k.since + last)
    case Cancelled(_) => shut
    case CancelRejected(id) => was.(out := Nothing, ids := k.ids - {id})
    case Replaced(_) => was.(answered := true, out := Nothing, ids := k.ids - {order.id}, accepted := k.accepted + 1)
    case ReplaceRejected(id) => was.(out := Nothing, ids := k.ids - {id})
  }

  /** What an accepted replacement takes from the funds: what was held beyond its cost. */
  function Loss(k: Slot): int { Held(k) - NewCostLeft(k.order) }

  /** What a rejected replacement gives back beyond what was taken for it. */
  function Excess(k: Slot): int { Extra(k.order, k.order.newPrice, k.order.newVolume) - Positive(k.change) }

  /** The totals of the world after `ev` has turned slot `k` into `k'`. */
  function Counted(w: World, ev: Event, k: Slot, k': Slot): World {
    match ev
    case EditOrder(_, _, _) => w.(replaced := true)
    case Fill(_, side, last, _, _, _) =>
      w.(late := if k.out.CancelOut? then w.late.Plus(side, last) else w.late,
         bought := w.bought + Cost(k.order.price, last, side),
         spent := w.spent + Reserve(k) - Reserve(k'))
    case Replaced(_) =>
      w.(spent := w.spent + Reserve(k) - Reserve(k'), lost := w.lost + Loss(k),
         overfilled := w.overfilled || k'.order.volume < k'.order.filled)
    case ReplaceRejected(_) => w.(excess := w.excess + Excess(k))
    case _ => w
  }

  function Next(w: World, ev: Event): World
    requires Shape(w.m) && |w.slots| == |w.m.entries| && Contract(w, ev) && Defined(w.m, ev)
  {
    HandleShape(w.m, ev);
    var m' := Handle(w.m, ev).m;
    match Touched(w, ev)
    case None => w
    case Some(s) =>
      var k' := Seen(w, ev, w.slots[s], m'.entries[s]);
      Counted(w, ev, w.slots[s], k').(m := m', slots := w.slots[s := k'])
  }

  lemma UntouchedChangesNothing(w: World, ev: Event)
    requires Shape(w.m) && |w.slots| == |w.m.entries| && Contract(w, ev) && Defined(w.m, ev)
    ensures Touched(w, ev).None? ==> Handle(w.m, ev).m == w.m
  {
  }

  /** Under the contract no slot is given back that is not taken. */
  lemma ContractIsDefined(w: World, ev: Event)
    requires SlotsOk(w) && Contract(w, ev)
    ensures Defined(w.m, ev)
  {
    if ev.Reject? || ev.Fill? || ev.Cancelled? || ev.Replaced? {
      if Lookup(w.m, ev.id).Some? {
        var s := w.m.idMap[ev.id];
        assert SlotOk(w.m, w.slots, s);
        SumAtLeast(w.slots, s, IsOpen);
      }
    }
  }

  // How the touched slot's contribution to each total moves, and the total with it.

  lemma CountDelta(w: World, ev: Event, s: nat)
    requires SlotsOk(w) && Contract(w, ev) && Defined(w.m, ev) && Touched(w, ev) == Some(s)
    ensures var (w', k, k') := (Next(w, ev), w.slots[s], Next(w, ev).slots[s]);
            w'.m.freePtr - w.m.freePtr == IsOpen(k') - IsOpen(k)
  {
    assert SlotOk(w.m, w.slots, s);
    if ev.NewOrder? { assert PlaceOk(w.m, w.slots, w.m.freePtr); }
  }

  predicate IsRequest(ev: Event) { ev.NewOrder? || ev.CancelOrder? || ev.EditOrder? }

  lemma RequestPendingDelta(w: World, ev: Event, s: nat, side: Side)
    requires SlotsOk(w) && Contract(w, ev) && Defined(w.m, ev) && Touched(w, ev) == Some(s) && IsRequest(ev)
    ensures var (w', k, k') := (Next(w, ev), w.slots[s], Next(w, ev).slots[s]);
            w'.m.pending.Of(side) - w.m.pending.Of(side) == Wanted(side)(k') - Wanted(side)(k)
  {
    assert SlotOk(w.m, w.slots, s);
    if ev.NewOrder? { assert PlaceOk(w.m, w.slots, w.m.freePtr); }
  }

  lemma ReportPendingDelta(w: World, ev: Event, s: nat, side: Side)
    requires SlotsOk(w) && Contract(w, ev) && Defined(w.m, ev) && Touched(w, ev) == Some(s) && !IsRequest(ev)
    ensures var (w', k, k') := (Next(w, ev), w.slots[s], Next(w, ev).slots[s]);
            w'.m.pending.Of(side) - w.m.pending.Of(side) == Wanted(side)(k') - Wanted(side)(k)
  {
    assert SlotOk(w.m, w.slots, s);
  }

  lemma RequestCancellingDelta(w: World, ev: Event, s: nat, side: Side)
    requires SlotsOk(w) && Contract(w, ev) && Defined(w.m, ev) && Touched(w, ev) == Some(s) && IsRequest(ev)
    ensures var (w', k, k') := (Next(w, ev), w.slots[s], Next(w, ev).slots[s]);
            w'.m.cancelling.Of(side) - w.m.cancelling.Of(side) == Withdrawn(side)(k') - Withdrawn(side)(k)
            && w'.late == w.late
  {
    assert SlotOk(w.m, w.slots, s);
    if ev.NewOrder? { assert PlaceOk(w.m, w.slots, w.m.freePtr); }
  }

  lemma CancellingDelta(w: World, ev: Event, s: nat, side: Side)
    requires SlotsOk(w) && Contract(w, ev) && Defined(w.m, ev) && Touched(w, ev) == Some(s)
    ensures var (w', k, k') := (Next(w, ev), w.slots[s], Next(w, ev).slots[s]);
            w'.m.cancelling.Of(side) - w.m.cancelling.Of(side)
            == Withdrawn(side)(k') - Withdrawn(side)(k) + w'.late.Of(side) - w.late.Of(side)
  {
    if IsRequest(ev) { RequestCancellingDelta(w, ev, s, side); } else { ReportCancellingDelta(w, ev, s, side); }
  }

  lemma ReportCancellingDelta(w: World, ev: Event, s: nat, side: Side)
    requires SlotsOk(w) && Contract(w, ev) && Defined(w.m, ev) && Touched(w, ev) == Some(s) && !IsRequest(ev)
    ensures var (w', k, k') := (Next(w, ev), w.slots[s], Next(w, ev).slots[s]);
            w'.m.cancelling.Of(side) - w.m.cancelling.Of(side)
            == Withdrawn(side)(k') - Withdrawn(side)(k) + w'.late.Of(side) - w.late.Of(side)
  {
    assert SlotOk(w.m, w.slots, s);
  }

  lemma RequestFundsDelta(w: World, ev: Event, s: nat)
    requires SlotsOk(w) && Contract(w, ev) && Defined(w.m, ev) && Touched(w, ev) == Some(s) && IsRequest(ev)
    ensures var (w', k, k') := (Next(w, ev), w.slots[s], Next(w, ev).slots[s]);
            w'.m.balance - w.m.balance == Reserve(k) - Reserve(k') && w'.spent == w.spent
  {
    assert SlotOk(w.m, w.slots, s);
    if ev.NewOrder? { assert PlaceOk(w.m, w.slots, w.m.freePtr); }
  }

  lemma ReportFundsDelta(w: World, ev: Event, s: nat)
    requires SlotsOk(w) && Contract(w, ev) && Defined(w.m, ev) && Touched(w, ev) == Some(s) && !IsRequest(ev)
    ensures var (w', k, k') := (Next(w, ev), w.slots[s], Next(w, ev).slots[s]);
            w'.m.balance - w.m.balance == Reserve(k) - Reserve(k') - (w'.spent - w.spent)
  {
    assert SlotOk(w.m, w.slots, s);
  }

  lemma StepTotals(w: World, ev: Event, side: Side)
    requires SlotsOk(w) && TotalsOk(w, side) && Contract(w, ev) && Defined(w.m, ev)
    ensures TotalsOk(Next(w, ev), side)
  {
    UntouchedChangesNothing(w, ev);
    if Touched(w, ev).Some? {
      var s := Touched(w, ev).value;
      var k' := Next(w, ev).slots[s];
      if IsRequest(ev) { RequestPendingDelta(w, ev, s, side); } else { ReportPendingDelta(w, ev, s, side); }
      CancellingDelta(w, ev, s, side);
      SumUpdate(w.slots, s, k', Wanted(side));
      SumUpdate(w.slots, s, k', Withdrawn(side));
    }
  }

  /** Balance, reserves and what is spent always add up to the same amount. */
  lemma StepFunds(w: World, ev: Event)
    requires SlotsOk(w) && Contract(w, ev) && Defined(w.m, ev)
    ensures Next(w, ev).m.balance + Sum(Next(w, ev).slots, Reserve) + Next(w, ev).spent
            == w.m.balance + Sum(w.slots, Reserve) + w.spent
  {
    UntouchedChangesNothing(w, ev);
    if Touched(w, ev).Some? {
      var s := Touched(w, ev).value;
      if IsRequest(ev) { RequestFundsDelta(w, ev, s); } else { ReportFundsDelta(w, ev, s); }
      SumUpdate(w.slots, s, Next(w, ev).slots[s], Reserve);
    }
  }

  /** Which cells of the id map and the free list an event may write. */
  lemma StepShape(w: World, ev: Event, s: nat)
    requires SlotsOk(w) && Contract(w, ev) && Defined(w.m, ev) && Touched(w, ev) == Some(s)
    ensures var m, m' := w.m, Next(w, ev).m;
            && Shape(m') && m'.maxOrders == m.maxOrders && |m'.entries| == |m.entries|
            && m.nextId <= m'.nextId <= m.maxOrders + 1
            && (forall t :: 0 <= t < |m.entries| && t != s ==> m'.entries[t] == m.entries[t])
            && (forall j :: 0 <= j < |m.free| && !(m'.freePtr == j == m.freePtr - 1) ==> m'.free[j] == m.free[j])
            && (m'.freePtr == m.freePtr - 1 ==> m'.free[m'.freePtr] == s)
            && (forall i :: 0 <= i < |m.idMap| && m'.idMap[i] != m.idMap[i] ==>
                  (i == m.nextId && m'.idMap[i] == s) || (m'.idMap[i] == m.End() && m.idMap[i] == s))
  {
    HandleShape(w.m, ev);
    assert SlotOk(w.m, w.slots, s);
  }

  lemma StepOwnSlot(w: World, ev: Event, s: nat)
    requires SlotsOk(w) && Contract(w, ev) && Defined(w.m, ev) && Touched(w, ev) == Some(s)
    ensures Shape(Next(w, ev).m) && SlotOk(Next(w, ev).m, Next(w, ev).slots, s)
  {
    StepShape(w, ev, s);
    assert SlotOk(w.m, w.slots, s);
    if ev.NewOrder? { assert PlaceOk(w.m, w.slots, w.m.freePtr); }
  }

  lemma StepOtherSlot(w: World, ev: Event, s: nat, t: nat)
    requires SlotsOk(w) && Contract(w, ev) && Defined(w.m, ev) && Touched(w, ev) == Some(s)
    requires t < |w.slots| && t != s
    ensures Shape(Next(w, ev).m) && SlotOk(Next(w, ev).m, Next(w, ev).slots, t)
  {
    StepShape(w, ev, s);
    CountDelta(w, ev, s);
    assert SlotOk(w.m, w.slots, s) && SlotOk(w.m, w.slots, t);
    if ev.NewOrder? { assert PlaceOk(w.m, w.slots, w.m.freePtr); }
  }

  lemma StepPlace(w: World, ev: Event, s: nat, j: nat)
    requires SlotsOk(w) && Contract(w, ev) && Defined(w.m, ev) && Touched(w, ev) == Some(s)
    requires Next(w, ev).m.freePtr <= j < |w.m.free|
    ensures Shape(Next(w, ev).m) && PlaceOk(Next(w, ev).m, Next(w, ev).slots, j)
  {
    StepShape(w, ev, s);
    CountDelta(w, ev, s);
    assert SlotOk(w.m, w.slots, s);
    if j >= w.m.freePtr { assert PlaceOk(w.m, w.slots, j); }
    if ev.NewOrder? { assert PlaceOk(w.m, w.slots, w.m.freePtr); }
  }

  lemma StepSlotsOk(w: World, ev: Event)
    requires SlotsOk(w) && Contract(w, ev) && Defined(w.m, ev)
    ensures SlotsOk(Next(w, ev))
  {
    UntouchedChangesNothing(w, ev);
    if Touched(w, ev).Some? {
      var s, w' := Touched(w, ev).value, Next(w, ev);
      StepShape(w, ev, s);
      CountDelta(w, ev, s);
      SumUpdate(w.slots, s, w'.slots[s], IsOpen);
      forall t | 0 <= t < |w'.slots| ensures SlotOk(w'.m, w'.slots, t) {
        if t == s { StepOwnSlot(w, ev, s); } else { StepOtherSlot(w, ev, s, t); }
      }
      forall j | w'.m.freePtr <= j < |w'.m.free| ensures PlaceOk(w'.m, w'.slots, j) {
        StepPlace(w, ev, s, j);
      }
    }
  }
}
