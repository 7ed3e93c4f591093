/** What each request and report means for the order it is about, for the broker's money and
    totals, and for all other orders. */
module OrderFacts {
  import opened Common
  import opened Orders
  import opened OrderWorld
  import opened OrderIds

  /** Every other open order keeps its slot, its record and its ids. */
  ghost predicate OthersKept(w: World, w': World, s: nat) {
    |w'.slots| == |w.slots| && forall t :: 0 <= t < |w.slots| && t != s && w.slots[t].open ==> w'.slots[t] == w.slots[t]
  }

  /** Balance, shares, and the totals, move by these amounts. */
  predicate Moved(w: World, w': World, money: int, own: int, side: Side, pending: int, cancelling: int, value: int) {
    && w'.m.balance == w.m.balance + money && w'.m.own == w.m.own + own
    && w'.m.pending == w.m.pending.Plus(side, pending) && w'.m.cancelling == w.m.cancelling.Plus(side, cancelling)
    && w'.m.value == w.m.value.Plus(side, value)
  }

  /** The order in slot `s` is still open, and its record is `order`. */
  ghost predicate Keeps(w: World, w': World, s: nat, order: Order, out: Pending) {
    && OthersKept(w, w', s) && s < |w.slots| && w.slots[s].open && w'.slots[s].open
    && w'.slots[s].order == order && w'.slots[s].out == out && w'.m.freePtr == w.m.freePtr
  }

  /** The order in slot `s` is closed with the record `order`, and the slot is the next one to be
      handed out. */
  ghost predicate GivesBack(w: World, w': World, s: nat, order: Order) {
    && OthersKept(w, w', s) && s < |w.slots| && w.slots[s].open && !w'.slots[s].open && w'.slots[s].order == order
    && w'.m.freePtr == w.m.freePtr - 1 && w'.m.freePtr < |w'.m.free| && w'.m.free[w'.m.freePtr] == s
  }

  ghost predicate LeadsTo(m: Manager, id: nat, s: Option<nat>) { Shape(m) && Lookup(m, id) == s }

  // ---------------------------------------------------------------- requests

  /** A new order got the id `id` and a slot that was free. */
  ghost predicate Placed(w: World, w': World, id: nat, side: Side, symbol: nat, price: int, volume: int) {
    && Shape(w'.m) && Lookup(w'.m, id).Some? && w'.m.idMap[id] < |w.slots|
    && var s := w'.m.idMap[id];
       && OthersKept(w, w', s) && !w.slots[s].open && w'.slots[s].open && w'.slots[s].ids == {id}
       && w'.slots[s].order == Order(id, side, symbol, price, volume, 0, 0, 0, {PendingNew})
       && w'.m.freePtr == w.m.freePtr + 1
       && Moved(w, w', -Cost(price, volume, side), 0, side, volume, 0, volume * price)
  }

  predicate NewRefused(w: World, side: Side, price: int, volume: int) {
    w.m.nextId > w.m.maxOrders || w.m.freePtr == |w.slots| || w.m.balance < Cost(price, volume, side)
  }

  lemma NewOrderMeans(w: World, side: Side, symbol: nat, price: int, volume: int)
    requires SlotsOk(w) && Contract(w, NewOrder(side, symbol, price, volume))
    ensures var ev := NewOrder(side, symbol, price, volume);
            && (Handle(w.m, ev).result == 0 <==> NewRefused(w, side, price, volume))
            && (if NewRefused(w, side, price, volume) then Next(w, ev) == w
                else Placed(w, Next(w, ev), Handle(w.m, ev).result, side, symbol, price, volume))
  {
    if !NewRefused(w, side, price, volume) { assert PlaceOk(w.m, w.slots, w.m.freePtr); }
  }

  /** The cancellation of the order in slot `s` is out under the id `id`. */
  ghost predicate CancelAsked(w: World, w': World, s: nat, id: nat) {
    && s < |w.slots| && var o := w.slots[s].order;
       && Keeps(w, w', s, o.(status := o.status + {PendingCancel}), CancelOut(id)) && LeadsTo(w'.m, id, Some(s))
       && Moved(w, w', 0, 0, o.side, 0, Left(o), 0)
  }

  lemma CancelMeans(w: World, id: nat)
    requires SlotsOk(w) && Contract(w, CancelOrder(id))
    ensures var ev := CancelOrder(id);
            var s, w' := Lookup(w.m, id), Next(w, ev);
            if s.Some? && w.m.nextId <= w.m.maxOrders
            then Handle(w.m, ev).result == w.m.nextId && CancelAsked(w, w', s.value, w.m.nextId)
            else Handle(w.m, ev).result == 0 && w' == w
  {
    if Lookup(w.m, id).Some? { assert SlotOk(w.m, w.slots, Lookup(w.m, id).value); }
  }

  /** The replacement of the order in slot `s` is out under the id `id`, and paid for as far as it
      costs more. */
  ghost predicate ReplaceAsked(w: World, w': World, s: nat, id: nat, price: int, volume: int) {
    && s < |w.slots| && var o := w.slots[s].order;
       && var o' := o.(status := o.status + {PendingReplace}, newPrice := price, newVolume := volume);
          && Keeps(w, w', s, o', ReplaceOut(id)) && LeadsTo(w'.m, id, Some(s)) && Left(o') == Left(o)
          && Moved(w, w', -Positive(NewCostLeft(o') - CostLeft(o)), 0, o.side, volume - o.volume, 0, 0)
  }

  /** A replacement is refused if its order or an id for it is not there, if it leaves fewer shares than are
      filled, or if it is dearer by more than the balance. */
  predicate ReplaceDenied(w: World, id: nat, price: int, volume: int)
    requires Shape(w.m) && |w.slots| == |w.m.entries|
  {
    match Lookup(w.m, id)
    case None => true
    case Some(s) =>
      var o := w.slots[s].order;
      var more := Cost(price, volume - o.filled, o.side) - CostLeft(o);
      w.m.nextId == w.m.maxOrders + 1 || o.filled > volume || (more >= 1 && more > w.m.balance)
  }

  lemma EditMeans(w: World, id: nat, price: int, volume: int)
    requires SlotsOk(w) && Contract(w, EditOrder(id, price, volume))
    ensures ReplaceDenied(w, id, price, volume) <==> EditRefused(w.m, id, price, volume)
    ensures var ev := EditOrder(id, price, volume);
            var s, w' := Lookup(w.m, id), Next(w, ev);
            if ReplaceDenied(w, id, price, volume) then Handle(w.m, ev).result == 0 && w' == w
            else
              s.Some? && Handle(w.m, ev).result == w.m.nextId && ReplaceAsked(w, w', s.value, w.m.nextId, price, volume)
  {
    if Lookup(w.m, id).Some? { assert SlotOk(w.m, w.slots, Lookup(w.m, id).value); }
  }

  // ---------------------------------------------------------------- reports

  ghost predicate Acknowledged(w: World, w': World, s: nat) {
    && s < |w.slots| && Keeps(w, w', s, w.slots[s].order.(status := {New}), w.slots[s].out)
    && Moved(w, w', 0, 0, Buy, 0, 0, 0) && w'.slots[s].answered
  }

  lemma AckMeans(w: World, id: nat)
    requires SlotsOk(w) && Contract(w, Ack(id))
    ensures var s, w' := Lookup(w.m, id), Next(w, Ack(id));
            if s.Some? then Acknowledged(w, w', s.value) else w' == w
  {
    if Lookup(w.m, id).Some? { assert SlotOk(w.m, w.slots, Lookup(w.m, id).value); }
  }

  /** A rejected order gives back all it took, and none of its ids leads anywhere. */
  ghost predicate WasRejected(w: World, w': World, s: nat) {
    && s < |w.slots| && Shape(w'.m) && Forgotten(w.slots[s].ids, w'.m)
    && var o := w.slots[s].order;
       && GivesBack(w, w', s, o.(status := {Rejected}))
       && Moved(w, w', CostLeft(o), 0, o.side, -Left(o), 0, -(Left(o) * o.price))
  }

  lemma RejectMeans(w: World, id: nat)
    requires SlotsOk(w) && AllIdsOk(w) && Contract(w, Reject(id)) && Defined(w.m, Reject(id))
    ensures var s, w' := Lookup(w.m, id), Next(w, Reject(id));
            if s.Some? then WasRejected(w, w', s.value) else w' == w
  {
    if Lookup(w.m, id).Some? {
      var s := Lookup(w.m, id).value;
      assert SlotOk(w.m, w.slots, s);
      RejectForgets(w, Reject(id), s);
      StepShape(w, Reject(id), s);
    }
  }

  /** A fill moves shares from pending to own at no further cost, and takes what they fetched from the
      pending value; a complete one closes the order. */
  ghost predicate WasFilled(w: World, w': World, s: nat, last: int, price: int, complete: bool) {
    && s < |w.slots| && var o := w.slots[s].order;
       && Moved(w, w', 0, if o.side.Buy? then last else -last, o.side, -last, 0, -(last * price))
       && (if complete then GivesBack(w, w', s, o.(filled := o.filled + last, status := {Filled}))
           else Keeps(w, w', s, o.(filled := o.filled + last, status := {PartiallyFilled}), w.slots[s].out))
  }

  lemma FillMeans(w: World, id: nat, side: Side, last: int, cum: int, price: int, complete: bool)
    requires var ev := Fill(id, side, last, cum, price, complete);
             SlotsOk(w) && Contract(w, ev) && Defined(w.m, ev)
    ensures var ev := Fill(id, side, last, cum, price, complete);
            var s, w' := Lookup(w.m, id), Next(w, ev);
            && (s.Some? ==> w.slots[s.value].order == w.m.entries[s.value])
            && (if s.Some? && cum == w.slots[s.value].order.filled + last 
                then WasFilled(w, w', s.value, last, price, complete) else w' == w)
  {
    if Lookup(w.m, id).Some? {
      var s, ev := Lookup(w.m, id).value, Fill(id, side, last, cum, price, complete);
      assert SlotOk(w.m, w.slots, s);
      if cum == w.slots[s].order.filled + last { StepShape(w, ev, s); }
    }
  }

  /** A cancelled order gives back what its unfilled shares took; its first id and the request's
      lead nowhere. */
  ghost predicate WasCancelled(w: World, w': World, s: nat, id: nat) {
    && s < |w.slots| && var o := w.slots[s].order;
       && GivesBack(w, w', s, o) && LeadsTo(w'.m, id, None) && LeadsTo(w'.m, o.id, None)
       && Moved(w, w', CostLeft(o), 0, o.side, -Left(o), -Left(o), 0)
  }

  lemma CancelledMeans(w: World, id: nat)
    requires SlotsOk(w) && Contract(w, Cancelled(id)) && Defined(w.m, Cancelled(id))
    ensures var s, w' := Lookup(w.m, id), Next(w, Cancelled(id));
            if s.Some? then WasCancelled(w, w', s.value, id) else w' == w
  {
    if Lookup(w.m, id).Some? {
      var s := Lookup(w.m, id).value;
      assert SlotOk(w.m, w.slots, s);
      StepShape(w, Cancelled(id), s);
    }
  }

  /** A refused cancellation is forgotten. */
  ghost predicate CancelRefused(w: World, w': World, s: nat, id: nat) {
    && s < |w.slots| && var o := w.slots[s].order;
       && Keeps(w, w', s, o.(status := o.status - {PendingCancel}), Nothing) && LeadsTo(w'.m, id, None)
       && Moved(w, w', 0, 0, o.side, 0, -Left(o), 0)
  }

  lemma CancelRejectedMeans(w: World, id: nat)
    requires SlotsOk(w) && Contract(w, CancelRejected(id))
    ensures var s, w' := Lookup(w.m, id), Next(w, CancelRejected(id));
            if s.Some? then CancelRefused(w, w', s.value, id) else w' == w
  {
    if Lookup(w.m, id).Some? { assert SlotOk(w.m, w.slots, Lookup(w.m, id).value); }
  }

  /** An accepted replacement changes volume and price, and no money. */
  ghost predicate WasReplaced(w: World, w': World, s: nat) {
    && s < |w.slots| && var o := w.slots[s].order;
       && Keeps(w, w', s, o.(volume := o.newVolume, price := o.newPrice, status := o.status - {PendingReplace}),
                Nothing)
       && LeadsTo(w'.m, o.id, None) && Moved(w, w', 0, 0, o.side, 0, 0, 0)
  }

  lemma ReplacedMeans(w: World, id: nat)
    requires SlotsOk(w) && Contract(w, Replaced(id)) && Defined(w.m, Replaced(id))
    ensures var s, w' := Lookup(w.m, id), Next(w, Replaced(id));
            if s.Some? then WasReplaced(w, w', s.value) else w' == w
  {
    if Lookup(w.m, id).Some? { assert SlotOk(w.m, w.slots, Lookup(w.m, id).value); }
  }

  /** A refused replacement is forgotten, and what it would cost more by now given back. */
  ghost predicate ReplaceRefused(w: World, w': World, s: nat, id: nat) {
    && s < |w.slots| && var o := w.slots[s].order;
       && Keeps(w, w', s, o.(status := o.status - {PendingReplace}), Nothing) && LeadsTo(w'.m, id, None)
       && Moved(w, w', Positive(NewCostLeft(o) - CostLeft(o)), 0, o.side, o.volume - o.newVolume, 0, 0)
  }

  lemma ReplaceRejectedMeans(w: World, id: nat)
    requires SlotsOk(w) && Contract(w, ReplaceRejected(id))
    ensures var s, w' := Lookup(w.m, id), Next(w, ReplaceRejected(id));
            if s.Some? then ReplaceRefused(w, w', s.value, id) else w' == w
  {
    if Lookup(w.m, id).Some? { assert SlotOk(w.m, w.slots, Lookup(w.m, id).value); }
  }

  // ---------------------------------------------------------------- what undoes what

  /** A rejection takes back a new order: what stays is the used id and the record in a free slot. */
  lemma RejectUndoesNew(m: Manager, side: Side, symbol: nat, price: int, volume: int)
    requires Shape(m) && m.nextId <= m.maxOrders && m.idMap[m.nextId] == m.End()
    requires m.freePtr < |m.free| && m.balance >= Cost(price, volume, side)
    ensures var m' := Handle(m, NewOrder(side, symbol, price, volume)).m;
            && Shape(m') && Defined(m', Reject(m.nextId))
            && var m'' := Handle(m', Reject(m.nextId)).m;
               && m'' == m.(nextId := m.nextId + 1, entries := m''.entries)
               && m''.entries == m.entries[m.free[m.freePtr] :=
                                             Order(m.nextId, side, symbol, price, volume, 0, 0, 0, {Rejected})]
  {
    var m' := Handle(m, NewOrder(side, symbol, price, volume)).m;
    var m'' := Handle(m', Reject(m.nextId)).m;
    assert m''.idMap == m.idMap && m''.free == m.free;
  }

  /** Its rejection takes back a request to cancel. */
  lemma CancelRejectUndoesCancel(m: Manager, id: nat)
    requires Shape(m) && Lookup(m, id).Some? && m.nextId <= m.maxOrders && m.idMap[m.nextId] == m.End()
    requires PendingCancel !in m.entries[m.idMap[id]].status
    ensures var m' := Handle(m, CancelOrder(id)).m;
            Shape(m') && Handle(m', CancelRejected(m.nextId)).m == m.(nextId := m.nextId + 1)
  {
    var m' := Handle(m, CancelOrder(id)).m;
    var m'' := Handle(m', CancelRejected(m.nextId)).m;
    var s := m.idMap[id];
    assert m.entries[s].status + {PendingCancel} - {PendingCancel} == m.entries[s].status;
    assert m''.idMap == m.idMap && m''.entries == m.entries;
  }

  /** Its rejection takes back a request to replace, but for the price and volume asked for, when
      nothing is filled in between. */
  lemma EditRejectUndoesEdit(m: Manager, id: nat, price: int, volume: int)
    requires Shape(m) && !EditRefused(m, id, price, volume) && m.idMap[m.nextId] == m.End()
    requires PendingReplace !in m.entries[m.idMap[id]].status
    ensures var (s, m') := (m.idMap[id], Handle(m, EditOrder(id, price, volume)).m);
            && Shape(m') && Handle(m', ReplaceRejected(m.nextId)).m
                            == m.(nextId := m.nextId + 1,
                                  entries := m.entries[s := m.entries[s].(newPrice := price, newVolume := volume)])
  {
    var m' := Handle(m, EditOrder(id, price, volume)).m;
    var m'' := Handle(m', ReplaceRejected(m.nextId)).m;
    var s := m.idMap[id];
    assert m.entries[s].status + {PendingReplace} - {PendingReplace} == m.entries[s].status;
    assert m''.idMap == m.idMap;
    assert m''.entries == m.entries[s := m.entries[s].(newPrice := price, newVolume := volume)];
  }
}
