/** The order manager of one broker: what each request and each report does to its slots,
    its id map, its totals and its broker's balance, and which call it makes on the symbol's
    ledger.  Prices are raw decimals, volumes plain integers. */
module Orders {
  import opened Common

  datatype Side = Buy | Sell

  datatype Status =
    PendingNew | New | PartiallyFilled | Filled | Rejected | PendingCancel | PendingReplace

  datatype Order = Order(id: nat, side: Side, symbol: nat, price: int, volume: int, filled: int,
                         newPrice: int, newVolume: int, status: set<Status>)

  /** A pair of totals, one for each side. */
  datatype BySide = BySide(buy: int, sell: int) {
    function Of(side: Side): int { if side.Buy? then buy else sell }

    function Plus(side: Side, n: int): BySide {
      if side.Buy? then this.(buy := buy + n) else this.(sell := sell + n)
    }
  }

  /** A cell of `idMap` that leads to no order holds `End()`.  There is one for every id up to
      `maxOrders`, which is one more than the code has (see `Accesses`). */
  datatype Manager = Manager(entries: seq<Order>, idMap: seq<nat>, free: seq<nat>, maxOrders: nat,
                             freePtr: nat, nextId: nat, own: int, pending: BySide, cancelling: BySide,
                             value: BySide, balance: int)
  {
    function End(): nat { |entries| + 1 }
  }

  const NO_ORDER := Order(0, Buy, 0, 0, 0, 0, 0, 0, {})

  function Init(slots: nat, maxOrders: nat, balance: int): Manager {
    Manager(seq(slots, _ => NO_ORDER), seq(maxOrders + 1, _ => slots + 1), seq(slots, i => i), maxOrders, 0, 1, 0,
            BySide(0, 0), BySide(0, 0), BySide(0, 0), balance)
  }

  /** The commission term: the multiplier 0.001, rescaled to four decimals as 10, is divided
      by 10^4 before it multiplies. */
  function Commission(price: int, shares: int): int {
    price * shares * (10 / 10_000)
  }

  function Cost(price: int, shares: int, side: Side): (c: int)
    ensures c == if side.Buy? then price * shares else 0
  {
    (if side.Buy? then price * shares else 0) + Commission(price, shares)
  }

  /** A call on the ledger of a symbol. */
  datatype Call =
    | OnSingleOrder(side: Side, price: int, volume: int)
    | OnSingleOrderReject(side: Side, price: int, volume: int)
    | OnOrderFill(side: Side, price: int, volume: int)
    | OnSingleOrderCancel(side: Side, volume: int)
    | OnCancelOrderReject(side: Side, volume: int)
    | OnCancelOrderAck(side: Side, price: int, volume: int)
    | OnSingleOrderEdit(side: Side, oldPrice: int, newPrice: int, oldVolume: int, newVolume: int)
    | OnEditOrderReject(side: Side, oldPrice: int, newPrice: int, oldVolume: int, newVolume: int)

  /** What comes in: requests of strategies, then reports of the broker. */
  datatype Event =
    | NewOrder(side: Side, symbol: nat, price: int, volume: int)
    | CancelOrder(id: nat)
    | EditOrder(id: nat, newPrice: int, newVolume: int)
    | Ack(id: nat)
    | Reject(id: nat)
    | Fill(id: nat, side: Side, last: int, cum: int, price: int, complete: bool)
    | Cancelled(id: nat)
    | CancelRejected(id: nat)
    | Replaced(id: nat)
    | ReplaceRejected(id: nat)

  /** The manager afterwards, the id or truth value returned, and the ledger call made. */
  datatype Outcome = Outcome(m: Manager, result: nat, call: Option<(nat, Call)>)

  predicate Shape(m: Manager) {
    && |m.free| == |m.entries| && |m.idMap| == m.maxOrders + 1
    && (forall i :: 0 <= i < |m.idMap| ==> m.idMap[i] < |m.entries| || m.idMap[i] == m.End())
    && (forall i :: 0 <= i < |m.free| ==> m.free[i] < |m.entries|)
  }

  /** The slot an id leads to, or none. */
  function Lookup(m: Manager, id: nat): (slot: Option<nat>)
    requires Shape(m)
    ensures slot.Some? ==> slot.value < |m.entries|
  {
    if id > m.maxOrders || m.idMap[id] == m.End() then None else Some(m.idMap[id])
  }

  /** The first id of the order an id leads to has a cell, and no slot is given back that was not
      taken. */
  predicate Defined(m: Manager, ev: Event)
    requires Shape(m)
  {
    match ev
    case Reject(id) =>
      Lookup(m, id).Some? ==>
        var o := m.entries[m.idMap[id]];
        0 < m.freePtr <= |m.free| && o.id <= m.maxOrders && m.idMap[o.id] < |m.entries|
    case Fill(id, _, _, _, _, complete) => complete && Lookup(m, id).Some? ==> 0 < m.freePtr <= |m.free|
    case Cancelled(id) =>
      Lookup(m, id).Some? ==> 0 < m.freePtr <= |m.free| && m.entries[m.idMap[id]].id <= m.maxOrders
    case Replaced(id) => Lookup(m, id).Some? ==> m.entries[m.idMap[id]].id <= m.maxOrders
    case _ => true
  }

  /** What a replacement must reserve beyond the order it replaces. */
  function Extra(o: Order, newPrice: int, newVolume: int): (e: int)
    ensures e >= 0
  {
    var (was, will) := (Cost(o.price, o.volume - o.filled, o.side), Cost(newPrice, newVolume - o.filled, o.side));
    if will > was then will - was else 0
  }

  predicate EditRefused(m: Manager, id: nat, newPrice: int, newVolume: int)
    requires Shape(m)
  {
    match Lookup(m, id)
    case None => true
    case Some(s) =>
      var extra := Extra(m.entries[s], newPrice, newVolume);
      m.nextId > m.maxOrders || newVolume < m.entries[s].filled || (extra > 0 && m.balance < extra)
  }

  function Refused(m: Manager): Outcome { Outcome(m, 0, None) }

  function HandleNew(m: Manager, side: Side, symbol: nat, price: int, volume: int): Outcome
    requires Shape(m)
  {
    var cost := Cost(price, volume, side);
    if m.nextId > m.maxOrders || m.freePtr >= |m.free| || m.balance < cost then Refused(m)
    else
      var slot := m.free[m.freePtr];
      var order := Order(m.nextId, side, symbol, price, volume, 0, 0, 0, {PendingNew});
      Outcome(m.(balance := m.balance - cost, idMap := m.idMap[m.nextId := slot], entries := m.entries[slot := order],
                 pending := m.pending.Plus(side, volume), value := m.value.Plus(side, volume * price),
                 freePtr := m.freePtr + 1, nextId := m.nextId + 1),
              m.nextId, Some((symbol, OnSingleOrder(side, price, volume))))
  }

  function HandleCancel(m: Manager, id: nat): Outcome
    requires Shape(m)
  {
    match Lookup(m, id)
    case None => Refused(m)
    case Some(s) =>
      var o := m.entries[s];
      var left := o.volume - o.filled;
      if m.nextId > m.maxOrders then Refused(m)
      else
        Outcome(m.(cancelling := m.cancelling.Plus(o.side, left), idMap := m.idMap[m.nextId := s],
                   entries := m.entries[s := o.(status := o.status + {PendingCancel})], nextId := m.nextId + 1),
                m.nextId, Some((o.symbol, OnSingleOrderCancel(o.side, left))))
  }

  function HandleEdit(m: Manager, id: nat, newPrice: int, newVolume: int): Outcome
    requires Shape(m)
  {
    if EditRefused(m, id, newPrice, newVolume) then Refused(m)
    else
      var s := m.idMap[id];
      var o := m.entries[s];
      var o' := o.(status := o.status + {PendingReplace}, newPrice := newPrice, newVolume := newVolume);
      Outcome(m.(balance := m.balance - Extra(o, newPrice, newVolume), entries := m.entries[s := o'],
                 pending := m.pending.Plus(o.side, newVolume - o.volume), idMap := m.idMap[m.nextId := s],
                 nextId := m.nextId + 1),
              m.nextId, Some((o.symbol, OnSingleOrderEdit(o.side, o.price, newPrice, o.volume, newVolume))))
  }

  function HandleAck(m: Manager, id: nat): Outcome
    requires Shape(m)
  {
    match Lookup(m, id)
    case None => Refused(m)
    case Some(s) => Outcome(m.(entries := m.entries[s := m.entries[s].(status := {New})]), 1, None)
  }

  function HandleReject(m: Manager, id: nat): Outcome
    requires Shape(m) && Defined(m, Reject(id))
  {
    match Lookup(m, id)
    case None => Refused(m)
    case Some(s) =>
      var o := m.entries[s];
      var left := o.volume - o.filled;
      Outcome(m.(entries := m.entries[s := o.(status := {Rejected})], pending := m.pending.Plus(o.side, -left),
                 value := m.value.Plus(o.side, -(left * o.price)), freePtr := m.freePtr - 1,
                 free := m.free[m.freePtr - 1 := m.idMap[o.id]], idMap := m.idMap[o.id := m.End()],
                 balance := m.balance + Cost(o.price, left, o.side)),
              1, Some((o.symbol, OnSingleOrderReject(o.side, o.price, left))))
  }

  /** The slot of an id goes back to the free list and the id leads nowhere. */
  function Released(m: Manager, id: nat): Manager
    requires 0 < m.freePtr <= |m.free| && id < |m.idMap|
  {
    m.(freePtr := m.freePtr - 1, free := m.free[m.freePtr - 1 := m.idMap[id]], idMap := m.idMap[id := m.End()])
  }

  function HandleFill(m: Manager, id: nat, side: Side, last: int, cum: int, price: int, complete: bool): Outcome
    requires Shape(m) && Defined(m, Fill(id, side, last, cum, price, complete))
  {
    match Lookup(m, id)
    case None => Refused(m)
    case Some(s) =>
      var o := m.entries[s];
      if cum != o.filled + last then Refused(m)
      else
        var o' := o.(filled := cum, status := if complete then {Filled} else {PartiallyFilled});
        var m' := m.(entries := m.entries[s := o'], own := if side.Buy? then m.own + last else m.own - last,
                     pending := m.pending.Plus(side, -last), value := m.value.Plus(side, -(last * price)));
        Outcome(if complete then Released(m', id) else m', 1, Some((o.symbol, OnOrderFill(side, price, last))))
  }

  function HandleCancelled(m: Manager, id: nat): Outcome
    requires Shape(m) && Defined(m, Cancelled(id))
  {
    match Lookup(m, id)
    case None => Refused(m)
    case Some(s) =>
      var o := m.entries[s];
      var left := o.volume - o.filled;
      Outcome(m.(cancelling := m.cancelling.Plus(o.side, -left), pending := m.pending.Plus(o.side, -left),
                 freePtr := m.freePtr - 1, free := m.free[m.freePtr - 1 := s],
                 idMap := m.idMap[o.id := m.End()][id := m.End()],
                 balance := m.balance + Cost(o.price, left, o.side)),
              1, Some((o.symbol, OnCancelOrderAck(o.side, o.price, left))))
  }

  function HandleCancelRejected(m: Manager, id: nat): Outcome
    requires Shape(m)
  {
    match Lookup(m, id)
    case None => Refused(m)
    case Some(s) =>
      var o := m.entries[s];
      var left := o.volume - o.filled;
      Outcome(m.(entries := m.entries[s := o.(status := o.status - {PendingCancel})],
                 cancelling := m.cancelling.Plus(o.side, -left), idMap := m.idMap[id := m.End()]),
              1, Some((o.symbol, OnCancelOrderReject(o.side, left))))
  }

  function HandleReplaced(m: Manager, id: nat): Outcome
    requires Shape(m) && Defined(m, Replaced(id))
  {
    match Lookup(m, id)
    case None => Refused(m)
    case Some(s) =>
      var o := m.entries[s];
      var o' := o.(volume := o.newVolume, price := o.newPrice, status := o.status - {PendingReplace});
      Outcome(m.(entries := m.entries[s := o'], idMap := m.idMap[o.id := m.End()]), 1, None)
  }

  function HandleReplaceRejected(m: Manager, id: nat): Outcome
    requires Shape(m)
  {
    match Lookup(m, id)
    case None => Refused(m)
    case Some(s) =>
      var o := m.entries[s];
      Outcome(m.(pending := m.pending.Plus(o.side, -(o.newVolume - o.volume)),
                 entries := m.entries[s := o.(status := o.status - {PendingReplace})],
                 idMap := m.idMap[id := m.End()], balance := m.balance + Extra(o, o.newPrice, o.newVolume)),
              1, Some((o.symbol, OnEditOrderReject(o.side, o.price, o.newPrice, o.volume, o.newVolume))))
  }

  function Handle(m: Manager, ev: Event): Outcome
    requires Shape(m) && Defined(m, ev)
  {
    match ev
    case NewOrder(side, symbol, price, volume) => HandleNew(m, side, symbol, price, volume)
    case CancelOrder(id) => HandleCancel(m, id)
    case EditOrder(id, p, v) => HandleEdit(m, id, p, v)
    case Ack(id) => HandleAck(m, id)
    case Reject(id) => HandleReject(m, id)
    case Fill(id, side, last, cum, price, complete) => HandleFill(m, id, side, last, cum, price, complete)
    case Cancelled(id) => HandleCancelled(m, id)
    case CancelRejected(id) => HandleCancelRejected(m, id)
    case Replaced(id) => HandleReplaced(m, id)
    case ReplaceRejected(id) => HandleReplaceRejected(m, id)
  }

  lemma HandleShape(m: Manager, ev: Event)
    requires Shape(m) && Defined(m, ev)
    ensures Shape(Handle(m, ev).m) && |Handle(m, ev).m.entries| == |m.entries|
    ensures Handle(m, ev).m.maxOrders == m.maxOrders && Handle(m, ev).m.nextId >= m.nextId
  {
  }

  // ---------------------------------------------------------------- the cells a handler touches

  /** A vector element: of the id map, the free list, or the entries. */
  datatype Access = MapCell(i: nat) | FreeCell(i: nat) | Entry(i: nat)

  /** `getEditableOrderEntry`, and the entry it leads to. */
  function LookupAccesses(m: Manager, id: nat): seq<Access>
    requires Shape(m)
  {
    if id > m.maxOrders then []
    else if Lookup(m, id).None? then [MapCell(id)] else [MapCell(id), Entry(m.idMap[id])]
  }

  /** Every element the handler reads or writes, in its order.  An edit reads the next free slot,
      though it takes none. */
  function Accesses(m: Manager, ev: Event): seq<Access>
    requires Shape(m) && Defined(m, ev)
  {
    match ev
    case NewOrder(side, _, price, volume) =>
      if m.nextId > m.maxOrders || m.freePtr >= |m.free| || m.balance < Cost(price, volume, side) then []
      else [FreeCell(m.freePtr), MapCell(m.nextId), Entry(m.free[m.freePtr])]
    case CancelOrder(id) =>
      LookupAccesses(m, id) +
      if Lookup(m, id).None? || m.nextId > m.maxOrders then [] else [MapCell(id), MapCell(m.nextId)]
    case EditOrder(id, p, v) =>
      LookupAccesses(m, id) +
      if EditRefused(m, id, p, v) then [] else [FreeCell(m.freePtr), MapCell(id), MapCell(m.nextId)]
    case Reject(id) =>
      LookupAccesses(m, id) +
      if Lookup(m, id).None? then [] else [MapCell(m.entries[m.idMap[id]].id), FreeCell(m.freePtr - 1)]
    case Fill(id, _, last, cum, _, complete) =>
      LookupAccesses(m, id) +
      if Lookup(m, id).None? || !complete || cum != m.entries[m.idMap[id]].filled + last then []
      else [MapCell(id), FreeCell(m.freePtr - 1)]
    case Cancelled(id) =>
      LookupAccesses(m, id) +
      if Lookup(m, id).None? then []
      else [MapCell(id), FreeCell(m.freePtr - 1), MapCell(m.entries[m.idMap[id]].id)]
    case Replaced(id) =>
      LookupAccesses(m, id) + if Lookup(m, id).None? then [] else [MapCell(m.entries[m.idMap[id]].id)]
    case _ => LookupAccesses(m, ev.id)
  }

  /** The element is there: the code's id map has `maxOrders` cells. */
  predicate Exists(m: Manager, a: Access) {
    match a
    case MapCell(i) => i < m.maxOrders
    case FreeCell(i) => i < |m.free|
    case Entry(i) => i < |m.entries|
  }

  ghost predicate StaysInside(m: Manager, ev: Event)
    requires Shape(m) && Defined(m, ev)
  {
    forall a <- Accesses(m, ev) :: Exists(m, a)
  }
}
