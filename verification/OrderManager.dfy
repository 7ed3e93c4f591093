/** The code of the order manager, the broker's account and the symbols' ledgers.  Every handler keeps
    what every run keeps, and says what it does to its order, to money and totals, and to the rest. */
module OrderManagement {
  import opened Common
  import opened Orders
  import opened Ledgers
  import opened OrderWorld
  import opened OrderIds
  import opened OrderFacts
  import OrderRuns

  class SymbolState {
    var ownShares: int
    var avgBuyPrice: int
    var pendingShares: BySide
    var pendingCancellations: BySide
    var pendingShareValues: BySide
    var updateCount: nat

    constructor ()
      ensures State() == EMPTY && updateCount == 0
    {
      ownShares, avgBuyPrice, updateCount := 0, 0, 0;
      pendingShares, pendingCancellations, pendingShareValues := BySide(0, 0), BySide(0, 0), BySide(0, 0);
    }

    function State(): Ledger
      reads this
    {
      Ledger(ownShares, avgBuyPrice, pendingShares, pendingCancellations, pendingShareValues)
    }

    method OnSingleOrder(side: Side, price: int, volume: int)
      modifies this
      ensures State() == On(old(State()), Call.OnSingleOrder(side, price, volume))
      ensures updateCount == old(updateCount) + 2
    {
      updateCount := updateCount + 1;
      pendingShares := pendingShares.Plus(side, volume);
      pendingShareValues := pendingShareValues.Plus(side, volume * price);
      updateCount := updateCount + 1;
    }

    method OnSingleOrderReject(side: Side, price: int, volume: int)
      modifies this
      ensures State() == On(old(State()), Call.OnSingleOrderReject(side, price, volume))
      ensures updateCount == old(updateCount) + 2
    {
      updateCount := updateCount + 1;
      pendingShares := pendingShares.Plus(side, -volume);
      pendingShareValues := pendingShareValues.Plus(side, -(volume * price));
      updateCount := updateCount + 1;
    }

    method OnOrderFill(side: Side, price: int, filled: int)
      requires Divides(State(), Call.OnOrderFill(side, price, filled))
      modifies this
      ensures State() == On(old(State()), Call.OnOrderFill(side, price, filled)) && updateCount == old(updateCount) + 2
    {
      updateCount := updateCount + 1;
      pendingShares := pendingShares.Plus(side, -filled);
      pendingShareValues := pendingShareValues.Plus(side, -(filled * price));
      if side == Buy {
        avgBuyPrice := TruncDiv(avgBuyPrice * ownShares + filled * price, ownShares + filled);
        ownShares := ownShares + filled;
      } else {
        ownShares := ownShares - filled;
      }
      updateCount := updateCount + 1;
    }

    method OnSingleOrderCancel(side: Side, volume: int)
      modifies this
      ensures State() == On(old(State()), Call.OnSingleOrderCancel(side, volume)) && updateCount == old(updateCount) + 2
    {
      updateCount := updateCount + 1;
      pendingCancellations := pendingCancellations.Plus(side, volume);
      updateCount := updateCount + 1;
    }

    method OnCancelOrderReject(side: Side, volume: int)
      modifies this
      ensures State() == On(old(State()), Call.OnCancelOrderReject(side, volume)) && updateCount == old(updateCount) + 2
    {
      updateCount := updateCount + 1;
      pendingCancellations := pendingCancellations.Plus(side, -volume);
      updateCount := updateCount + 1;
    }

    method OnCancelOrderAck(side: Side, price: int, volume: int)
      modifies this
      ensures State() == On(old(State()), Call.OnCancelOrderAck(side, price, volume))
      ensures updateCount == old(updateCount) + 2
    {
      updateCount := updateCount + 1;
      pendingCancellations := pendingCancellations.Plus(side, -volume);
      pendingShares := pendingShares.Plus(side, -volume);
      pendingShareValues := pendingShareValues.Plus(side, -(volume * price));
      updateCount := updateCount + 1;
    }

    method OnSingleOrderEdit(side: Side, oldPrice: int, newPrice: int, oldVolume: int, newVolume: int)
      modifies this
      ensures State() == On(old(State()), Call.OnSingleOrderEdit(side, oldPrice, newPrice, oldVolume, newVolume))
      ensures updateCount == old(updateCount) + 2
    {
      updateCount := updateCount + 1;
      pendingShares := pendingShares.Plus(side, -oldVolume);
      pendingShares := pendingShares.Plus(side, newVolume);
      pendingShareValues := pendingShareValues.Plus(side, -(oldVolume * oldPrice));
      pendingShareValues := pendingShareValues.Plus(side, newVolume * newPrice);
      updateCount := updateCount + 1;
    }

    method OnEditOrderReject(side: Side, oldPrice: int, newPrice: int, oldVolume: int, newVolume: int)
      modifies this
      ensures State() == On(old(State()), Call.OnEditOrderReject(side, oldPrice, newPrice, oldVolume, newVolume))
      ensures updateCount == old(updateCount) + 2
    {
      updateCount := updateCount + 1;
      pendingShares := pendingShares.Plus(side, oldVolume);
      pendingShares := pendingShares.Plus(side, -newVolume);
      pendingShareValues := pendingShareValues.Plus(side, oldVolume * oldPrice);
      pendingShareValues := pendingShareValues.Plus(side, -(newVolume * newPrice));
      updateCount := updateCount + 1;
    }
  }

  class BrokerProfile {
    var currentBalance: int

    constructor (balance: int)
      ensures currentBalance == balance
    {
      currentBalance := balance;
    }

    method CreditBalance(amount: int)
      modifies this
      ensures currentBalance == old(currentBalance) + amount
    {
      currentBalance := currentBalance + amount;
    }

    /** Takes the amount if the balance covers it, else nothing. */
    method DebitBalance(amount: int) returns (ok: bool)
      modifies this
      ensures ok == (old(currentBalance) >= amount)
      ensures currentBalance == if ok then old(currentBalance) - amount else old(currentBalance)
    {
      if currentBalance >= amount {
        currentBalance := currentBalance - amount;
        return true;
      }
      return false;
    }
  }

  lemma SeenNext(w: World, ev: Event, ls: seq<Ledger>, initial: int)
    requires OrderRuns.Inv(w, initial) && Contract(w, ev) && Defined(w.m, ev) && CallFits(ls, Handle(w.m, ev).call)
    ensures OrderRuns.Inv(Next(w, ev), initial) && Next(w, ev).m == Handle(w.m, ev).m
    ensures var ls' := Called(ls, Handle(w.m, ev).call);
            MovesAlike(w.m, Next(w, ev).m, ls, ls', Buy) && MovesAlike(w.m, Next(w, ev).m, ls, ls', Sell)
  {
    UntouchedChangesNothing(w, ev);
    OrderRuns.StepInv(w, ev, initial);
    CallMovesAlike(w.m, ev, ls, Buy);
    CallMovesAlike(w.m, ev, ls, Sell);
  }

  class OrderManager {
    const orderEntries: array<Order>
    const orderIDVsEntryMap: array<nat>
    const freeEntries: array<nat>
    const maxOrders: nat
    var freeEntryPtr: nat
    var currentOrderID: nat
    var ownShares: int
    var pendingShares: BySide
    var pendingCancellations: BySide
    var pendingShareValues: BySide
    const symbolStates: seq<SymbolState>
    const broker: BrokerProfile
    ghost var world: World         // what an observer of all events knows
    ghost const initial: int       // the balance to begin with

    /** The arrays are the code's own: the id map has no cell for the id `maxOrders`. */
    ghost predicate Apart() {
      && orderIDVsEntryMap != freeEntries && orderIDVsEntryMap.Length == maxOrders
      && freeEntries.Length == orderEntries.Length
      && forall i, j :: 0 <= i < j < |symbolStates| ==> symbolStates[i] != symbolStates[j]
    }

    /** The invariant of every run holds of what the observer knows, and the fields agree with it. */
    ghost predicate Valid()
      reads this, broker, orderEntries, orderIDVsEntryMap, freeEntries
    {
      Apart() && world.m == State() && OrderRuns.Inv(world, initial)
    }

    ghost function State(): Manager
      reads this, broker, orderEntries, orderIDVsEntryMap, freeEntries
    {
      Manager(orderEntries[..], orderIDVsEntryMap[..] + [orderEntries.Length + 1], freeEntries[..], maxOrders,
              freeEntryPtr, currentOrderID, ownShares, pendingShares, pendingCancellations, pendingShareValues,
              broker.currentBalance)
    }

    ghost function Symbols(): (ls: seq<Ledger>)
      reads symbolStates
      ensures |ls| == |symbolStates| && forall i :: 0 <= i < |ls| ==> ls[i] == symbolStates[i].State()
    {
      seq(|symbolStates|, i requires 0 <= i < |symbolStates| reads symbolStates => symbolStates[i].State())
    }

    /** The event keeps the contract, its handler finds all it touches, and its symbol's ledger can
        take it. */
    ghost predicate Takes(ev: Event)
      requires Valid()
      reads this, broker, orderEntries, orderIDVsEntryMap, freeEntries, symbolStates
    {
      Contract(world, ev) && Defined(world.m, ev) && OrderRuns.HasRoom(world.m, ev)
      && CallFits(Symbols(), Handle(world.m, ev).call)
    }

    /** The event has happened: the observer has seen it, and the symbols' ledgers moved as the
        manager's totals did. */
    ghost predicate Happened(w: World, ls: seq<Ledger>, ev: Event)
      requires Shape(w.m) && |w.slots| == |w.m.entries| && Contract(w, ev) && Defined(w.m, ev)
      requires CallFits(ls, Handle(w.m, ev).call)
      reads this, broker, orderEntries, orderIDVsEntryMap, freeEntries, symbolStates
    {
      && Valid() && world == Next(w, ev) && Symbols() == Called(ls, Handle(w.m, ev).call)
      && MovesAlike(w.m, world.m, ls, Symbols(), Buy) && MovesAlike(w.m, world.m, ls, Symbols(), Sell)
    }

    /** What the code of a handler needs, and what it does, in terms of the fields alone. */
    ghost predicate Ready(ev: Event)
      reads this, broker, orderEntries, orderIDVsEntryMap, freeEntries, symbolStates
    {
      Apart() && Shape(State()) && Defined(State(), ev) && OrderRuns.HasRoom(State(), ev)
      && CallFits(Symbols(), Handle(State(), ev).call)
    }

    ghost predicate Done(m: Manager, ls: seq<Ledger>, ev: Event)
      requires Shape(m) && Defined(m, ev) && CallFits(ls, Handle(m, ev).call)
      reads this, broker, orderEntries, orderIDVsEntryMap, freeEntries, symbolStates
    {
      State() == Handle(m, ev).m && Symbols() == Called(ls, Handle(m, ev).call)
    }

    constructor (slots: nat, maxOrders: nat, symbolStates: seq<SymbolState>, broker: BrokerProfile)
      requires forall i, j :: 0 <= i < j < |symbolStates| ==> symbolStates[i] != symbolStates[j]
      ensures Valid() && world == OrderWorld.Start(slots, maxOrders, broker.currentBalance)
      ensures fresh(orderEntries) && fresh(orderIDVsEntryMap) && fresh(freeEntries)
      ensures this.symbolStates == symbolStates && this.broker == broker
    {
      this.maxOrders, this.symbolStates, this.broker := maxOrders, symbolStates, broker;
      orderEntries := new Order[slots](_ => NO_ORDER);
      orderIDVsEntryMap := new nat[maxOrders](_ => slots + 1);
      freeEntries := new nat[slots](i => i);
      freeEntryPtr, currentOrderID, ownShares := 0, 1, 0;
      pendingShares, pendingCancellations, pendingShareValues := BySide(0, 0), BySide(0, 0), BySide(0, 0);
      world, initial := OrderWorld.Start(slots, maxOrders, broker.currentBalance), broker.currentBalance;
      new;
      OrderRuns.StartInv(slots, maxOrders, broker.currentBalance);
      assert State() == Init(slots, maxOrders, broker.currentBalance);
    }

    // ---------------------------------------------------------------- single cells

    method MapId(id: nat, slot: nat)
      requires Apart() && id < maxOrders
      modifies orderIDVsEntryMap
      ensures State() == old(State()).(idMap := old(State()).idMap[id := slot])
    {
      orderIDVsEntryMap[id] := slot;
      assert orderIDVsEntryMap[..] == old(orderIDVsEntryMap[..])[id := slot];
    }

    method StoreEntry(slot: nat, order: Order)
      requires slot < orderEntries.Length
      modifies orderEntries
      ensures State() == old(State()).(entries := old(State()).entries[slot := order])
    {
      orderEntries[slot] := order;
      assert orderEntries[..] == old(orderEntries[..])[slot := order];
    }

    /** A slot goes back to the free list. */
    method GiveBack(slot: nat)
      requires Apart() && 0 < freeEntryPtr <= freeEntries.Length
      modifies this`freeEntryPtr, freeEntries
      ensures State() == old(State()).(freePtr := old(freeEntryPtr) - 1,
                                       free := old(State()).free[old(freeEntryPtr) - 1 := slot])
    {
      freeEntryPtr := freeEntryPtr - 1;
      freeEntries[freeEntryPtr] := slot;
      assert freeEntries[..] == old(freeEntries[..])[freeEntryPtr := slot];
    }

    /** The observer sees the event that the fields have taken. */
    ghost method Observe(ev: Event, ls: seq<Ledger>)
      requires Apart() && OrderRuns.Inv(world, initial) && Contract(world, ev) && Defined(world.m, ev)
      requires CallFits(ls, Handle(world.m, ev).call) && Done(world.m, ls, ev)
      modifies this`world
      ensures Happened(old(world), ls, ev)
    {
      SeenNext(world, ev, ls, initial);
      world := Next(world, ev);
    }

    // ---------------------------------------------------------------- handlers

    method FindEntry(id: nat) returns (entry: Option<nat>)
      requires Apart() && Shape(State()) && id != maxOrders
      ensures entry == Lookup(State(), id)
    {
      if id > maxOrders {
        return None;
      }
      var index := orderIDVsEntryMap[id];
      if index == orderEntries.Length + 1 {
        return None;
      }
      return Some(index);
    }

    /** `getOrderEntry` and `getEditableOrderEntry`: every id of an open order leads to its slot. */
    method GetOrderEntry(id: nat) returns (entry: Option<nat>)
      requires Valid() && id != maxOrders
      ensures entry == Lookup(State(), id)
      ensures forall s :: 0 <= s < |world.slots| && world.slots[s].open && id in world.slots[s].ids ==> entry == Some(s)
    {
      IdsLead(world, id);
      entry := FindEntry(id);
    }

    method TakeSingleOrder(side: Side, symbol: nat, price: int, volume: int) returns (id: nat)
      requires Ready(NewOrder(side, symbol, price, volume)) && symbol < |symbolStates|
      modifies this`pendingShares, this`pendingShareValues, this`freeEntryPtr, this`currentOrderID
      modifies broker, orderEntries, orderIDVsEntryMap, symbolStates
      ensures Done(old(State()), old(Symbols()), NewOrder(side, symbol, price, volume))
      ensures id == Handle(old(State()), NewOrder(side, symbol, price, volume)).result
    {
      if currentOrderID > maxOrders {
        return 0;
      }
      if freeEntryPtr >= freeEntries.Length {
        return 0;
      }
      var cost := Cost(price, volume, side);
      var paid := broker.DebitBalance(cost);
      if !paid {
        return 0;
      }
      var newOrder := Order(currentOrderID, side, symbol, price, volume, 0, 0, 0, {PendingNew});
      var index := freeEntries[freeEntryPtr];
      MapId(currentOrderID, index);
      StoreEntry(index, newOrder);
      pendingShares := pendingShares.Plus(side, volume);
      pendingShareValues := pendingShareValues.Plus(side, volume * price);
      freeEntryPtr := freeEntryPtr + 1;
      currentOrderID := currentOrderID + 1;
      symbolStates[symbol].OnSingleOrder(side, price, volume);
      return newOrder.id;
    }

    method HandleSingleOrder(side: Side, symbol: nat, price: int, volume: int) returns (id: nat)
      requires Valid() && Takes(NewOrder(side, symbol, price, volume)) && symbol < |symbolStates|
      modifies this, broker, orderEntries, orderIDVsEntryMap, symbolStates
      ensures Happened(old(world), old(Symbols()), NewOrder(side, symbol, price, volume))
      ensures id == 0 <==> NewRefused(old(world), side, price, volume)
      ensures if id == 0 then world == old(world) else Placed(old(world), world, id, side, symbol, price, volume)
    {
      ghost var ls := Symbols();
      NewOrderMeans(world, side, symbol, price, volume);
      id := TakeSingleOrder(side, symbol, price, volume);
      Observe(NewOrder(side, symbol, price, volume), ls);
    }

    method TakeAck(id: nat) returns (ok: bool)
      requires Ready(Ack(id))
      modifies orderEntries
      ensures Done(old(State()), old(Symbols()), Ack(id))
      ensures ok == (Handle(old(State()), Ack(id)).result == 1)
    {
      var entry := FindEntry(id);
      if entry.None? {
        return false;
      }
      StoreEntry(entry.value, orderEntries[entry.value].(status := {New}));
      return true;
    }

    method HandleSingleOrderAck(id: nat) returns (ok: bool)
      requires Valid() && Takes(Ack(id))
      modifies this, orderEntries
      ensures Happened(old(world), old(Symbols()), Ack(id))
      ensures ok == Lookup(old(world).m, id).Some?
      ensures if ok then Acknowledged(old(world), world, Lookup(old(world).m, id).value) else world == old(world)
    {
      ghost var ls := Symbols();
      AckMeans(world, id);
      ok := TakeAck(id);
      Observe(Ack(id), ls);
    }

    /** A rejected order leaves the totals, its slot and its first id. */
    method DropOrder(slot: nat, order: Order, unfilled: int)
      requires Apart() && slot < orderEntries.Length && order.id < maxOrders && 0 < freeEntryPtr <= freeEntries.Length
      modifies this`pendingShares, this`pendingShareValues, this`freeEntryPtr
      modifies orderEntries, orderIDVsEntryMap, freeEntries
      ensures var m := old(State());
              State() == m.(entries := m.entries[slot := order.(status := {Rejected})],
                            pending := m.pending.Plus(order.side, -unfilled),
                            value := m.value.Plus(order.side, -(unfilled * order.price)), freePtr := m.freePtr - 1,
                            free := m.free[m.freePtr - 1 := m.idMap[order.id]], idMap := m.idMap[order.id := m.End()])
    {
      StoreEntry(slot, order.(status := {Rejected}));
      pendingShares := pendingShares.Plus(order.side, -unfilled);
      pendingShareValues := pendingShareValues.Plus(order.side, -(unfilled * order.price));
      GiveBack(orderIDVsEntryMap[order.id]);
      MapId(order.id, orderEntries.Length + 1);
    }

    method TakeReject(id: nat) returns (ok: bool)
      requires Ready(Reject(id))
      modifies this`pendingShares, this`pendingShareValues, this`freeEntryPtr
      modifies broker, orderEntries, orderIDVsEntryMap, freeEntries, symbolStates
      ensures Done(old(State()), old(Symbols()), Reject(id))
      ensures ok == (Handle(old(State()), Reject(id)).result == 1)
    {
      var entry := FindEntry(id);
      if entry.None? {
        return false;
      }
      var order := orderEntries[entry.value];
      var unfilled := order.volume - order.filled;
      DropOrder(entry.value, order, unfilled);
      symbolStates[order.symbol].OnSingleOrderReject(order.side, order.price, unfilled);
      broker.CreditBalance(Cost(order.price, unfilled, order.side));
      return true;
    }

    method HandleSingleOrderReject(id: nat) returns (ok: bool)
      requires Valid() && Takes(Reject(id))
      modifies this, broker, orderEntries, orderIDVsEntryMap, freeEntries, symbolStates
      ensures Happened(old(world), old(Symbols()), Reject(id))
      ensures ok == Lookup(old(world).m, id).Some?
      ensures if ok then WasRejected(old(world), world, Lookup(old(world).m, id).value) else world == old(world)
    {
      ghost var ls := Symbols();
      RejectMeans(world, id);
      ok := TakeReject(id);
      Observe(Reject(id), ls);
    }

    method CountFill(side: Side, last: int, price: int)
      modifies this`ownShares, this`pendingShares, this`pendingShareValues
      ensures var m := old(State());
              State() == m.(own := if side.Buy? then m.own + last else m.own - last,
                            pending := m.pending.Plus(side, -last), value := m.value.Plus(side, -(last * price)))
    {
      if side == Buy {
        ownShares := ownShares + last;
      } else {
        ownShares := ownShares - last;
      }
      pendingShares := pendingShares.Plus(side, -last);
      pendingShareValues := pendingShareValues.Plus(side, -(last * price));
    }

    /** The order with what it has filled by now; a complete one gives back its slot. */
    method StoreFill(id: nat, slot: nat, order: Order, complete: bool)
      requires Apart() && slot < orderEntries.Length
      requires complete ==> 0 < freeEntryPtr <= freeEntries.Length && id < maxOrders
      modifies this`freeEntryPtr, orderEntries, orderIDVsEntryMap, freeEntries
      ensures var m, status := old(State()), if complete then {Filled} else {PartiallyFilled};
              var m' := m.(entries := m.entries[slot := order.(status := status)]);
              State() == if complete then Released(m', id) else m'
    {
      if complete {
        StoreEntry(slot, order.(status := {Filled}));
        GiveBack(orderIDVsEntryMap[id]);
        MapId(id, orderEntries.Length + 1);
      } else {
        StoreEntry(slot, order.(status := {PartiallyFilled}));
      }
    }

    method TakeFill(id: nat, side: Side, last: int, cum: int, price: int, complete: bool) returns (ok: bool)
      requires Ready(Fill(id, side, last, cum, price, complete))
      modifies this`ownShares, this`pendingShares, this`pendingShareValues, this`freeEntryPtr
      modifies orderEntries, orderIDVsEntryMap, freeEntries, symbolStates
      ensures Done(old(State()), old(Symbols()), Fill(id, side, last, cum, price, complete))
      ensures ok == (Handle(old(State()), Fill(id, side, last, cum, price, complete)).result == 1)
    {
      var entry := FindEntry(id);
      if entry.None? {
        return false;
      }
      var order := orderEntries[entry.value];
      var filled := order.filled + last;
      if cum != filled {
        return false;
      }
      CountFill(side, last, price);
      symbolStates[order.symbol].OnOrderFill(side, price, last);
      StoreFill(id, entry.value, order.(filled := filled), complete);
      assert State() == Handle(old(State()), Fill(id, side, last, cum, price, complete)).m;
      return true;
    }

    method HandleOrderFill(id: nat, side: Side, last: int, cum: int, price: int, complete: bool) returns (ok: bool)
      requires Valid() && Takes(Fill(id, side, last, cum, price, complete))
      modifies this, orderEntries, orderIDVsEntryMap, freeEntries, symbolStates
      ensures Happened(old(world), old(Symbols()), Fill(id, side, last, cum, price, complete))
      ensures var w, s := old(world), Lookup(old(world).m, id);
              && ok == (s.Some? && cum == w.slots[s.value].order.filled + last)
              && (if ok then WasFilled(w, world, s.value, last, price, complete) else world == w)
    {
      ghost var ls := Symbols();
      FillMeans(world, id, side, last, cum, price, complete);
      ok := TakeFill(id, side, last, cum, price, complete);
      Observe(Fill(id, side, last, cum, price, complete), ls);
    }

    /** A cancellation asked for, under the next id. */
    method RecordCancel(orderId: nat, slot: nat, order: Order, cancelVolume: int)
      requires Apart() && slot < orderEntries.Length && orderId < maxOrders && currentOrderID < maxOrders
      modifies this`pendingCancellations, this`currentOrderID, orderEntries, orderIDVsEntryMap
      ensures var m := old(State());
              State() == m.(cancelling := m.cancelling.Plus(order.side, cancelVolume),
                            idMap := m.idMap[m.nextId := m.idMap[orderId]],
                            entries := m.entries[slot := order.(status := order.status + {PendingCancel})],
                            nextId := m.nextId + 1)
    {
      pendingCancellations := pendingCancellations.Plus(order.side, cancelVolume);
      MapId(currentOrderID, orderIDVsEntryMap[orderId]);
      StoreEntry(slot, order.(status := order.status + {PendingCancel}));
      currentOrderID := currentOrderID + 1;
    }

    method TakeCancel(orderId: nat) returns (id: nat)
      requires Ready(CancelOrder(orderId))
      modifies this`pendingCancellations, this`currentOrderID, orderEntries, orderIDVsEntryMap, symbolStates
      ensures Done(old(State()), old(Symbols()), CancelOrder(orderId))
      ensures id == Handle(old(State()), CancelOrder(orderId)).result
    {
      var entry := FindEntry(orderId);
      if entry.None? || currentOrderID > maxOrders {
        return 0;
      }
      var order := orderEntries[entry.value];
      var cancelVolume := order.volume - order.filled;
      RecordCancel(orderId, entry.value, order, cancelVolume);
      symbolStates[order.symbol].OnSingleOrderCancel(order.side, cancelVolume);
      return currentOrderID - 1;
    }

    method HandleCancelOrder(orderId: nat) returns (id: nat)
      requires Valid() && Takes(CancelOrder(orderId))
      modifies this, orderEntries, orderIDVsEntryMap, symbolStates
      ensures Happened(old(world), old(Symbols()), CancelOrder(orderId))
      ensures var w, s := old(world), Lookup(old(world).m, orderId);
              if s.Some? && w.m.nextId <= w.m.maxOrders then id == w.m.nextId && CancelAsked(w, world, s.value, id)
              else id == 0 && world == w
    {
      ghost var ls := Symbols();
      CancelMeans(world, orderId);
      id := TakeCancel(orderId);
      Observe(CancelOrder(orderId), ls);
    }

    method PayForEdit(order: Order, newPrice: int, newVolume: int) returns (paid: bool)
      modifies broker
      ensures var extra := Extra(order, newPrice, newVolume);
              && paid == (extra == 0 || old(broker.currentBalance) >= extra)
              && broker.currentBalance == old(broker.currentBalance) - (if paid then extra else 0)
    {
      var cost := Cost(order.price, order.volume - order.filled, order.side);
      var newCost := Cost(newPrice, newVolume - order.filled, order.side);
      paid := true;
      if newCost > cost {
        paid := broker.DebitBalance(newCost - cost);
      }
    }

    /** A replacement asked for, under the next id. */
    method RecordEdit(orderId: nat, slot: nat, order: Order, newPrice: int, newVolume: int)
      requires Apart() && slot < orderEntries.Length && orderId < maxOrders && currentOrderID < maxOrders
      modifies this`pendingShares, this`currentOrderID, orderEntries, orderIDVsEntryMap
      ensures var m := old(State());
              var o' := order.(status := order.status + {PendingReplace}, newPrice := newPrice, newVolume := newVolume);
              State() == m.(pending := m.pending.Plus(order.side, newVolume - order.volume),
                            idMap := m.idMap[m.nextId := m.idMap[orderId]], entries := m.entries[slot := o'],
                            nextId := m.nextId + 1)
    {
      pendingShares := pendingShares.Plus(order.side, newVolume - order.volume);
      MapId(currentOrderID, orderIDVsEntryMap[orderId]);
      StoreEntry(slot, order.(status := order.status + {PendingReplace}, newPrice := newPrice, newVolume := newVolume));
      currentOrderID := currentOrderID + 1;
    }

    method TakeEdit(orderId: nat, newPrice: int, newVolume: int) returns (id: nat)
      requires Ready(EditOrder(orderId, newPrice, newVolume))
      modifies this`pendingShares, this`currentOrderID, broker, orderEntries, orderIDVsEntryMap, symbolStates
      ensures Done(old(State()), old(Symbols()), EditOrder(orderId, newPrice, newVolume))
      ensures id == Handle(old(State()), EditOrder(orderId, newPrice, newVolume)).result
    {
      var entry := FindEntry(orderId);
      if entry.None? || currentOrderID > maxOrders {
        return 0;
      }
      var order := orderEntries[entry.value];
      if newVolume < order.filled {
        return 0;
      }
      var paid := PayForEdit(order, newPrice, newVolume);
      if !paid {
        return 0;
      }
      var freeEntryIndex := freeEntries[freeEntryPtr];     // read, and never used
      RecordEdit(orderId, entry.value, order, newPrice, newVolume);
      assert State() == Handle(old(State()), EditOrder(orderId, newPrice, newVolume)).m;
      symbolStates[order.symbol].OnSingleOrderEdit(order.side, order.price, newPrice, order.volume, newVolume);
      return currentOrderID - 1;
    }

    method HandleEditOrder(orderId: nat, newPrice: int, newVolume: int) returns (id: nat)
      requires Valid() && Takes(EditOrder(orderId, newPrice, newVolume))
      modifies this, broker, orderEntries, orderIDVsEntryMap, symbolStates
      ensures Happened(old(world), old(Symbols()), EditOrder(orderId, newPrice, newVolume))
      ensures var w, s := old(world), Lookup(old(world).m, orderId);
              if ReplaceDenied(w, orderId, newPrice, newVolume) then id == 0 && world == w
              else s.Some? && id == w.m.nextId && ReplaceAsked(w, world, s.value, id, newPrice, newVolume)
    {
      ghost var ls := Symbols();
      EditMeans(world, orderId, newPrice, newVolume);
      id := TakeEdit(orderId, newPrice, newVolume);
      Observe(EditOrder(orderId, newPrice, newVolume), ls);
    }

    method TakeCancelReject(id: nat) returns (ok: bool)
      requires Ready(CancelRejected(id))
      modifies this`pendingCancellations, orderEntries, orderIDVsEntryMap, symbolStates
      ensures Done(old(State()), old(Symbols()), CancelRejected(id))
      ensures ok == (Handle(old(State()), CancelRejected(id)).result == 1)
    {
      var entry := FindEntry(id);
      if entry.None? {
        return false;
      }
      var order := orderEntries[entry.value];
      var cancelled := order.volume - order.filled;
      StoreEntry(entry.value, order.(status := order.status - {PendingCancel}));
      pendingCancellations := pendingCancellations.Plus(order.side, -cancelled);
      symbolStates[order.symbol].OnCancelOrderReject(order.side, cancelled);
      MapId(id, orderEntries.Length + 1);
      return true;
    }

    method HandleCancelOrderReject(id: nat) returns (ok: bool)
      requires Valid() && Takes(CancelRejected(id))
      modifies this, orderEntries, orderIDVsEntryMap, symbolStates
      ensures Happened(old(world), old(Symbols()), CancelRejected(id))
      ensures ok == Lookup(old(world).m, id).Some?
      ensures if ok then CancelRefused(old(world), world, Lookup(old(world).m, id).value, id) else world == old(world)
    {
      ghost var ls := Symbols();
      CancelRejectedMeans(world, id);
      ok := TakeCancelReject(id);
      Observe(CancelRejected(id), ls);
    }

    /** A cancelled order leaves the totals, its slot, its first id and the request's. */
    method DropCancelled(id: nat, order: Order, cancelled: int)
      requires Apart() && id < maxOrders && order.id < maxOrders && 0 < freeEntryPtr <= freeEntries.Length
      modifies this`pendingCancellations, this`pendingShares, this`freeEntryPtr, orderIDVsEntryMap, freeEntries
      ensures var m := old(State());
              State() == m.(cancelling := m.cancelling.Plus(order.side, -cancelled),
                            pending := m.pending.Plus(order.side, -cancelled), freePtr := m.freePtr - 1,
                            free := m.free[m.freePtr - 1 := m.idMap[id]],
                            idMap := m.idMap[order.id := m.End()][id := m.End()])
    {
      pendingCancellations := pendingCancellations.Plus(order.side, -cancelled);
      pendingShares := pendingShares.Plus(order.side, -cancelled);
      GiveBack(orderIDVsEntryMap[id]);
      MapId(order.id, orderEntries.Length + 1);
      MapId(id, orderEntries.Length + 1);
    }

    method TakeCanceled(id: nat) returns (ok: bool)
      requires Ready(Cancelled(id))
      modifies this`pendingCancellations, this`pendingShares, this`freeEntryPtr
      modifies broker, orderIDVsEntryMap, freeEntries, symbolStates
      ensures Done(old(State()), old(Symbols()), Cancelled(id))
      ensures ok == (Handle(old(State()), Cancelled(id)).result == 1)
    {
      var entry := FindEntry(id);
      if entry.None? {
        return false;
      }
      var order := orderEntries[entry.value];
      var cancelled := order.volume - order.filled;
      DropCancelled(id, order, cancelled);
      symbolStates[order.symbol].OnCancelOrderAck(order.side, order.price, cancelled);
      broker.CreditBalance(Cost(order.price, cancelled, order.side));
      return true;
    }

    method HandleCanceledOrder(id: nat) returns (ok: bool)
      requires Valid() && Takes(Cancelled(id))
      modifies this, broker, orderIDVsEntryMap, freeEntries, symbolStates
      ensures Happened(old(world), old(Symbols()), Cancelled(id))
      ensures ok == Lookup(old(world).m, id).Some?
      ensures if ok then WasCancelled(old(world), world, Lookup(old(world).m, id).value, id) else world == old(world)
    {
      ghost var ls := Symbols();
      CancelledMeans(world, id);
      ok := TakeCanceled(id);
      Observe(Cancelled(id), ls);
    }

    method GiveBackExtra(order: Order)
      modifies broker
      ensures broker.currentBalance == old(broker.currentBalance) + Extra(order, order.newPrice, order.newVolume)
    {
      var cost := Cost(order.price, order.volume - order.filled, order.side);
      var newCost := Cost(order.newPrice, order.newVolume - order.filled, order.side);
      if newCost > cost {
        broker.CreditBalance(newCost - cost);
      }
    }

    /** A refused replacement leaves the totals, the order's status and its id. */
    method DropEdit(id: nat, slot: nat, order: Order)
      requires Apart() && slot < orderEntries.Length && id < maxOrders
      modifies this`pendingShares, orderEntries, orderIDVsEntryMap
      ensures var m := old(State());
              State() == m.(pending := m.pending.Plus(order.side, -(order.newVolume - order.volume)),
                            entries := m.entries[slot := order.(status := order.status - {PendingReplace})],
                            idMap := m.idMap[id := m.End()])
    {
      pendingShares := pendingShares.Plus(order.side, -(order.newVolume - order.volume));
      StoreEntry(slot, order.(status := order.status - {PendingReplace}));
      MapId(id, orderEntries.Length + 1);
    }

    method TakeEditReject(id: nat) returns (ok: bool)
      requires Ready(ReplaceRejected(id))
      modifies this`pendingShares, broker, orderEntries, orderIDVsEntryMap, symbolStates
      ensures Done(old(State()), old(Symbols()), ReplaceRejected(id))
      ensures ok == (Handle(old(State()), ReplaceRejected(id)).result == 1)
    {
      var entry := FindEntry(id);
      if entry.None? {
        return false;
      }
      var order := orderEntries[entry.value];
      DropEdit(id, entry.value, order);
      symbolStates[order.symbol].OnEditOrderReject(order.side, order.price, order.newPrice, order.volume,
                                                    order.newVolume);
      GiveBackExtra(order);
      return true;
    }

    method HandleEditOrderReject(id: nat) returns (ok: bool)
      requires Valid() && Takes(ReplaceRejected(id))
      modifies this, broker, orderEntries, orderIDVsEntryMap, symbolStates
      ensures Happened(old(world), old(Symbols()), ReplaceRejected(id))
      ensures ok == Lookup(old(world).m, id).Some?
      ensures if ok then ReplaceRefused(old(world), world, Lookup(old(world).m, id).value, id) else world == old(world)
    {
      ghost var ls := Symbols();
      ReplaceRejectedMeans(world, id);
      ok := TakeEditReject(id);
      Observe(ReplaceRejected(id), ls);
    }

    method TakeEditAck(id: nat) returns (ok: bool)
      requires Ready(Replaced(id))
      modifies orderEntries, orderIDVsEntryMap
      ensures Done(old(State()), old(Symbols()), Replaced(id))
      ensures ok == (Handle(old(State()), Replaced(id)).result == 1)
    {
      var entry := FindEntry(id);
      if entry.None? {
        return false;
      }
      var order := orderEntries[entry.value];
      order := order.(volume := order.newVolume);
      order := order.(price := order.newPrice);
      StoreEntry(entry.value, order.(status := order.status - {PendingReplace}));
      MapId(order.id, orderEntries.Length + 1);
      return true;
    }

    method HandleEditOrderAck(id: nat) returns (ok: bool)
      requires Valid() && Takes(Replaced(id))
      modifies this, orderEntries, orderIDVsEntryMap
      ensures Happened(old(world), old(Symbols()), Replaced(id))
      ensures ok == Lookup(old(world).m, id).Some?
      ensures if ok then WasReplaced(old(world), world, Lookup(old(world).m, id).value) else world == old(world)
    {
      ghost var ls := Symbols();
      ReplacedMeans(world, id);
      ok := TakeEditAck(id);
      Observe(Replaced(id), ls);
    }
  }
}
