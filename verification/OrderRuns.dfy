/** What every run of one broker's order manager keeps. */
module OrderRuns {
  import opened Common
  import opened Orders
  import opened OrderWorld
  import opened OrderFunds
  import opened OrderIds
  import opened Sums

  predicate Happens(w: World, ev: Event) {
    Shape(w.m) && |w.slots| == |w.m.entries| && Contract(w, ev) && Defined(w.m, ev)
  }

  /** One event of a run; events outside the contract do not happen. */
  function Apply(w: World, ev: Event): World { if Happens(w, ev) then Next(w, ev) else w }

  function Exec(w: World, events: seq<Event>): World {
    if events == [] then w else Apply(Exec(w, events[..|events| - 1]), events[|events| - 1])
  }

  ghost predicate Inv(w: World, initial: int) {
    && SlotsOk(w) && AllIdsOk(w) && AllChangesOk(w) && AllVolumesOk(w) && TotalsOk(w, Buy) && TotalsOk(w, Sell)
    && w.m.balance + Sum(w.slots, Reserve) + w.spent == initial == Funds(w)
    && w.spent >= 0 && NoReplacement(w)
    && (initial >= 0 && !w.overfilled ==> w.m.balance >= 0)
  }

  lemma StepInv(w: World, ev: Event, initial: int)
    requires Inv(w, initial)
    ensures Inv(Apply(w, ev), initial)
  {
    if Contract(w, ev) {
      ContractIsDefined(w, ev);
      StepIdsOk(w, ev);
      StepChangesOk(w, ev);
      StepVolumesOk(w, ev);
      StepTotals(w, ev, Buy);
      StepTotals(w, ev, Sell);
      StepFunds(w, ev);
      StepConserves(w, ev);
      SpentGrows(w, ev);
      StepNoReplacement(w, ev);
      if w.m.balance >= 0 && !w.overfilled { StepBalance(w, ev); }
    }
  }

  lemma StartInv(slots: nat, maxOrders: nat, balance: int)
    ensures Inv(Start(slots, maxOrders, balance), balance)
  {
    var w := Start(slots, maxOrders, balance);
    SumZero(w.slots, IsOpen);
    SumZero(w.slots, Reserve);
    SumZero(w.slots, Held);
    SumZero(w.slots, Wanted(Buy));
    SumZero(w.slots, Wanted(Sell));
    SumZero(w.slots, Withdrawn(Buy));
    SumZero(w.slots, Withdrawn(Sell));
  }

  lemma {:induction false} EveryRunKeepsInv(slots: nat, maxOrders: nat, balance: int, events: seq<Event>)
    ensures Inv(Exec(Start(slots, maxOrders, balance), events), balance)
    decreases |events|
  {
    if events == [] {
      StartInv(slots, maxOrders, balance);
    } else {
      var before := events[..|events| - 1];
      EveryRunKeepsInv(slots, maxOrders, balance, before);
      StepInv(Exec(Start(slots, maxOrders, balance), before), events[|events| - 1], balance);
    }
  }

  /** Funds: balance and reserves together never exceed the initial balance, and without
      replacements the shortfall is exactly what was bought at its limit prices. */
  lemma FundsAreSafe(slots: nat, maxOrders: nat, balance: int, events: seq<Event>)
    ensures var w := Exec(Start(slots, maxOrders, balance), events);
            && w.m.balance + Sum(w.slots, Reserve) <= balance
            && (!w.replaced ==> balance - (w.m.balance + Sum(w.slots, Reserve)) == w.bought)
  {
    EveryRunKeepsInv(slots, maxOrders, balance, events);
  }

  /** What an accepted replacement should lose: what it was cheaper when asked for, and what the
      shares filled since then would have cost more at its price. */
  function LossOf(w: World, ev: Event): int
    requires Shape(w.m) && |w.slots| == |w.m.entries| && Contract(w, ev) && Defined(w.m, ev)
  {
    match Touched(w, ev)
    case None => 0
    case Some(s) => if ev.Replaced? then Positive(-w.slots[s].change) + Gap(w.slots[s]) else 0
  }

  /** What a rejected one should give back too much: what these shares changed of its extra cost. */
  function ExcessOf(w: World, ev: Event): int
    requires Shape(w.m) && |w.slots| == |w.m.entries| && Contract(w, ev) && Defined(w.m, ev)
  {
    match Touched(w, ev)
    case None => 0
    case Some(s) =>
      var k := w.slots[s];
      if ev.ReplaceRejected? then Positive(k.change - Gap(k)) - Positive(k.change) else 0
  }

  lemma StepMovesFunds(w: World, ev: Event)
    requires SlotsOk(w) && AllChangesOk(w) && Contract(w, ev) && Defined(w.m, ev)
    ensures Next(w, ev).lost - w.lost == LossOf(w, ev) && Next(w, ev).excess - w.excess == ExcessOf(w, ev)
  {
    if Touched(w, ev).Some? && (ev.Replaced? || ev.ReplaceRejected?) {
      var k := w.slots[Touched(w, ev).value];
      assert ChangeOk(k);
      LossIsExact(k);
      ExcessIsExact(k);
    }
  }

  /** With replacements too, what is missing from the balance is exactly what is held for open
      orders, what was bought at limit prices, and what accepted replacements lost, less what
      rejected ones gave back too much. */
  lemma FundsAreExact(slots: nat, maxOrders: nat, balance: int, events: seq<Event>)
    ensures var w := Exec(Start(slots, maxOrders, balance), events);
            && balance == w.m.balance + Sum(w.slots, Held) + w.bought + w.lost - w.excess
            && SlotsOk(w) && AllChangesOk(w)
  {
    EveryRunKeepsInv(slots, maxOrders, balance, events);
  }

  lemma LossAndExcess(slots: nat, maxOrders: nat, balance: int, events: seq<Event>, ev: Event)
    ensures var w := Exec(Start(slots, maxOrders, balance), events);
            SlotsOk(w) && (Contract(w, ev) ==>
                             && Defined(w.m, ev)
                             && Next(w, ev).lost - w.lost == LossOf(w, ev)
                             && Next(w, ev).excess - w.excess == ExcessOf(w, ev))
  {
    FundsAreExact(slots, maxOrders, balance, events);
    var w := Exec(Start(slots, maxOrders, balance), events);
    if Contract(w, ev) {
      EveryRunKeepsInv(slots, maxOrders, balance, events);
      ContractIsDefined(w, ev);
      StepMovesFunds(w, ev);
    }
  }

  /** The balance stays at or above zero as long as no replacement is accepted that leaves an order
      with fewer shares than are filled; then reserves do too. */
  lemma BalanceIsCovered(slots: nat, maxOrders: nat, balance: int, events: seq<Event>)
    requires balance >= 0
    ensures var w := Exec(Start(slots, maxOrders, balance), events);
            !w.overfilled ==> w.m.balance >= 0 && forall s :: 0 <= s < |w.slots| ==> Reserve(w.slots[s]) >= 0
  {
    EveryRunKeepsInv(slots, maxOrders, balance, events);
    var w := Exec(Start(slots, maxOrders, balance), events);
    if !w.overfilled {
      forall s | 0 <= s < |w.slots| ensures Reserve(w.slots[s]) >= 0 {
        assert SlotOk(w.m, w.slots, s) && VolumeOk(w.slots[s], w.overfilled);
        var o := w.slots[s].order;
        if w.slots[s].open { CostSign(o.price, Left(o), o.side); }
      }
    }
  }

  /** The event cancels a purchase that was replaced by fewer shares than are filled, whose overfilled
      shares cost more than there is. */
  predicate Uncovered(w: World, ev: Event) {
    && Happens(w, ev) && ev.Cancelled? && Touched(w, ev).Some?
    && var o := w.slots[Touched(w, ev).value].order;
       o.side.Buy? && o.volume < o.filled && o.price * (o.filled - o.volume) > w.m.balance
  }

  predicate AlwaysCovered(w: World, events: seq<Event>) {
    events != [] ==>
      var n := |events| - 1; AlwaysCovered(w, events[..n]) && !Uncovered(Exec(w, events[..n]), events[n])
  }

  /** The balance is not below zero now, nor was it after any earlier event. */
  predicate NeverBelowZero(w: World, events: seq<Event>) {
    Exec(w, events).m.balance >= 0 && (events != [] ==> NeverBelowZero(w, events[..|events| - 1]))
  }

  lemma ApplyFallsIff(w: World, ev: Event)
    requires SlotsOk(w) && AllVolumesOk(w) && w.m.balance >= 0
    ensures Apply(w, ev).m.balance < 0 <==> Uncovered(w, ev)
  {
    if Contract(w, ev) && Defined(w.m, ev) {
      BalanceFallsIff(w, ev);
      if ev.Cancelled? && Touched(w, ev).Some? {
        var s := Touched(w, ev).value;
        assert SlotOk(w.m, w.slots, s);
        RefundIs(w, w.slots[s].order);
      }
    }
  }

  lemma RefundIs(w: World, o: Order)
    requires w.m.balance >= 0
    ensures o.price >= 0 ==>
              (w.m.balance + CostLeft(o) < 0
               <==> o.side.Buy? && o.volume < o.filled && o.price * (o.filled - o.volume) > w.m.balance)
  {
    assert o.price * (o.filled - o.volume) == -(o.price * Left(o));
    if o.price >= 0 { CostSign(o.price, Left(o), o.side); }
  }

  /** In every run the balance is never below zero if and only if, whenever an order with fewer shares
      than are filled was cancelled, its overfilled shares were covered. */
  lemma {:induction false} BalanceHoldsIffCovered(slots: nat, maxOrders: nat, balance: nat, events: seq<Event>)
    ensures NeverBelowZero(Start(slots, maxOrders, balance), events)
            <==> AlwaysCovered(Start(slots, maxOrders, balance), events)
    decreases |events|
  {
    if events != [] {
      var n, start := |events| - 1, Start(slots, maxOrders, balance);
      BalanceHoldsIffCovered(slots, maxOrders, balance, events[..n]);
      EveryRunKeepsInv(slots, maxOrders, balance, events[..n]);
      if NeverBelowZero(start, events[..n]) { ApplyFallsIff(Exec(start, events[..n]), events[n]); }
    }
  }

  /** Slots: the tail of the free list and the open orders share out all slots, each once, and
      `freePtr` is the number of open orders. */
  lemma SlotsArePartitioned(slots: nat, maxOrders: nat, balance: int, events: seq<Event>)
    ensures var w := Exec(Start(slots, maxOrders, balance), events);
            var m := w.m;
            && m.freePtr <= |m.free| && Sum(w.slots, IsOpen) == m.freePtr
            && (forall i, j :: m.freePtr <= i < j < |m.free| ==> m.free[i] != m.free[j])
            && (forall s :: 0 <= s < |w.slots| ==> (w.slots[s].open <==> s !in m.free[m.freePtr..]))
  {
    EveryRunKeepsInv(slots, maxOrders, balance, events);
    Partition(Exec(Start(slots, maxOrders, balance), events));
  }

  lemma Partition(w: World)
    requires SlotsOk(w)
    ensures var m := w.m;
            && (forall i, j :: m.freePtr <= i < j < |m.free| ==> m.free[i] != m.free[j])
            && (forall s :: 0 <= s < |w.slots| ==> (w.slots[s].open <==> s !in m.free[m.freePtr..]))
  {
    var m := w.m;
    forall i, j | m.freePtr <= i < j < |m.free| ensures m.free[i] != m.free[j] {
      assert PlaceOk(m, w.slots, i) && PlaceOk(m, w.slots, j);
    }
    forall j | m.freePtr <= j < |m.free| ensures !w.slots[m.free[j]].open {
      assert PlaceOk(m, w.slots, j);
    }
    forall s | 0 <= s < |w.slots| ensures w.slots[s].open <==> s !in m.free[m.freePtr..] {
      assert SlotOk(m, w.slots, s);
      if !w.slots[s].open {
        assert m.free[m.freePtr..][w.slots[s].place - m.freePtr] == s;
      }
    }
  }

  /** Pending shares are what the open orders still ask for.  Pending cancellations are what
      is being withdrawn exactly when no share was ever filled while its cancellation was
      out; otherwise those shares stay in the total for good. */
  lemma PendingIsWhatOrdersAskFor(slots: nat, maxOrders: nat, balance: int, events: seq<Event>, side: Side)
    ensures var w := Exec(Start(slots, maxOrders, balance), events);
            && w.m.pending.Of(side) == Sum(w.slots, Wanted(side))
            && (w.m.cancelling.Of(side) == Sum(w.slots, Withdrawn(side)) <==> w.late.Of(side) == 0)
  {
    EveryRunKeepsInv(slots, maxOrders, balance, events);
  }

  /** Ids: after any run, the ids of an order that an event closes all lead nowhere exactly when
      it is rejected, or cancelled with no replacement ever accepted, or filled under one of its own
      ids with at most one accepted. */
  lemma ClosedIdsLeadNowhereIff(slots: nat, maxOrders: nat, balance: int, events: seq<Event>, ev: Event, s: nat)
    ensures var w := Exec(Start(slots, maxOrders, balance), events);
            SlotsOk(w) && (Contract(w, ev) ==>
                             && Defined(w.m, ev)
                             && (Closes(w, ev, s) ==>
                                   && Shape(Next(w, ev).m)
                                   && (Forgotten(w.slots[s].ids, Next(w, ev).m) <==> LeavesNone(ev, w.slots[s]))))
  {
    EveryRunKeepsInv(slots, maxOrders, balance, events);
    var w := Exec(Start(slots, maxOrders, balance), events);
    if Contract(w, ev) {
      ContractIsDefined(w, ev);
      if Closes(w, ev, s) { IdsForgottenIff(w, ev, s); }
    }
  }

  /** The id named is not `maxOrders`, nor is the next one when a request is let through, nor the
      order's first one when it is cleared; and an edit that is let through finds a slot free. */
  predicate HasRoom(m: Manager, ev: Event)
    requires Shape(m)
  {
    match ev
    case NewOrder(side, _, price, volume) =>
      m.nextId != m.maxOrders || m.freePtr >= |m.free| || m.balance < Cost(price, volume, side)
    case CancelOrder(id) => id != m.maxOrders && (Lookup(m, id).Some? ==> m.nextId != m.maxOrders)
    case EditOrder(id, p, v) =>
      id != m.maxOrders && (EditRefused(m, id, p, v) || (m.nextId != m.maxOrders && m.freePtr < |m.free|))
    case Fill(id, _, _, _, _, _) => id != m.maxOrders
    case Ack(id) => id != m.maxOrders
    case CancelRejected(id) => id != m.maxOrders
    case ReplaceRejected(id) => id != m.maxOrders
    case _ => ev.id != m.maxOrders && (Lookup(m, ev.id).Some? ==> m.entries[m.idMap[ev.id]].id != m.maxOrders)
  }

  lemma InsideIffRoom(w: World, ev: Event)
    requires SlotsOk(w) && Contract(w, ev) && Defined(w.m, ev)
    ensures StaysInside(w.m, ev) <==> HasRoom(w.m, ev)
  {
    var m, all := w.m, Accesses(w.m, ev);
    if ev.NewOrder? {
      if all != [] { assert MapCell(m.nextId) in all; }
    } else {
      if ev.id == m.maxOrders { assert MapCell(ev.id) == all[0]; }
      if Lookup(m, ev.id).Some? { LookedUp(w, ev); } else { NotFound(m, ev); }
    }
  }

  lemma NotFound(m: Manager, ev: Event)
    requires Shape(m) && Defined(m, ev) && !ev.NewOrder? && Lookup(m, ev.id).None?
    ensures StaysInside(m, ev) <==> ev.id != m.maxOrders
  {
    var all := Accesses(m, ev);
    if ev.id > m.maxOrders {
      assert all == [];
    } else {
      assert all == [MapCell(ev.id)];
      assert all[0] in all;
      if ev.id < m.maxOrders {
        forall a | a in all ensures Exists(m, a) {
          assert a == MapCell(ev.id);
        }
      }
    }
  }

  lemma LookedUp(w: World, ev: Event)
    requires SlotsOk(w) && Contract(w, ev) && Defined(w.m, ev) && !ev.NewOrder? && Lookup(w.m, ev.id).Some?
    ensures StaysInside(w.m, ev) <==> HasRoom(w.m, ev)
  {
    var m := w.m;
    assert SlotOk(m, w.slots, m.idMap[ev.id]);
    if IsRequest(ev) { RequestLookedUp(m, ev); } else { ReportLookedUp(m, ev); }
  }

  lemma RequestLookedUp(m: Manager, ev: Event)
    requires Shape(m) && (ev.CancelOrder? || ev.EditOrder?) && Lookup(m, ev.id).Some?
    requires 0 < m.nextId <= m.maxOrders + 1 && m.freePtr <= |m.free|
    ensures StaysInside(m, ev) <==> HasRoom(m, ev)
  {
    var all := Accesses(m, ev);
    assert all[0] in all && all[1] in all;
    if |all| > 2 {
      assert all[2] in all && all[3] in all;
      if |all| > 4 { assert all[4] in all; }
    }
  }

  lemma ReportLookedUp(m: Manager, ev: Event)
    requires Shape(m) && Defined(m, ev) && !IsRequest(ev) && Lookup(m, ev.id).Some?
    requires m.freePtr <= |m.free| && m.entries[m.idMap[ev.id]].id <= m.maxOrders
    ensures StaysInside(m, ev) <==> HasRoom(m, ev)
  {
    var all := Accesses(m, ev);
    assert all[0] in all && all[1] in all;
    if |all| > 2 {
      assert all[2] in all;
      if |all| > 3 { assert all[3] in all; }
      if |all| > 4 { assert all[4] in all; }
    }
  }

  /** Vectors: after any run, every element an event's handler touches is there exactly when no
      cell of the id `maxOrders` is looked up or written, and no edit is let through with all
      slots taken. */
  lemma AccessesStayInsideIff(slots: nat, maxOrders: nat, balance: int, events: seq<Event>, ev: Event)
    ensures var w := Exec(Start(slots, maxOrders, balance), events);
            SlotsOk(w) && (Contract(w, ev) ==> Defined(w.m, ev) && (StaysInside(w.m, ev) <==> HasRoom(w.m, ev)))
  {
    EveryRunKeepsInv(slots, maxOrders, balance, events);
    var w := Exec(Start(slots, maxOrders, balance), events);
    if Contract(w, ev) {
      ContractIsDefined(w, ev);
      InsideIffRoom(w, ev);
    }
  }
}
