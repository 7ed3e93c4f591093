/** Where the money of one broker's orders is: what each event takes, gives back and loses. */
module OrderFunds {
  import opened Common
  import opened Orders
  import opened OrderWorld
  import opened Sums

  /** Fills since a replacement was asked for cost `Gap` more at its price than at the old one. */
  function Gap(k: Slot): int {
    Cost(k.order.newPrice, k.since, k.order.side) - Cost(k.order.price, k.since, k.order.side)
  }

  lemma FillSplitsCost(o: Order, last: int)
    ensures var o' := o.(filled := o.filled + last);
            && CostLeft(o) == CostLeft(o') + Cost(o.price, last, o.side)
            && NewCostLeft(o) == NewCostLeft(o') + Cost(o.newPrice, last, o.side)
  {
    var o' := o.(filled := o.filled + last);
    assert o.price * Left(o) == o.price * Left(o') + o.price * last;
    assert o.newPrice * (o.newVolume - o.filled) == o.newPrice * (o.newVolume - o'.filled) + o.newPrice * last;
  }

  lemma CostOfMore(price: int, a: int, b: int, side: Side)
    ensures Cost(price, a + b, side) == Cost(price, a, side) + Cost(price, b, side)
  {
  }

  // ---------------------------------------------------------------- what the replacement out costs

  lemma StepChange(w: World, ev: Event, s: nat)
    requires SlotsOk(w) && AllChangesOk(w) && Contract(w, ev) && Defined(w.m, ev) && Touched(w, ev) == Some(s)
    ensures ChangeOk(Next(w, ev).slots[s])
  {
    var k := w.slots[s];
    assert SlotOk(w.m, w.slots, s) && ChangeOk(k);
    if ev.Fill? {
      FillSplitsCost(k.order, ev.last);
      CostOfMore(k.order.price, k.since, ev.last, k.order.side);
      CostOfMore(k.order.newPrice, k.since, ev.last, k.order.side);
    }
  }

  lemma StepChangesOk(w: World, ev: Event)
    requires SlotsOk(w) && AllChangesOk(w) && Contract(w, ev) && Defined(w.m, ev)
    ensures AllChangesOk(Next(w, ev))
  {
    if Touched(w, ev).Some? { StepChange(w, ev, Touched(w, ev).value); }
  }

  /** Accepting a replacement loses what it was cheaper when asked for, and what the shares filled
      since then would have cost more at its price. */
  lemma LossIsExact(k: Slot)
    requires ChangeOk(k) && k.open && k.out.ReplaceOut?
    ensures Loss(k) == Positive(-k.change) + Gap(k)
    ensures k.since == 0 ==> (Loss(k) == 0 <==> k.change >= 0)
  {
  }

  /** Rejecting it gives back too much or too little exactly when the fills since then change
      whether, or by how much, it is dearer. */
  lemma ExcessIsExact(k: Slot)
    requires ChangeOk(k) && k.open && k.out.ReplaceOut?
    ensures Excess(k) == Positive(k.change - Gap(k)) - Positive(k.change)
    ensures Excess(k) == 0 <==> Gap(k) == 0 || (k.change <= 0 && k.change <= Gap(k))
  {
  }

  // ---------------------------------------------------------------- conservation

  function Funds(w: World): int { w.m.balance + Sum(w.slots, Held) + w.bought + w.lost - w.excess }

  lemma RequestMovesFunds(w: World, ev: Event, s: nat)
    requires SlotsOk(w) && Contract(w, ev) && Defined(w.m, ev) && Touched(w, ev) == Some(s) && IsRequest(ev)
    ensures var (w', k, k') := (Next(w, ev), w.slots[s], Next(w, ev).slots[s]);
            && w'.m.balance - w.m.balance == Held(k) - Held(k')
            && w'.bought == w.bought && w'.lost == w.lost && w'.excess == w.excess
  {
    assert SlotOk(w.m, w.slots, s);
    if ev.NewOrder? { assert PlaceOk(w.m, w.slots, w.m.freePtr); }
  }

  lemma ReportMovesFunds(w: World, ev: Event, s: nat)
    requires SlotsOk(w) && Contract(w, ev) && Defined(w.m, ev) && Touched(w, ev) == Some(s) && !IsRequest(ev)
    ensures var (w', k, k') := (Next(w, ev), w.slots[s], Next(w, ev).slots[s]);
            w'.m.balance - w.m.balance
            == Held(k) - Held(k') - (w'.bought - w.bought) - (w'.lost - w.lost) + (w'.excess - w.excess)
  {
    var k := w.slots[s];
    assert SlotOk(w.m, w.slots, s);
    if ev.Fill? { FillSplitsCost(k.order, ev.last); }
  }

  lemma StepConserves(w: World, ev: Event)
    requires SlotsOk(w) && Contract(w, ev) && Defined(w.m, ev)
    ensures Funds(Next(w, ev)) == Funds(w)
  {
    UntouchedChangesNothing(w, ev);
    if Touched(w, ev).Some? {
      var s := Touched(w, ev).value;
      if IsRequest(ev) { RequestMovesFunds(w, ev, s); } else { ReportMovesFunds(w, ev, s); }
      SumUpdate(w.slots, s, Next(w, ev).slots[s], Held);
    }
  }

  // ---------------------------------------------------------------- reserves

  /** Reserves never grow by a fill or an accepted replacement, and a fill with no replacement out
      releases exactly its shares at the limit price. */
  lemma SpentGrows(w: World, ev: Event)
    requires SlotsOk(w) && Contract(w, ev) && Defined(w.m, ev)
    ensures Next(w, ev).spent >= w.spent
    ensures Touched(w, ev).Some? && !w.slots[Touched(w, ev).value].out.ReplaceOut? ==>
              Next(w, ev).spent - w.spent == Next(w, ev).bought - w.bought
  {
    if Touched(w, ev).Some? && (ev.Fill? || ev.Replaced?) {
      var s := Touched(w, ev).value;
      assert SlotOk(w.m, w.slots, s);
      if ev.Fill? { FillReleases(w.slots[s].order, ev.last); }
    }
  }

  lemma FillReleases(o: Order, last: int)
    requires last >= 0 && o.price >= 0
    ensures var o' := o.(filled := o.filled + last);
            && CostLeft(o) - CostLeft(o') == Cost(o.price, last, o.side) >= 0
            && (o.newPrice >= 0 ==> NewCostLeft(o) >= NewCostLeft(o'))
  {
    FillSplitsCost(o, last);
    CostSign(o.price, last, o.side);
    if o.newPrice >= 0 { CostSign(o.newPrice, last, o.side); }
  }

  ghost predicate NoReplacement(w: World) {
    !w.replaced ==> w.spent == w.bought && w.lost == 0 && w.excess == 0
                    && forall s :: 0 <= s < |w.slots| ==> !w.slots[s].out.ReplaceOut?
  }

  lemma StepNoReplacement(w: World, ev: Event)
    requires SlotsOk(w) && Contract(w, ev) && Defined(w.m, ev) && NoReplacement(w)
    ensures NoReplacement(Next(w, ev))
  {
    SpentGrows(w, ev);
    UntouchedChangesNothing(w, ev);
  }

  // ---------------------------------------------------------------- the balance

  predicate VolumeOk(k: Slot, overfilled: bool) {
    k.open ==>
      && k.order.volume >= 0 && (k.out.ReplaceOut? ==> k.order.newVolume >= 0)
      && (!overfilled ==> Left(k.order) >= 0)
  }

  ghost predicate AllVolumesOk(w: World) { forall s :: 0 <= s < |w.slots| ==> VolumeOk(w.slots[s], w.overfilled) }

  lemma StepVolumesOk(w: World, ev: Event)
    requires SlotsOk(w) && AllVolumesOk(w) && Contract(w, ev) && Defined(w.m, ev)
    ensures AllVolumesOk(Next(w, ev))
  {
    if Touched(w, ev).Some? {
      var s := Touched(w, ev).value;
      assert SlotOk(w.m, w.slots, s) && VolumeOk(w.slots[s], w.overfilled);
    }
  }

  lemma CostSign(price: int, shares: int, side: Side)
    requires price >= 0
    ensures shares >= 0 ==> Cost(price, shares, side) >= 0
  {
    if shares >= 0 { assert price * shares >= 0; }
  }

  /** The balance falls below zero exactly by a cancellation that gives back a negative amount it
      does not cover: that of an order with fewer shares than are filled. */
  lemma BalanceFallsIff(w: World, ev: Event)
    requires SlotsOk(w) && AllVolumesOk(w) && Contract(w, ev) && Defined(w.m, ev) && w.m.balance >= 0
    ensures Next(w, ev).m.balance < 0
            <==> ev.Cancelled? && Touched(w, ev).Some?
                 && w.m.balance + CostLeft(w.slots[Touched(w, ev).value].order) < 0
  {
    UntouchedChangesNothing(w, ev);
    if Touched(w, ev).Some? {
      var s := Touched(w, ev).value;
      var k := w.slots[s];
      assert SlotOk(w.m, w.slots, s) && VolumeOk(k, w.overfilled);
      if ev.Reject? { CostSign(k.order.price, Left(k.order), k.order.side); }
    }
  }

  lemma StepBalance(w: World, ev: Event)
    requires SlotsOk(w) && AllVolumesOk(w) && Contract(w, ev) && Defined(w.m, ev)
    requires !w.overfilled && w.m.balance >= 0
    ensures Next(w, ev).m.balance >= 0
  {
    BalanceFallsIff(w, ev);
    if ev.Cancelled? && Touched(w, ev).Some? {
      var s := Touched(w, ev).value;
      assert SlotOk(w.m, w.slots, s) && VolumeOk(w.slots[s], w.overfilled);
      CostSign(w.slots[s].order.price, Left(w.slots[s].order), w.slots[s].order.side);
    }
  }
}
