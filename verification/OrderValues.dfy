/** What a broker's pending share values amount to in every run: nothing in them follows
    cancellations and replacements. */
module OrderValues {
  import opened Common
  import opened Orders
  import opened OrderWorld
  import opened OrderRuns
  import opened Sums

  /** The value of what an open order has still to fill, at its limit. */
  function AtLimit(side: Side): Slot -> int {
    (k: Slot) => if k.open && k.order.side == side then Left(k.order) * k.order.price else 0
  }

  function OnSide(side: Side, other: Side, n: int): int { if side == other then n else 0 }

  /** What a fill off its limit counts too little or too much. */
  function Drift(w: World, ev: Event, side: Side): int
    requires Happens(w, ev)
  {
    match Touched(w, ev)
    case None => 0
    case Some(s) => if ev.Fill? then OnSide(side, ev.side, ev.last * (w.slots[s].order.price - ev.price)) else 0
  }

  /** What a cancellation leaves behind, and what a replacement changes unnoticed. */
  function Behind(w: World, ev: Event, side: Side): int
    requires Happens(w, ev)
  {
    match Touched(w, ev)
    case None => 0
    case Some(s) =>
      var o := w.slots[s].order;
      if ev.Cancelled? then OnSide(side, o.side, Left(o) * o.price)
      else if ev.Replaced? then OnSide(side, o.side, Left(o) * o.price - (o.newVolume - o.filled) * o.newPrice)
      else 0
  }

  lemma FillAtLimit(left: int, n: int, p: int, at: int)
    ensures (left - n) * p + n * (p - at) == left * p - n * at
  {
  }

  lemma FillMovesValue(w: World, ev: Event, s: nat, side: Side)
    requires SlotsOk(w) && Contract(w, ev) && Defined(w.m, ev) && Touched(w, ev) == Some(s) && ev.Fill?
    ensures var (k, k') := (w.slots[s], Next(w, ev).slots[s]);
            Next(w, ev).m.value.Of(side) - w.m.value.Of(side)
            == AtLimit(side)(k') - AtLimit(side)(k) + Drift(w, ev, side)
  {
    assert SlotOk(w.m, w.slots, s);
    var o := w.slots[s].order;
    FillAtLimit(Left(o), ev.last, o.price, ev.price);
  }

  lemma RequestMovesValue(w: World, ev: Event, s: nat, side: Side)
    requires SlotsOk(w) && Contract(w, ev) && Defined(w.m, ev) && Touched(w, ev) == Some(s) && IsRequest(ev)
    ensures var (k, k') := (w.slots[s], Next(w, ev).slots[s]);
            Next(w, ev).m.value.Of(side) - w.m.value.Of(side) == AtLimit(side)(k') - AtLimit(side)(k)
  {
    assert SlotOk(w.m, w.slots, s);
    if ev.NewOrder? { assert PlaceOk(w.m, w.slots, w.m.freePtr); }
  }

  lemma ReportMovesValue(w: World, ev: Event, s: nat, side: Side)
    requires SlotsOk(w) && Contract(w, ev) && Defined(w.m, ev) && Touched(w, ev) == Some(s)
    requires !IsRequest(ev) && !ev.Fill?
    ensures var (k, k') := (w.slots[s], Next(w, ev).slots[s]);
            Next(w, ev).m.value.Of(side) - w.m.value.Of(side)
            == AtLimit(side)(k') - AtLimit(side)(k) + Behind(w, ev, side)
  {
    assert SlotOk(w.m, w.slots, s);
  }

  lemma StepMovesValue(w: World, ev: Event, side: Side)
    requires SlotsOk(w) && Contract(w, ev) && Defined(w.m, ev)
    ensures Next(w, ev).m.value.Of(side) - Sum(Next(w, ev).slots, AtLimit(side))
            == w.m.value.Of(side) - Sum(w.slots, AtLimit(side)) + Drift(w, ev, side) + Behind(w, ev, side)
  {
    if Touched(w, ev).Some? {
      var s := Touched(w, ev).value;
      if IsRequest(ev) { RequestMovesValue(w, ev, s, side); }
      else if ev.Fill? { FillMovesValue(w, ev, s, side); }
      else { ReportMovesValue(w, ev, s, side); }
      SumUpdate(w.slots, s, Next(w, ev).slots[s], AtLimit(side));
    }
  }

  // ---------------------------------------------------------------- runs

  /** Drift and remains, added up over a run. */
  function Drifted(w: World, events: seq<Event>, side: Side): int {
    if events == [] then 0
    else
      var n := |events| - 1;
      var before := Exec(w, events[..n]);
      Drifted(w, events[..n], side) + if Happens(before, events[n]) then Drift(before, events[n], side) else 0
  }

  function LeftBehind(w: World, events: seq<Event>, side: Side): int {
    if events == [] then 0
    else
      var n := |events| - 1;
      var before := Exec(w, events[..n]);
      LeftBehind(w, events[..n], side) + if Happens(before, events[n]) then Behind(before, events[n], side) else 0
  }

  /** After every run the pending value of a side is what its open orders have still to fill, at their
      limits, and what fills off the limit, cancellations and replacements have left in it. */
  lemma {:induction false} PendingValueIsExact(slots: nat, maxOrders: nat, balance: int, events: seq<Event>, side: Side)
    ensures var start := Start(slots, maxOrders, balance);
            Exec(start, events).m.value.Of(side)
            == Sum(Exec(start, events).slots, AtLimit(side)) + Drifted(start, events, side)
               + LeftBehind(start, events, side)
    decreases |events|
  {
    var start := Start(slots, maxOrders, balance);
    if events == [] {
      SumZero(start.slots, AtLimit(side));
    } else {
      var n := |events| - 1;
      var before := Exec(start, events[..n]);
      PendingValueIsExact(slots, maxOrders, balance, events[..n], side);
      EveryRunKeepsInv(slots, maxOrders, balance, events[..n]);
      if Happens(before, events[n]) { StepMovesValue(before, events[n], side); }
    }
  }

  predicate NoneOpen(w: World) { forall s :: 0 <= s < |w.slots| ==> !w.slots[s].open }

  /** With no order open, the pending value should be none; it is what was left in it. */
  lemma ClosedValueIsWhatWasLeft(slots: nat, maxOrders: nat, balance: int, events: seq<Event>, side: Side)
    requires NoneOpen(Exec(Start(slots, maxOrders, balance), events))
    ensures var start := Start(slots, maxOrders, balance);
            Exec(start, events).m.value.Of(side) == Drifted(start, events, side) + LeftBehind(start, events, side)
  {
    PendingValueIsExact(slots, maxOrders, balance, events, side);
    SumZero(Exec(Start(slots, maxOrders, balance), events).slots, AtLimit(side));
  }
}
