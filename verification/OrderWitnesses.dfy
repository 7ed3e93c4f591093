/** Runs under the contract in which the order manager does what it should not. */
module OrderWitnesses {
  import opened Common
  import opened Orders
  import opened OrderWorld
  import opened OrderRuns

  /** Some run of a manager with one slot ends in `w`. */
  ghost predicate Reached(maxOrders: nat, balance: int, w: World) {
    exists events :: Exec(Start(1, maxOrders, balance), events) == w
  }

  lemma Begin(maxOrders: nat, balance: int)
    ensures Reached(maxOrders, balance, Start(1, maxOrders, balance))
  {
    assert Exec(Start(1, maxOrders, balance), []) == Start(1, maxOrders, balance);
  }

  lemma Go(maxOrders: nat, balance: int, w: World, ev: Event)
    requires Reached(maxOrders, balance, w) && Happens(w, ev)
    ensures Reached(maxOrders, balance, Next(w, ev))
  {
    var events :| Exec(Start(1, maxOrders, balance), events) == w;
    assert (events + [ev])[..|events|] == events;
    assert Exec(Start(1, maxOrders, balance), events + [ev]) == Next(w, ev);
  }

  /** The only slot holds an open buy order of 10 shares at 10, with `filled` of them filled. */
  predicate Holds(w: World, filled: int, out: Pending) {
    && Shape(w.m) && |w.slots| == |w.m.entries| == 1 && w.m.maxOrders == 6
    && w.slots[0].order == w.m.entries[0] && w.slots[0].open && w.slots[0].out == out
    && var o := w.m.entries[0];
       o.id == 1 && o.side == Buy && o.price == o.volume == 10 && o.filled == filled
  }

  predicate Money(w: World, balance: int, bought: int, lost: int, excess: int) {
    w.m.balance == balance && w.bought == bought && w.lost == lost && w.excess == excess
  }

  lemma BuyStep(balance: int)
    requires balance >= 100
    ensures var (w, ev) := (Start(1, 6, balance), NewOrder(Buy, 0, 10, 10));
            Happens(w, ev) && var w' := Next(w, ev);
            && Holds(w', 0, Nothing) && Lookup(w'.m, 1) == Some(0) && w'.m.nextId == 2 && w'.m.freePtr == 1
            && w'.m.own == 0 && w'.m.cancelling == BySide(0, 0) && w'.m.value == BySide(100, 0)
            && Money(w', balance - 100, 0, 0, 0)
  {
  }

  lemma Buy10(balance: int) returns (w: World)
    requires balance >= 100
    ensures Reached(6, balance, w) && Holds(w, 0, Nothing) && Lookup(w.m, 1) == Some(0) && w.m.nextId == 2
    ensures w.m.freePtr == 1 && w.m.own == 0 && w.m.cancelling == BySide(0, 0) && w.m.value == BySide(100, 0)
    ensures Money(w, balance - 100, 0, 0, 0)
  {
    Begin(6, balance);
    BuyStep(balance);
    Go(6, balance, Start(1, 6, balance), NewOrder(Buy, 0, 10, 10));
    w := Next(Start(1, 6, balance), NewOrder(Buy, 0, 10, 10));
  }

  /** A replacement is asked for, whose cost differs by `change`. */
  lemma AskStep(w: World, price: nat, volume: nat, change: int)
    requires Holds(w, 0, Nothing) && Lookup(w.m, 1) == Some(0) && w.m.nextId == 2
    requires change == price * volume - 100 && w.m.balance >= Positive(change)
    ensures var ev := EditOrder(1, price, volume);
            Happens(w, ev) && var w' := Next(w, ev);
            && Holds(w', 0, ReplaceOut(2)) && Lookup(w'.m, 1) == Lookup(w'.m, 2) == Some(0) && w'.m.nextId == 3
            && w'.m.freePtr == w.m.freePtr && w'.m.own == w.m.own && w'.slots[0].change == change
            && w'.m.entries[0].newPrice == price && w'.m.entries[0].newVolume == volume
            && Money(w', w.m.balance - Positive(change), w.bought, w.lost, w.excess)
  {
  }

  /** Shares are filled while a request is out. */
  lemma FillStep(w: World, n: nat, out: Pending)
    requires Holds(w, 0, out) && !out.Nothing? && Lookup(w.m, 1) == Some(0) && n <= 10
    ensures var ev := Fill(1, Buy, n, n, 10, false);
            Happens(w, ev) && var w' := Next(w, ev);
            && Holds(w', n, out) && w'.m.idMap == w.m.idMap && w'.m.nextId == w.m.nextId
            && w'.m.freePtr == w.m.freePtr && w'.m.own == w.m.own + n && w'.slots[0].change == w.slots[0].change
            && w'.m.entries[0].newPrice == w.m.entries[0].newPrice
            && w'.m.entries[0].newVolume == w.m.entries[0].newVolume
            && w'.m.cancelling == w.m.cancelling && w'.m.value == w.m.value.Plus(Buy, -(10 * n))
            && Money(w', w.m.balance, w.bought + 10 * n, w.lost, w.excess)
  {
  }

  /** The replacement is accepted. */
  lemma AcceptStep(w: World, n: nat, volume: nat)
    requires Holds(w, n, ReplaceOut(2)) && Lookup(w.m, 2) == Some(0) && w.slots[0].change == 10 * volume - 100
    requires w.m.entries[0].newPrice == 10 && w.m.entries[0].newVolume == volume <= 10
    ensures var ev := Replaced(2);
            Happens(w, ev) && var w' := Next(w, ev);
            && Shape(w'.m) && |w'.slots| == |w'.m.entries| == 1 && w'.m.maxOrders == 6 && w'.m.nextId == w.m.nextId
            && Lookup(w'.m, 2) == Some(0) && w'.m.freePtr == w.m.freePtr && w'.slots[0].out == Nothing
            && w'.slots[0].order == w'.m.entries[0] && w'.slots[0].open && w'.m.entries[0].id == 1
            && CostLeft(w'.m.entries[0]) == 10 * (volume - n) && w'.overfilled == (w.overfilled || volume < n)
            && Money(w', w.m.balance, w.bought, w.lost + 100 - 10 * volume, w.excess)
  {
  }

  lemma CancelStep(w: World)
    requires Shape(w.m) && |w.slots| == |w.m.entries| == 1 && w.m.maxOrders == 6 && w.m.nextId == 3
    requires Lookup(w.m, 2) == Some(0) && w.slots[0].out == Nothing && w.slots[0].open
    requires w.slots[0].order == w.m.entries[0] && w.m.entries[0].id == 1
    ensures var ev := CancelOrder(2);
            Happens(w, ev) && var w' := Next(w, ev);
            && Shape(w'.m) && |w'.slots| == |w'.m.entries| == 1 && w'.m.maxOrders == 6 && w'.m.nextId == 4
            && Lookup(w'.m, 2) == Lookup(w'.m, 3) == Some(0) && w'.slots[0].out == CancelOut(3) && w'.slots[0].open
            && w'.m.freePtr == w.m.freePtr && w'.overfilled == w.overfilled && w'.m.entries[0].id == 1
            && CostLeft(w'.m.entries[0]) == CostLeft(w.m.entries[0])
            && Money(w', w.m.balance, w.bought, w.lost, w.excess)
  {
  }

  lemma CancelledStep(w: World)
    requires Shape(w.m) && |w.slots| == |w.m.entries| == 1 && w.m.maxOrders == 6 && w.m.nextId == 4
    requires Lookup(w.m, 2) == Lookup(w.m, 3) == Some(0) && w.slots[0].out == CancelOut(3) && w.slots[0].open
    requires w.m.freePtr == 1 && w.m.entries[0].id == 1
    ensures var ev := Cancelled(3);
            Happens(w, ev) && var w' := Next(w, ev);
            && Shape(w'.m) && |w'.slots| == |w'.m.entries| == 1 && w'.m.maxOrders == 6 && w'.m.nextId == 4
            && Lookup(w'.m, 2) == Some(0) && w'.m.freePtr == 0 && w'.m.free == [0] && w'.overfilled == w.overfilled
            && Money(w', w.m.balance + CostLeft(w.m.entries[0]), w.bought, w.lost, w.excess)
  {
  }

  /** Bought, replaced, and `n` shares filled meanwhile. */
  lemma FilledMeanwhile(balance: int, price: nat, volume: nat, change: int, n: nat) returns (w: World)
    requires change == price * volume - 100 && balance >= 100 + Positive(change) && n <= 10
    ensures Reached(6, balance, w) && Holds(w, n, ReplaceOut(2)) && Lookup(w.m, 2) == Some(0) && w.m.nextId == 3
    ensures w.m.freePtr == 1 && w.m.own == n && w.slots[0].change == change
    ensures w.m.entries[0].newPrice == price && w.m.entries[0].newVolume == volume
    ensures Money(w, balance - 100 - Positive(change), 10 * n, 0, 0)
  {
    w := Buy10(balance);
    AskStep(w, price, volume, change);
    Go(6, balance, w, EditOrder(1, price, volume));
    w := Next(w, EditOrder(1, price, volume));
    FillStep(w, n, ReplaceOut(2));
    Go(6, balance, w, Fill(1, Buy, n, n, 10, false));
    w := Next(w, Fill(1, Buy, n, n, 10, false));
  }

  /** Bought, replaced by `volume` shares while `n` were filled, and cancelled. */
  lemma ReplacedAndCancelled(n: nat, volume: nat) returns (w: World)
    requires n <= 10 && volume <= 10
    ensures Reached(6, 100, w) && Money(w, 10 * (volume - n), 10 * n, 100 - 10 * volume, 0)
    ensures volume < n ==> w.overfilled
    ensures Shape(w.m) && |w.slots| == |w.m.entries| == 1 && w.m.maxOrders == 6 && w.m.nextId == 4
    ensures Lookup(w.m, 2) == Some(0) && w.m.freePtr == 0 && w.m.free == [0]
  {
    w := FilledMeanwhile(100, 10, volume, 10 * volume - 100, n);
    AcceptStep(w, n, volume);
    Go(6, 100, w, Replaced(2));
    w := Next(w, Replaced(2));
    CancelStep(w);
    Go(6, 100, w, CancelOrder(2));
    w := Next(w, CancelOrder(2));
    CancelledStep(w);
    Go(6, 100, w, Cancelled(3));
    w := Next(w, Cancelled(3));
  }

  // ---------------------------------------------------------------- what goes wrong

  /** Eight shares are filled while a replacement by five is out; it is accepted, and the
      cancellation of the rest takes 30 from a balance of 0. */
  lemma BalanceBelowZero() returns (w: World)
    ensures Reached(6, 100, w) && w.m.balance == -30 && w.lost == 50 && w.bought == 80 && w.overfilled
  {
    w := ReplacedAndCancelled(8, 5);
  }

  /** A replacement by five of ten shares, nothing filled: 50 of the 100 reserved never come back. */
  lemma MoneyLost() returns (w: World)
    ensures Reached(6, 100, w) && w.m.balance == 50 && w.lost == 50 && w.bought == 0 && w.m.freePtr == 0
  {
    w := ReplacedAndCancelled(0, 5);
  }

  /** Ten shares are filled while a dearer replacement is out, for which 50 were taken; its
      rejection gives back 100. */
  lemma MoneyFromNowhere() returns (w: World)
    ensures Reached(6, 150, w) && w.m.balance == 100 && w.bought == 100 && w.excess == 50 && w.m.own == 10
  {
    w := FilledMeanwhile(150, 5, 30, 50, 10);
    RejectStep(w);
    Go(6, 150, w, ReplaceRejected(2));
    w := Next(w, ReplaceRejected(2));
  }

  lemma RejectStep(w: World)
    requires Holds(w, 10, ReplaceOut(2)) && Lookup(w.m, 2) == Some(0) && w.slots[0].change == 50
    requires w.m.entries[0].newPrice == 5 && w.m.entries[0].newVolume == 30
    ensures var ev := ReplaceRejected(2);
            Happens(w, ev) && Money(Next(w, ev), w.m.balance + 100, w.bought, w.lost, w.excess + 50)
            && Next(w, ev).m.own == w.m.own
  {
  }

  /** Four shares filled while the cancellation is out stay in the pending cancellations, and the other
      six in the pending value, with no order left. */
  lemma CancelledForGood() returns (w: World)
    ensures Reached(6, 100, w) && w.m.cancelling.Of(Buy) == 4 && w.m.value.Of(Buy) == 60 && w.m.freePtr == 0
  {
    w := Buy10(100);
    FirstCancelStep(w);
    Go(6, 100, w, CancelOrder(1));
    w := Next(w, CancelOrder(1));
    FillStep(w, 4, CancelOut(2));
    Go(6, 100, w, Fill(1, Buy, 4, 4, 10, false));
    w := Next(w, Fill(1, Buy, 4, 4, 10, false));
    LateStep(w);
    Go(6, 100, w, Cancelled(2));
    w := Next(w, Cancelled(2));
  }

  lemma FirstCancelStep(w: World)
    requires Holds(w, 0, Nothing) && Lookup(w.m, 1) == Some(0) && w.m.nextId == 2 && w.m.cancelling == BySide(0, 0)
    ensures var ev := CancelOrder(1);
            Happens(w, ev) && var w' := Next(w, ev);
            && Holds(w', 0, CancelOut(2)) && Lookup(w'.m, 1) == Lookup(w'.m, 2) == Some(0)
            && w'.m.freePtr == w.m.freePtr && w'.m.cancelling == BySide(10, 0) && w'.m.value == w.m.value
  {
  }

  lemma LateStep(w: World)
    requires Holds(w, 4, CancelOut(2)) && Lookup(w.m, 2) == Some(0)
    requires w.m.cancelling == BySide(10, 0) && w.m.freePtr == 1
    ensures var ev := Cancelled(2);
            Happens(w, ev) && Next(w, ev).m.cancelling == BySide(4, 0) && Next(w, ev).m.freePtr == 0
            && Next(w, ev).m.value == w.m.value
  {
  }

  /** A replaced and cancelled order's id leads to the free slot, and then to the next order. */
  lemma OldIdNewOrder() returns (w: World, w': World)
    ensures Reached(6, 100, w) && Shape(w.m) && w.m.freePtr == 0 && Lookup(w.m, 2) == Some(0)
    ensures Reached(6, 100, w') && Shape(w'.m) && Lookup(w'.m, 2) == Lookup(w'.m, 4) == Some(0)
    ensures w'.m.entries[w'.m.idMap[2]].id == 4
  {
    w := ReplacedAndCancelled(0, 10);
    SellStep(w);
    Go(6, 100, w, NewOrder(Sell, 0, 10, 10));
    w' := Next(w, NewOrder(Sell, 0, 10, 10));
  }

  lemma SellStep(w: World)
    requires Shape(w.m) && |w.slots| == |w.m.entries| == 1 && w.m.balance >= 0
    requires w.m.freePtr == 0 && w.m.free == [0] && w.m.nextId == 4 && w.m.maxOrders == 6 && Lookup(w.m, 2) == Some(0)
    ensures var ev := NewOrder(Sell, 0, 10, 10);
            Happens(w, ev) && var w' := Next(w, ev);
            && Shape(w'.m) && Lookup(w'.m, 2) == Lookup(w'.m, 4) == Some(0) && w'.m.entries[w'.m.idMap[2]].id == 4
  {
  }

  /** The last order of the day writes map cell `maxOrders`; the code's map ends before it. */
  lemma LastIdIsOutside()
    ensures var (w, ev) := (Start(1, 1, 100), NewOrder(Buy, 0, 10, 10));
            Reached(1, 100, w) && Happens(w, ev) && MapCell(1) in Accesses(w.m, ev) && !Exists(w.m, MapCell(1))
  {
    Begin(1, 100);
    var w, ev := Start(1, 1, 100), NewOrder(Buy, 0, 10, 10);
    assert Accesses(w.m, ev)[1] == MapCell(1);
  }

  /** Replacing the order in the last free slot reads past the free list. */
  lemma EditReadsOutside() returns (w: World)
    ensures Reached(6, 100, w) && Happens(w, EditOrder(1, 10, 10))
    ensures FreeCell(1) in Accesses(w.m, EditOrder(1, 10, 10)) && !Exists(w.m, FreeCell(1))
  {
    w := Buy10(100);
    AskStep(w, 10, 10, 0);
    var ev, found := EditOrder(1, 10, 10), LookupAccesses(w.m, 1);
    assert |found| == 2;
    assert Accesses(w.m, ev) == found + [FreeCell(1), MapCell(1), MapCell(2)];
    assert Accesses(w.m, ev)[2] == FreeCell(1);
  }
}
