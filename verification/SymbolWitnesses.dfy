/** A run under the contract that leaves shares and value behind in a symbol's ledger. */
module SymbolWitnesses {
  import opened Common
  import opened Orders
  import opened OrderWorld
  import opened SymbolRuns
  import Ledgers

  /** One broker with one slot, six ids and 100 to spend, and one symbol. */
  const START: Market := SymbolRuns.Start([(1, 6, 100)], 1)

  predicate Terms(o: Order, filled: int) {
    o.id == 1 && o.side == Buy && o.symbol == 0 && o.price == o.volume == 10 && o.filled == filled
  }

  /** The only broker's only slot holds an open buy order of 10 shares at 10 in symbol 0, that its ids 1
      and, while a cancellation is out, 2 lead to; the symbol's ledger counts `pending`, `cancelling` and
      `value` for it. */
  predicate Holds(f: Market, filled: int, out: Pending, pending: int, cancelling: int, value: int) {
    && |f.worlds| == |f.symbols| == |f.tallies| == 1 && Fits(f.worlds[0])
    && var w, l := f.worlds[0], f.symbols[0];
       && |w.slots| == 1 && w.slots[0].open && w.slots[0].out == out && w.slots[0].order == w.m.entries[0]
       && w.m.maxOrders == 6 && w.m.freePtr == 1 && Lookup(w.m, 1) == Some(0)
       && w.m.nextId == (if out == Nothing && filled == 0 then 2 else 3)
       && (out != Nothing ==> out == CancelOut(2) && Lookup(w.m, 2) == Some(0))
       && Terms(w.m.entries[0], filled)
       && l.own == filled && l.pending == BySide(pending, 0) && l.cancelling == BySide(cancelling, 0)
       && l.value == BySide(value, 0)
  }

  lemma StartIs()
    ensures |START.worlds| == |START.symbols| == |START.tallies| == 1 && START.symbols[0] == Ledgers.EMPTY
    ensures var m := START.worlds[0].m;
            && Fits(START.worlds[0]) && |m.entries| == 1 && m.free == [0] && m.freePtr == 0 && m.balance == 100
            && m.maxOrders == 6 && m.nextId == 1
  {
    assert START.worlds[0] == OrderWorld.Start(1, 6, 100);
  }

  lemma BuyStep(f: Market)
    requires |f.worlds| == |f.symbols| == |f.tallies| == 1 && f.symbols[0] == Ledgers.EMPTY && Fits(f.worlds[0])
    requires var m := f.worlds[0].m;
             && |m.entries| == 1 && m.free == [0] && m.freePtr == 0 && m.balance == 100 && m.maxOrders == 6
             && m.nextId == 1
    ensures Holds(Step(f, 0, NewOrder(Buy, 0, 10, 10)), 0, Nothing, 10, 0, 100)
  {
  }

  lemma AskStep(f: Market)
    requires Holds(f, 0, Nothing, 10, 0, 100)
    ensures Holds(Step(f, 0, CancelOrder(1)), 0, CancelOut(2), 10, 10, 100)
  {
  }

  lemma FillStep(f: Market)
    requires Holds(f, 0, CancelOut(2), 10, 10, 100)
    ensures Holds(Step(f, 0, Fill(1, Buy, 4, 4, 9, false)), 4, CancelOut(2), 6, 10, 64)
    ensures FillsLate(f, 0, Fill(1, Buy, 4, 4, 9, false), 0, Buy)
  {
  }

  lemma CancelledStep(f: Market)
    requires Holds(f, 4, CancelOut(2), 6, 10, 64)
    ensures var f' := Step(f, 0, Cancelled(2));
            && |f'.worlds| == |f'.symbols| == 1 && Quiet(f', 0)
            && f'.symbols[0].pending == BySide(0, 0) && f'.symbols[0].cancelling == BySide(4, 0)
            && f'.symbols[0].value == BySide(4, 0)
  {
  }

  lemma RefusedStep(f: Market)
    requires Holds(f, 4, CancelOut(2), 6, 10, 64)
    ensures Holds(Step(f, 0, CancelRejected(2)), 4, Nothing, 6, 4, 64)
  {
  }

  const BOUGHT: seq<(nat, Event)> := [(0, NewOrder(Buy, 0, 10, 10))]
  const ASKED: seq<(nat, Event)> := BOUGHT + [(0, CancelOrder(1))]
  const FILLED: seq<(nat, Event)> := ASKED + [(0, Fill(1, Buy, 4, 4, 9, false))]

  lemma OneMore(f: Market, events: seq<(nat, Event)>, b: nat, ev: Event)
    ensures Exec(f, events + [(b, ev)]) == Step(Exec(f, events), b, ev)
  {
    assert (events + [(b, ev)])[..|events + [(b, ev)]| - 1] == events;
  }

  lemma UpToBuy()
    ensures Holds(Exec(START, BOUGHT), 0, Nothing, 10, 0, 100)
  {
    OneMore(START, [], 0, NewOrder(Buy, 0, 10, 10));
    assert [] + BOUGHT == BOUGHT;
    StartIs();
    BuyStep(START);
  }

  lemma UpToFill()
    ensures Holds(Exec(START, FILLED), 4, CancelOut(2), 6, 10, 64)
  {
    UpToBuy();
    OneMore(START, BOUGHT, 0, CancelOrder(1));
    AskStep(Exec(START, BOUGHT));
    OneMore(START, ASKED, 0, Fill(1, Buy, 4, 4, 9, false));
    FillStep(Exec(START, ASKED));
  }

  /** Ten shares at 10 are bought, four of them at 9 while their cancellation is out.  When it is
      granted, no order is left, but four shares still count as being cancelled, and 4 as pending value. */
  lemma CancelledLeavesShares()
    ensures var f := Exec(START, FILLED + [(0, Cancelled(2))]);
            && |f.worlds| == |f.symbols| == 1 && Quiet(f, 0)
            && f.symbols[0].pending == BySide(0, 0) && f.symbols[0].cancelling == BySide(4, 0)
            && f.symbols[0].value == BySide(4, 0)
  {
    UpToFill();
    OneMore(START, FILLED, 0, Cancelled(2));
    CancelledStep(Exec(START, FILLED));
  }

  /** When it is refused, four shares count as being cancelled although no cancellation is out. */
  lemma RefusedLeavesShares()
    ensures Holds(Exec(START, FILLED + [(0, CancelRejected(2))]), 4, Nothing, 6, 4, 64)
  {
    UpToFill();
    OneMore(START, FILLED, 0, CancelRejected(2));
    RefusedStep(Exec(START, FILLED));
  }
}
