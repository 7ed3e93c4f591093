/** What every run leaves in a symbol's ledger, for any brokers whose orders in it interleave. */
module SymbolRuns {
  import opened Common
  import opened Orders
  import opened OrderWorld
  import opened Ledgers
  import opened Sums

  /** What is counted for a symbol beside its ledger.  `late`: shares filled while the cancellation of
      their order was out; `net`: shares bought less shares sold; `drift`: what shares filled off their
      limit, or before their order's price changed, should have counted for but did not. */
  datatype Tally = Tally(late: BySide, net: int, drift: BySide)

  datatype Market = Market(worlds: seq<World>, symbols: seq<Ledger>, tallies: seq<Tally>)

  const NO_TALLY := Tally(BySide(0, 0), 0, BySide(0, 0))

  function Start(brokers: seq<(nat, nat, int)>, symbols: nat): Market {
    Market(seq(|brokers|, i requires 0 <= i < |brokers| =>
                            OrderWorld.Start(brokers[i].0, brokers[i].1, brokers[i].2)),
           seq(symbols, _ => EMPTY), seq(symbols, _ => NO_TALLY))
  }

  predicate Fits(w: World) { Shape(w.m) && |w.slots| == |w.m.entries| }

  /** The event reaches a broker, keeps its contract, and its ledger call can be made. */
  predicate Happens(f: Market, b: nat, ev: Event) {
    && b < |f.worlds| && |f.symbols| == |f.tallies|
    && Fits(f.worlds[b]) && Contract(f.worlds[b], ev) && Defined(f.worlds[b].m, ev)
    && CallFits(f.symbols, Handle(f.worlds[b].m, ev).call)
  }

  /** What an event about the order in slot `k` adds to its symbol's tally. */
  function Tallied(t: Tally, ev: Event, k: Slot): Tally {
    var o := k.order;
    match ev
    case Fill(_, side, last, _, price, _) =>
      Tally(if k.out.CancelOut? then t.late.Plus(side, last) else t.late,
            if side.Buy? then t.net + last else t.net - last, t.drift.Plus(side, last * (o.price - price)))
    case Replaced(_) => t.(drift := t.drift.Plus(o.side, o.filled * (o.newPrice - o.price)))
    case _ => t
  }

  function Noted(f: Market, b: nat, ev: Event): seq<Tally>
    requires Happens(f, b, ev)
  {
    match Touched(f.worlds[b], ev)
    case None => f.tallies
    case Some(s) =>
      var k := f.worlds[b].slots[s];
      var y := k.order.symbol;
      if ev.NewOrder? || y >= |f.tallies| then f.tallies else f.tallies[y := Tallied(f.tallies[y], ev, k)]
  }

  /** Events that cannot happen do not. */
  function Step(f: Market, b: nat, ev: Event): Market {
    if !Happens(f, b, ev) then f
    else
      var w := f.worlds[b];
      Market(f.worlds[b := Next(w, ev)], Called(f.symbols, Handle(w.m, ev).call), Noted(f, b, ev))
  }

  function Exec(f: Market, events: seq<(nat, Event)>): Market {
    if events == [] then f
    else Step(Exec(f, events[..|events| - 1]), events[|events| - 1].0, events[|events| - 1].1)
  }

  // ---------------------------------------------------------------- what orders account for

  /** The value the ledger should count for an open order: what is left at its limit, and the terms
      asked for in place of its own while a replacement is out. */
  function Worth(side: Side): Slot -> int {
    (k: Slot) =>
      var o := k.order;
      if !k.open || o.side != side then 0
      else Left(o) * o.price + (if k.out.ReplaceOut? then o.newVolume * o.newPrice - o.volume * o.price else 0)
  }

  /** Only the orders in symbol `y`. */
  function In(y: nat, f: Slot -> int): Slot -> int { (k: Slot) => if k.order.symbol == y then f(k) else 0 }

  function Total(f: Slot -> int): World -> int { (w: World) => Sum(w.slots, f) }

  ghost predicate SymbolOk(f: Market, y: nat, side: Side)
    requires y < |f.symbols| == |f.tallies|
  {
    var l, t := f.symbols[y], f.tallies[y];
    && l.pending.Of(side) == Sum(f.worlds, Total(In(y, Wanted(side))))
    && l.cancelling.Of(side) == Sum(f.worlds, Total(In(y, Withdrawn(side)))) + t.late.Of(side)
    && l.value.Of(side) == Sum(f.worlds, Total(In(y, Worth(side)))) + t.drift.Of(side)
    && l.own == t.net
  }

  ghost predicate AllSlotsOk(f: Market) { forall b :: 0 <= b < |f.worlds| ==> SlotsOk(f.worlds[b]) }

  // ---------------------------------------------------------------- one event and its own symbol

  /** The order an event touches stays in its symbol, and that is the symbol it calls. */
  lemma OwnSymbol(w: World, ev: Event, s: nat)
    requires SlotsOk(w) && Contract(w, ev) && Defined(w.m, ev) && Touched(w, ev) == Some(s)
    ensures var k, k' := w.slots[s], Next(w, ev).slots[s];
            && (k.open ==> k.order.symbol == k'.order.symbol) && (ev.NewOrder? <==> !k.open)
            && (Handle(w.m, ev).call.Some? ==> Handle(w.m, ev).call.value.0 == k'.order.symbol)
  {
    assert SlotOk(w.m, w.slots, s);
    if ev.NewOrder? { assert PlaceOk(w.m, w.slots, w.m.freePtr); }
  }

  /** How the ledger moves, by the call or by none. */
  function Given(l: Ledger, call: Option<(nat, Call)>): Ledger
    requires call.Some? ==> Divides(l, call.value.1)
  {
    if call.None? then l else On(l, call.value.1)
  }

  /** What the ledger and the tally move by is what the touched slot accounts for more. */
  predicate Follows(k: Slot, k': Slot, l: Ledger, l': Ledger, t: Tally, t': Tally, side: Side) {
    && l'.pending.Of(side) - l.pending.Of(side) == Wanted(side)(k') - Wanted(side)(k)
    && l'.cancelling.Of(side) - l.cancelling.Of(side)
       == Withdrawn(side)(k') - Withdrawn(side)(k) + t'.late.Of(side) - t.late.Of(side)
    && l'.value.Of(side) - l.value.Of(side)
       == Worth(side)(k') - Worth(side)(k) + t'.drift.Of(side) - t.drift.Of(side)
    && l'.own - l.own == t'.net - t.net
  }

  lemma FillValue(left: int, n: int, p: int, at: int)
    ensures (left - n) * p - left * p + n * (p - at) == -(n * at)
  {
  }

  lemma ReplaceValue(v: int, f: int, p: int, v': int, p': int)
    ensures (v' - f) * p' + f * (p' - p) == (v - f) * p + v' * p' - v * p
  {
  }

  lemma RequestValue(w: World, ev: Event, s: nat, l: Ledger, side: Side)
    requires SlotsOk(w) && Contract(w, ev) && Defined(w.m, ev) && Touched(w, ev) == Some(s) && IsRequest(ev)
    requires var call := Handle(w.m, ev).call; call.Some? ==> Divides(l, call.value.1)
    ensures Given(l, Handle(w.m, ev).call).value.Of(side) - l.value.Of(side)
            == Worth(side)(Next(w, ev).slots[s]) - Worth(side)(w.slots[s])
  {
    assert SlotOk(w.m, w.slots, s);
    if ev.NewOrder? { assert PlaceOk(w.m, w.slots, w.m.freePtr); }
  }

  lemma FillMovesValue(w: World, ev: Event, s: nat, l: Ledger, t: Tally, side: Side)
    requires SlotsOk(w) && Contract(w, ev) && Defined(w.m, ev) && Touched(w, ev) == Some(s) && ev.Fill?
    requires var call := Handle(w.m, ev).call; call.Some? ==> Divides(l, call.value.1)
    ensures Given(l, Handle(w.m, ev).call).value.Of(side) - l.value.Of(side)
            == Worth(side)(Next(w, ev).slots[s]) - Worth(side)(w.slots[s])
               + Tallied(t, ev, w.slots[s]).drift.Of(side) - t.drift.Of(side)
  {
    var o := w.slots[s].order;
    assert SlotOk(w.m, w.slots, s);
    FillValue(Left(o), ev.last, o.price, ev.price);
  }

  lemma ReplacedMovesValue(w: World, ev: Event, s: nat, t: Tally, side: Side)
    requires SlotsOk(w) && Contract(w, ev) && Defined(w.m, ev) && Touched(w, ev) == Some(s) && ev.Replaced?
    ensures Worth(side)(Next(w, ev).slots[s]) - Worth(side)(w.slots[s])
            + Tallied(t, ev, w.slots[s]).drift.Of(side) - t.drift.Of(side) == 0
  {
    var o := w.slots[s].order;
    assert SlotOk(w.m, w.slots, s);
    ReplaceValue(o.volume, o.filled, o.price, o.newVolume, o.newPrice);
  }

  lemma ReportMovesValue(w: World, ev: Event, s: nat, l: Ledger, side: Side)
    requires SlotsOk(w) && Contract(w, ev) && Defined(w.m, ev) && Touched(w, ev) == Some(s)
    requires !IsRequest(ev) && !ev.Fill? && !ev.Replaced?
    ensures Given(l, Handle(w.m, ev).call).value.Of(side) - l.value.Of(side)
            == Worth(side)(Next(w, ev).slots[s]) - Worth(side)(w.slots[s])
  {
    assert SlotOk(w.m, w.slots, s);
  }

  lemma ValueFollows(w: World, ev: Event, s: nat, l: Ledger, t: Tally, side: Side)
    requires SlotsOk(w) && Contract(w, ev) && Defined(w.m, ev) && Touched(w, ev) == Some(s)
    requires var call := Handle(w.m, ev).call; call.Some? ==> Divides(l, call.value.1)
    ensures Given(l, Handle(w.m, ev).call).value.Of(side) - l.value.Of(side)
            == Worth(side)(Next(w, ev).slots[s]) - Worth(side)(w.slots[s])
               + Tallied(t, ev, w.slots[s]).drift.Of(side) - t.drift.Of(side)
  {
    if IsRequest(ev) { RequestValue(w, ev, s, l, side); }
    else if ev.Fill? { FillMovesValue(w, ev, s, l, t, side); }
    else if ev.Replaced? { ReplacedMovesValue(w, ev, s, t, side); }
    else { ReportMovesValue(w, ev, s, l, side); }
  }

  /** The shares counted late for the broker are counted late for the symbol. */
  lemma SharesFollow(w: World, ev: Event, s: nat, l: Ledger, t: Tally, side: Side)
    requires SlotsOk(w) && Contract(w, ev) && Defined(w.m, ev) && Touched(w, ev) == Some(s)
    requires var call := Handle(w.m, ev).call; call.Some? ==> Divides(l, call.value.1)
    ensures var t' := Tallied(t, ev, w.slots[s]);
            && Next(w, ev).late.Of(side) - w.late.Of(side) == t'.late.Of(side) - t.late.Of(side)
            && Next(w, ev).m.own - w.m.own == t'.net - t.net
  {
  }

  lemma StepFollows(w: World, ev: Event, s: nat, l: Ledger, t: Tally, side: Side)
    requires SlotsOk(w) && Contract(w, ev) && Defined(w.m, ev) && Touched(w, ev) == Some(s)
    requires var call := Handle(w.m, ev).call; call.Some? ==> Divides(l, call.value.1)
    ensures Follows(w.slots[s], Next(w, ev).slots[s], l, Given(l, Handle(w.m, ev).call), t,
                    Tallied(t, ev, w.slots[s]), side)
  {
    CallMirrorsHandler(w.m, ev, l, side);
    if IsRequest(ev) { RequestPendingDelta(w, ev, s, side); } else { ReportPendingDelta(w, ev, s, side); }
    CancellingDelta(w, ev, s, side);
    ValueFollows(w, ev, s, l, t, side);
    SharesFollow(w, ev, s, l, t, side);
  }

  // ---------------------------------------------------------------- one event and every symbol

  /** A sum over all orders of all brokers moves as the touched slot does. */
  lemma TotalMoves(f: Market, b: nat, w': World, s: nat, g: Slot -> int)
    requires b < |f.worlds| && s < |f.worlds[b].slots| && |w'.slots| == |f.worlds[b].slots|
    requires w'.slots == f.worlds[b].slots[s := w'.slots[s]]
    ensures Sum(f.worlds[b := w'], Total(g))
            == Sum(f.worlds, Total(g)) + g(w'.slots[s]) - g(f.worlds[b].slots[s])
  {
    SumUpdate(f.worlds[b].slots, s, w'.slots[s], g);
    SumUpdate(f.worlds, b, w', Total(g));
  }

  /** Other symbols see nothing of it. */
  lemma ElsewhereNothing(w: World, ev: Event, s: nat, y: nat, side: Side)
    requires SlotsOk(w) && Contract(w, ev) && Defined(w.m, ev) && Touched(w, ev) == Some(s)
    requires Next(w, ev).slots[s].order.symbol != y
    ensures var k, k' := w.slots[s], Next(w, ev).slots[s];
            && In(y, Wanted(side))(k) == In(y, Wanted(side))(k') == 0
            && In(y, Withdrawn(side))(k) == In(y, Withdrawn(side))(k') == 0
            && In(y, Worth(side))(k) == In(y, Worth(side))(k') == 0
  {
    OwnSymbol(w, ev, s);
  }

  /** In its own symbol a slot counts in full; a closed one counts nowhere. */
  lemma HereInFull(w: World, ev: Event, s: nat, y: nat, side: Side)
    requires SlotsOk(w) && Contract(w, ev) && Defined(w.m, ev) && Touched(w, ev) == Some(s)
    requires Next(w, ev).slots[s].order.symbol == y
    ensures var k, k' := w.slots[s], Next(w, ev).slots[s];
            && In(y, Wanted(side))(k) == Wanted(side)(k) && In(y, Wanted(side))(k') == Wanted(side)(k')
            && In(y, Withdrawn(side))(k) == Withdrawn(side)(k) && In(y, Withdrawn(side))(k') == Withdrawn(side)(k')
            && In(y, Worth(side))(k) == Worth(side)(k) && In(y, Worth(side))(k') == Worth(side)(k')
  {
    OwnSymbol(w, ev, s);
  }

  /** The ledger and the tally of a symbol after the event. */
  lemma AfterStep(f: Market, b: nat, ev: Event, s: nat, y: nat)
    requires AllSlotsOk(f) && Happens(f, b, ev) && Touched(f.worlds[b], ev) == Some(s) && y < |f.symbols|
    ensures var w, f' := f.worlds[b], Step(f, b, ev);
            var call := Handle(w.m, ev).call;
            && |f'.symbols| == |f'.tallies| == |f.symbols|
            && (if Next(w, ev).slots[s].order.symbol == y then
                  && (call.Some? ==> Divides(f.symbols[y], call.value.1))
                  && f'.symbols[y] == Given(f.symbols[y], call)
                  && f'.tallies[y] == Tallied(f.tallies[y], ev, w.slots[s])
                else f'.symbols[y] == f.symbols[y] && f'.tallies[y] == f.tallies[y])
  {
    OwnSymbol(f.worlds[b], ev, s);
  }

  lemma StepSymbol(f: Market, b: nat, ev: Event, s: nat, y: nat, side: Side)
    requires AllSlotsOk(f) && Happens(f, b, ev) && Touched(f.worlds[b], ev) == Some(s) && y < |f.symbols|
    requires SymbolOk(f, y, side)
    ensures |Step(f, b, ev).symbols| == |Step(f, b, ev).tallies| == |f.symbols| && SymbolOk(Step(f, b, ev), y, side)
  {
    var w := f.worlds[b];
    var w' := Next(w, ev);
    TotalMoves(f, b, w', s, In(y, Wanted(side)));
    TotalMoves(f, b, w', s, In(y, Withdrawn(side)));
    TotalMoves(f, b, w', s, In(y, Worth(side)));
    AfterStep(f, b, ev, s, y);
    if w'.slots[s].order.symbol == y {
      HereInFull(w, ev, s, y, side);
      StepFollows(w, ev, s, f.symbols[y], f.tallies[y], side);
    } else {
      ElsewhereNothing(w, ev, s, y, side);
    }
  }

  ghost predicate Inv(f: Market) {
    && AllSlotsOk(f) && |f.symbols| == |f.tallies|
    && (forall y :: 0 <= y < |f.symbols| ==> SymbolOk(f, y, Buy) && SymbolOk(f, y, Sell))
  }

  lemma UntouchedStep(f: Market, b: nat, ev: Event)
    requires Happens(f, b, ev) && Touched(f.worlds[b], ev).None?
    ensures Step(f, b, ev) == f
  {
    assert f.worlds[b := f.worlds[b]] == f.worlds;
  }

  lemma StepInv(f: Market, b: nat, ev: Event)
    requires Inv(f)
    ensures Inv(Step(f, b, ev)) && |Step(f, b, ev).symbols| == |f.symbols|
  {
    if Happens(f, b, ev) {
      if Touched(f.worlds[b], ev).None? {
        UntouchedStep(f, b, ev);
      } else {
        var f', s := Step(f, b, ev), Touched(f.worlds[b], ev).value;
        StepSlotsOk(f.worlds[b], ev);
        assert |f'.symbols| == |f'.tallies| == |f.symbols|;
        forall y | 0 <= y < |f'.symbols| ensures SymbolOk(f', y, Buy) && SymbolOk(f', y, Sell) {
          StepSymbol(f, b, ev, s, y, Buy);
          StepSymbol(f, b, ev, s, y, Sell);
        }
      }
    }
  }

  // ---------------------------------------------------------------- runs

  lemma NothingIn(w: World, g: Slot -> int)
    requires forall s :: 0 <= s < |w.slots| ==> g(w.slots[s]) == 0
    ensures Total(g)(w) == 0
  {
    SumZero(w.slots, g);
  }

  /** Where no order in the symbol is open, nothing is accounted for. */
  predicate Quiet(f: Market, y: nat) {
    forall b :: 0 <= b < |f.worlds| ==>
      forall s :: 0 <= s < |f.worlds[b].slots| && f.worlds[b].slots[s].order.symbol == y ==> !f.worlds[b].slots[s].open
  }

  lemma QuietIsNothing(f: Market, y: nat, g: Slot -> int)
    requires Quiet(f, y) && forall k: Slot :: !k.open ==> g(k) == 0
    ensures Sum(f.worlds, Total(In(y, g))) == 0
  {
    forall b | 0 <= b < |f.worlds| ensures Total(In(y, g))(f.worlds[b]) == 0 {
      NothingIn(f.worlds[b], In(y, g));
    }
    SumZero(f.worlds, Total(In(y, g)));
  }

  lemma QuietTotals(f: Market, y: nat, side: Side)
    requires Quiet(f, y)
    ensures Sum(f.worlds, Total(In(y, Wanted(side)))) == 0
    ensures Sum(f.worlds, Total(In(y, Withdrawn(side)))) == 0
    ensures Sum(f.worlds, Total(In(y, Worth(side)))) == 0
  {
    QuietIsNothing(f, y, Wanted(side));
    QuietIsNothing(f, y, Withdrawn(side));
    QuietIsNothing(f, y, Worth(side));
  }

  lemma StartInv(brokers: seq<(nat, nat, int)>, symbols: nat)
    ensures Inv(Start(brokers, symbols)) && |Start(brokers, symbols).symbols| == symbols
  {
    var f := Start(brokers, symbols);
    forall b | 0 <= b < |f.worlds| ensures SlotsOk(f.worlds[b]) {
      SumZero(f.worlds[b].slots, IsOpen);
    }
    forall y | 0 <= y < symbols ensures SymbolOk(f, y, Buy) && SymbolOk(f, y, Sell) {
      QuietTotals(f, y, Buy);
      QuietTotals(f, y, Sell);
    }
  }

  lemma {:induction false} EveryRunKeepsInv(brokers: seq<(nat, nat, int)>, symbols: nat, events: seq<(nat, Event)>)
    ensures Inv(Exec(Start(brokers, symbols), events)) && |Exec(Start(brokers, symbols), events).symbols| == symbols
    decreases |events|
  {
    if events == [] {
      StartInv(brokers, symbols);
    } else {
      var n := |events| - 1;
      EveryRunKeepsInv(brokers, symbols, events[..n]);
      StepInv(Exec(Start(brokers, symbols), events[..n]), events[n].0, events[n].1);
    }
  }

  /** Over every run of any brokers under the contract, whatever comes between a request and its
      answer: a symbol's pending shares are what the open orders in it ask for; its pending
      cancellations are what is being withdrawn, and for good all shares filled while a cancellation
      was out; its pending value is what the open orders are worth, and the drift; its own shares are
      those bought less those sold. */
  lemma SymbolTotals(brokers: seq<(nat, nat, int)>, symbols: nat, events: seq<(nat, Event)>, y: nat, side: Side)
    requires y < symbols
    ensures var f := Exec(Start(brokers, symbols), events);
            |f.symbols| == |f.tallies| == symbols && SymbolOk(f, y, side)
  {
    EveryRunKeepsInv(brokers, symbols, events);
  }

  /** Shares are filled, in this symbol and on this side, while the cancellation of their order is out. */
  predicate FillsLate(f: Market, b: nat, ev: Event, y: nat, side: Side) {
    && Happens(f, b, ev) && ev.Fill? && ev.last > 0 && ev.side == side && Touched(f.worlds[b], ev).Some?
    && var k := f.worlds[b].slots[Touched(f.worlds[b], ev).value]; k.out.CancelOut? && k.order.symbol == y
  }

  predicate NeverLate(f: Market, events: seq<(nat, Event)>, y: nat, side: Side) {
    events != [] ==>
      var n := |events| - 1;
      NeverLate(f, events[..n], y, side) && !FillsLate(Exec(f, events[..n]), events[n].0, events[n].1, y, side)
  }

  lemma LateGrows(f: Market, b: nat, ev: Event, y: nat, side: Side)
    requires |f.symbols| == |f.tallies| && y < |f.tallies|
    ensures |Step(f, b, ev).tallies| == |f.tallies|
    ensures var t, t' := f.tallies[y], Step(f, b, ev).tallies[y];
            && t'.late.Of(side) >= t.late.Of(side)
            && (t'.late.Of(side) == t.late.Of(side) <==> !FillsLate(f, b, ev, y, side))
  {
  }

  lemma LateStep(f: Market, b: nat, ev: Event, y: nat, side: Side, never: bool)
    requires |f.symbols| == |f.tallies| && y < |f.tallies| && f.tallies[y].late.Of(side) >= 0
    requires f.tallies[y].late.Of(side) == 0 <==> never
    ensures var f' := Step(f, b, ev);
            && |f'.tallies| == |f.tallies| && f'.tallies[y].late.Of(side) >= 0
            && (f'.tallies[y].late.Of(side) == 0 <==> never && !FillsLate(f, b, ev, y, side))
  {
    LateGrows(f, b, ev, y, side);
  }

  lemma {:induction false} LateIsZeroIffNever(brokers: seq<(nat, nat, int)>, symbols: nat, events: seq<(nat, Event)>,
                                              y: nat, side: Side)
    requires y < symbols
    ensures var f := Exec(Start(brokers, symbols), events);
            && |f.symbols| == |f.tallies| == symbols && f.tallies[y].late.Of(side) >= 0
            && (f.tallies[y].late.Of(side) == 0 <==> NeverLate(Start(brokers, symbols), events, y, side))
    decreases |events|
  {
    EveryRunKeepsInv(brokers, symbols, events);
    if events != [] {
      var n, start := |events| - 1, Start(brokers, symbols);
      LateIsZeroIffNever(brokers, symbols, events[..n], y, side);
      LateStep(Exec(start, events[..n]), events[n].0, events[n].1, y, side, NeverLate(start, events[..n], y, side));
    }
  }

  /** When no order in a symbol is open any more, none of its shares is pending; some are still being
      cancelled exactly if shares were ever filled while a cancellation was out; and the pending value
      is the drift. */
  lemma QuietSymbol(brokers: seq<(nat, nat, int)>, symbols: nat, events: seq<(nat, Event)>, y: nat, side: Side)
    requires y < symbols && Quiet(Exec(Start(brokers, symbols), events), y)
    ensures var f := Exec(Start(brokers, symbols), events);
            && |f.symbols| == |f.tallies| == symbols
            && var l, t := f.symbols[y], f.tallies[y];
               && l.pending.Of(side) == 0 && l.cancelling.Of(side) == t.late.Of(side) >= 0
               && (l.cancelling.Of(side) == 0 <==> NeverLate(Start(brokers, symbols), events, y, side))
               && l.value.Of(side) == t.drift.Of(side) && l.own == t.net
  {
    SymbolTotals(brokers, symbols, events, y, side);
    LateIsZeroIffNever(brokers, symbols, events, y, side);
    QuietTotals(Exec(Start(brokers, symbols), events), y, side);
  }
}
