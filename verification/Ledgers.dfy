/** The ledgers kept beside the orders: one for each symbol, fed by every broker's manager. */
module Ledgers {
  import opened Common
  import opened Orders
  import opened Sums
  import Arith

  datatype Ledger = Ledger(own: int, average: int, pending: BySide, cancelling: BySide, value: BySide)

  const EMPTY := Ledger(0, 0, BySide(0, 0), BySide(0, 0), BySide(0, 0))

  /** A buy that leaves the position flat divides by zero. */
  predicate Divides(l: Ledger, c: Call) {
    c.OnOrderFill? && c.side.Buy? ==> l.own + c.volume != 0
  }

  function On(l: Ledger, c: Call): Ledger
    requires Divides(l, c)
  {
    match c
    case OnSingleOrder(side, p, v) => l.(pending := l.pending.Plus(side, v), value := l.value.Plus(side, v * p))
    case OnSingleOrderReject(side, p, v) =>
      l.(pending := l.pending.Plus(side, -v), value := l.value.Plus(side, -(v * p)))
    case OnOrderFill(side, p, v) =>
      var l' := l.(pending := l.pending.Plus(side, -v), value := l.value.Plus(side, -(v * p)));
      if side.Buy? then l'.(average := TruncDiv(l.average * l.own + v * p, l.own + v), own := l.own + v)
      else l'.(own := l.own - v)
    case OnSingleOrderCancel(side, v) => l.(cancelling := l.cancelling.Plus(side, v))
    case OnCancelOrderReject(side, v) => l.(cancelling := l.cancelling.Plus(side, -v))
    case OnCancelOrderAck(side, p, v) =>
      l.(cancelling := l.cancelling.Plus(side, -v), pending := l.pending.Plus(side, -v),
         value := l.value.Plus(side, -(v * p)))
    case OnSingleOrderEdit(side, p, p', v, v') =>
      l.(pending := l.pending.Plus(side, -v).Plus(side, v'), value := l.value.Plus(side, -(v * p)).Plus(side, v' * p'))
    case OnEditOrderReject(side, p, p', v, v') =>
      l.(pending := l.pending.Plus(side, v).Plus(side, -v'), value := l.value.Plus(side, v * p).Plus(side, -(v' * p')))
  }

  /** A rejection takes back what the ledger took up for a new order. */
  lemma OrderThenReject(l: Ledger, side: Side, p: int, v: int)
    ensures On(On(l, OnSingleOrder(side, p, v)), OnSingleOrderReject(side, p, v)) == l
  {
  }

  lemma CancelThenReject(l: Ledger, side: Side, v: int)
    ensures On(On(l, OnSingleOrderCancel(side, v)), OnCancelOrderReject(side, v)) == l
  {
  }

  lemma EditThenReject(l: Ledger, side: Side, p: int, p': int, v: int, v': int)
    ensures On(On(l, OnSingleOrderEdit(side, p, p', v, v')), OnEditOrderReject(side, p, p', v, v')) == l
  {
  }

  // ---------------------------------------------------------------- all brokers, all symbols

  datatype Firm = Firm(brokers: seq<Manager>, symbols: seq<Ledger>)

  /** The ledger call of a handler finds its symbol and divides by no zero. */
  predicate CallFits(symbols: seq<Ledger>, call: Option<(nat, Call)>) {
    match call
    case None => true
    case Some((symbol, c)) => symbol < |symbols| && Divides(symbols[symbol], c)
  }

  function Called(symbols: seq<Ledger>, call: Option<(nat, Call)>): seq<Ledger>
    requires CallFits(symbols, call)
  {
    match call
    case None => symbols
    case Some((symbol, c)) => symbols[symbol := On(symbols[symbol], c)]
  }

  /** The event reaches an existing broker, its handler is defined and so is its ledger call. */
  predicate Happens(f: Firm, b: nat, ev: Event) {
    && b < |f.brokers| && Shape(f.brokers[b]) && Defined(f.brokers[b], ev)
    && CallFits(f.symbols, Handle(f.brokers[b], ev).call)
  }

  function Step(f: Firm, b: nat, ev: Event): Firm {
    if !Happens(f, b, ev) then f
    else
      var out := Handle(f.brokers[b], ev);
      Firm(f.brokers[b := out.m], Called(f.symbols, out.call))
  }

  function Exec(f: Firm, events: seq<(nat, Event)>): Firm {
    if events == [] then f
    else Step(Exec(f, events[..|events| - 1]), events[|events| - 1].0, events[|events| - 1].1)
  }

  function BrokerPending(side: Side): Manager -> int { (m: Manager) => m.pending.Of(side) }
  function SymbolPending(side: Side): Ledger -> int { (l: Ledger) => l.pending.Of(side) }
  function BrokerCancelling(side: Side): Manager -> int { (m: Manager) => m.cancelling.Of(side) }
  function SymbolCancelling(side: Side): Ledger -> int { (l: Ledger) => l.cancelling.Of(side) }
  function BrokerOwn(m: Manager): int { m.own }
  function SymbolOwn(l: Ledger): int { l.own }

  ghost predicate Agree(f: Firm, side: Side) {
    && Sum(f.brokers, BrokerPending(side)) == Sum(f.symbols, SymbolPending(side))
    && Sum(f.brokers, BrokerCancelling(side)) == Sum(f.symbols, SymbolCancelling(side))
    && Sum(f.brokers, BrokerOwn) == Sum(f.symbols, SymbolOwn)
  }

  /** What a handler adds to its broker's totals, its call adds to the symbol's. */
  lemma CallMirrorsHandler(m: Manager, ev: Event, l: Ledger, side: Side)
    requires Shape(m) && Defined(m, ev)
    ensures var out := Handle(m, ev);
            match out.call
            case None =>
              out.m.pending == m.pending && out.m.cancelling == m.cancelling && out.m.own == m.own
            case Some((_, c)) => Divides(l, c) ==>
              var l' := On(l, c);
              && out.m.pending.Of(side) - m.pending.Of(side) == l'.pending.Of(side) - l.pending.Of(side)
              && out.m.cancelling.Of(side) - m.cancelling.Of(side) == l'.cancelling.Of(side) - l.cancelling.Of(side)
              && out.m.own - m.own == l'.own - l.own
  {
  }

  /** The manager's totals move as the sums over the symbols do. */
  ghost predicate MovesAlike(m: Manager, m': Manager, ls: seq<Ledger>, ls': seq<Ledger>, side: Side) {
    && m'.pending.Of(side) - m.pending.Of(side) == Sum(ls', SymbolPending(side)) - Sum(ls, SymbolPending(side))
    && m'.cancelling.Of(side) - m.cancelling.Of(side)
       == Sum(ls', SymbolCancelling(side)) - Sum(ls, SymbolCancelling(side))
    && m'.own - m.own == Sum(ls', SymbolOwn) - Sum(ls, SymbolOwn)
  }

  lemma CallMovesAlike(m: Manager, ev: Event, ls: seq<Ledger>, side: Side)
    requires Shape(m) && Defined(m, ev) && CallFits(ls, Handle(m, ev).call)
    ensures MovesAlike(m, Handle(m, ev).m, ls, Called(ls, Handle(m, ev).call), side)
  {
    match Handle(m, ev).call
    case None =>
      CallMirrorsHandler(m, ev, EMPTY, side);
    case Some((symbol, c)) =>
      var l' := On(ls[symbol], c);
      CallMirrorsHandler(m, ev, ls[symbol], side);
      SumUpdate(ls, symbol, l', SymbolPending(side));
      SumUpdate(ls, symbol, l', SymbolCancelling(side));
      SumUpdate(ls, symbol, l', SymbolOwn);
  }

  lemma StepAgrees(f: Firm, b: nat, ev: Event, side: Side)
    requires Agree(f, side)
    ensures Agree(Step(f, b, ev), side)
  {
    if Happens(f, b, ev) {
      var out := Handle(f.brokers[b], ev);
      SumUpdate(f.brokers, b, out.m, BrokerPending(side));
      SumUpdate(f.brokers, b, out.m, BrokerCancelling(side));
      SumUpdate(f.brokers, b, out.m, BrokerOwn);
      CallMovesAlike(f.brokers[b], ev, f.symbols, side);
    }
  }

  function Start(brokers: seq<(nat, nat, int)>, symbols: nat): Firm {
    Firm(seq(|brokers|, i requires 0 <= i < |brokers| => Init(brokers[i].0, brokers[i].1, brokers[i].2)),
         seq(symbols, _ => EMPTY))
  }

  /** For any number of brokers and symbols and any events whatever, the totals summed over the
      brokers are those summed over the symbols. */
  lemma {:induction false} LedgersAgree(brokers: seq<(nat, nat, int)>, symbols: nat, events: seq<(nat, Event)>,
                                        side: Side)
    ensures Agree(Exec(Start(brokers, symbols), events), side)
    decreases |events|
  {
    var f := Start(brokers, symbols);
    if events == [] {
      SumZero(f.brokers, BrokerPending(side));
      SumZero(f.brokers, BrokerCancelling(side));
      SumZero(f.brokers, BrokerOwn);
      SumZero(f.symbols, SymbolPending(side));
      SumZero(f.symbols, SymbolCancelling(side));
      SumZero(f.symbols, SymbolOwn);
    } else {
      var n := |events| - 1;
      LedgersAgree(brokers, symbols, events[..n], side);
      StepAgrees(Exec(f, events[..n]), events[n].0, events[n].1, side);
    }
  }

  // ---------------------------------------------------------------- the average buy price

  /** A ledger, with what its shares cost: a sale takes its shares at the average price.  `buys` counts
      the buys so far, `peak` is the largest holding. */
  datatype Account = Account(ledger: Ledger, cost: int, buys: nat, peak: int)

  /** A fill is of some shares, and sells no more than are held. */
  predicate Tradable(l: Ledger, c: Call) {
    c.OnOrderFill? ==> c.volume > 0 && (if c.side.Buy? then l.own + c.volume != 0 else c.volume <= l.own)
  }

  /** One call on the ledger; what is not tradable does not happen. */
  function Traded(a: Account, c: Call): Account {
    var l := a.ledger;
    if !Tradable(l, c) then a
    else if !c.OnOrderFill? then a.(ledger := On(l, c))
    else if c.side.Sell? then a.(ledger := On(l, c), cost := a.cost - c.volume * l.average)
    else
      Account(On(l, c), a.cost + c.volume * c.price, a.buys + 1,
              if l.own + c.volume > a.peak then l.own + c.volume else a.peak)
  }

  function Trades(calls: seq<Call>): Account {
    if calls == [] then Account(EMPTY, 0, 0, 0) else Traded(Trades(calls[..|calls| - 1]), calls[|calls| - 1])
  }

  lemma DivBetween(n: int, d: int, low: int, high: int)
    requires d > 0 && low * d <= n <= high * d
    ensures low <= n / d <= high
  {
    assert n == d * (n / d) + n % d;
    if n / d < low {
      Arith.MulMonotone(n / d + 1, low, d);
    } else if n / d > high {
      Arith.MulMonotone(high + 1, n / d, d);
    }
  }

  lemma WeightedMean(average: int, own: int, volume: int, price: int, low: int, high: int)
    requires own >= 0 && volume > 0 && 0 <= low <= price <= high && (own > 0 ==> low <= average <= high) && average >= 0
    ensures low <= TruncDiv(average * own + volume * price, own + volume) <= high
  {
    var n, d := average * own + volume * price, own + volume;
    if own > 0 {
      Arith.MulMonotone(low, average, own);
      Arith.MulMonotone(average, high, own);
    }
    Arith.MulMonotone(low, price, volume);
    Arith.MulMonotone(price, high, volume);
    Arith.MulMonotone(0, low, d);
    assert low * d == low * own + low * volume && high * d == high * own + high * volume;
    DivBetween(n, d, low, high);
  }

  /** One more buy adds a rounding loss below the shares then held. */
  lemma LossStep(cost: int, own: int, average: int, volume: int, price: int)
    requires own >= 0 && volume > 0 && price >= 0 && average >= 0
    ensures var a := TruncDiv(average * own + volume * price, own + volume);
            var (loss, loss') := (cost - own * average, cost + volume * price - (own + volume) * a);
            loss <= loss' < loss + own + volume
  {
    var t, d := average * own + volume * price, own + volume;
    Arith.MulMonotone(0, average, own);
    Arith.MulMonotone(0, price, volume);
    assert t >= 0 && t == d * (t / d) + t % d;
  }

  predicate LossBound(loss: int, buys: nat, peak: int) {
    0 <= loss && (if buys == 0 then loss == 0 else loss < buys * peak)
  }

  /** The shares held cost no less than their average says, and more by less than the largest holding
      for each buy; and the average lies between the extreme prices paid. */
  predicate Close(a: Account, low: int, high: int) {
    var l := a.ledger;
    var loss := a.cost - l.own * l.average;
    && 0 <= l.own <= a.peak && 0 <= l.average
    && LossBound(loss, a.buys, a.peak) && (l.own > 0 ==> low <= l.average <= high)
  }

  lemma OneMoreLoss(loss: int, loss': int, buys: nat, peak: int, peak': int)
    requires LossBound(loss, buys, peak) && 0 <= peak <= peak' && loss <= loss' < loss + peak'
    ensures LossBound(loss', buys + 1, peak')
  {
    Arith.MulMonotone(peak, peak', buys);
    assert (buys + 1) * peak' == buys * peak' + peak';
  }

  lemma CloseAfterBuy(a: Account, c: Call, low: int, high: int)
    requires Close(a, low, high) && Tradable(a.ledger, c) && c.OnOrderFill? && c.side.Buy?
    requires 0 <= low <= c.price <= high
    ensures Close(Traded(a, c), low, high)
  {
    var l, a' := a.ledger, Traded(a, c);
    LossStep(a.cost, l.own, l.average, c.volume, c.price);
    WeightedMean(l.average, l.own, c.volume, c.price, low, high);
    OneMoreLoss(a.cost - l.own * l.average, a'.cost - a'.ledger.own * a'.ledger.average, a.buys, a.peak, a'.peak);
  }

  /** A sale leaves the average, so what its shares cost less goes down as they do. */
  lemma CloseAfterSale(a: Account, c: Call, low: int, high: int)
    requires Close(a, low, high) && Tradable(a.ledger, c) && c.OnOrderFill? && c.side.Sell?
    ensures Close(Traded(a, c), low, high) && Traded(a, c).ledger.average == a.ledger.average
  {
    var l := a.ledger;
    assert (l.own - c.volume) * l.average == l.own * l.average - c.volume * l.average;
  }

  predicate BuysBetween(calls: seq<Call>, low: int, high: int) {
    forall i :: 0 <= i < |calls| && calls[i].OnOrderFill? && calls[i].side.Buy? ==> low <= calls[i].price <= high
  }

  /** Any calls on a new ledger: buys and sales in any order, and all else between them. */
  lemma {:induction false} AverageIsClose(calls: seq<Call>, low: int, high: int)
    requires BuysBetween(calls, low, high) && low >= 0
    ensures Close(Trades(calls), low, high)
    decreases |calls|
  {
    if calls != [] {
      var n := |calls| - 1;
      var a, c := Trades(calls[..n]), calls[n];
      AverageIsClose(calls[..n], low, high);
      if Tradable(a.ledger, c) && c.OnOrderFill? {
        if c.side.Buy? { CloseAfterBuy(a, c, low, high); } else { CloseAfterSale(a, c, low, high); }
      }
    }
  }
}
