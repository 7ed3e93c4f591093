/** The sliding price ladder of one side of a book, in whole ticks: what an update, a clearing
    and a copy do to the window of volumes and to the cached best price.

    `scale` is what one integer unit counts in mixed Decimal arithmetic (10^4 in the code);
    where it is not 1 the window is not where the offsets look for it (FirstUpdateReadsBack), and
    no ladder of several levels is right from its first price on (LadderRuns.WrongUnitFailsAtOnce). */
module Ladder {
  import opened Common
  import Arith

  datatype Side = Bid | Ask
  datatype Status = Successful | OutOfRange

  /** `cells[j]` is the volume at tick `start + j`. */
  datatype Book = Book(size: nat, start: Option<int>, cells: seq<nat>, best: Option<int>, bestVolume: int)

  const NO_VOLUME: int := -1

  function Zeros(n: nat): (s: seq<nat>)
    ensures |s| == n && forall i :: 0 <= i < n ==> s[i] == 0
  {
    seq(n, _ => 0)
  }

  predicate Empty(s: seq<nat>) { forall i :: 0 <= i < |s| ==> s[i] == 0 }
  predicate Occupied(s: seq<nat>) { forall i :: 0 <= i < |s| ==> s[i] > 0 }

  function New(size: nat): Book { Book(size, None, Zeros(size), None, NO_VOLUME) }

  predicate Shape(b: Book) { |b.cells| == b.size > 0 }

  /** The highest occupied cell from `j` down, the lowest from `j` up. */
  function Down(cells: seq<nat>, j: int): (r: Option<nat>)
    requires j < |cells|
    ensures r.Some? ==> r.value <= j && cells[r.value] > 0
    decreases j + 1
  {
    if j < 0 then None else if cells[j] > 0 then Some(j) else Down(cells, j - 1)
  }

  function Up(cells: seq<nat>, j: nat): (r: Option<nat>)
    requires j <= |cells|
    ensures r.Some? ==> j <= r.value < |cells| && cells[r.value] > 0
    decreases |cells| - j
  {
    if j == |cells| then None else if cells[j] > 0 then Some(j) else Up(cells, j + 1)
  }

  // ---------------------------------------------------------------- the slides

  /** Bids slide up over their lowest levels; past a whole window the ladder is re-centred. */
  function BidSlideUp(b: Book, start: int, t: int, v: nat, scale: nat): Book
    requires Shape(b) && t - start >= b.size
  {
    var k := t - start - b.size + 1;
    if k < b.size then
      b.(start := Some(start + k * scale), cells := (b.cells[k..] + Zeros(k))[b.size - 1 := v])
    else
      b.(start := Some(t - b.size / 2 * scale), cells := Zeros(b.size)[b.size / 2 := v], best := None,
         bestVolume := NO_VOLUME)
  }

  /** The bid ladder turned so that its top levels become its lowest ones. */
  function BidTurned(b: Book, start: int, t: int, v: nat, scale: nat): (b': Book)
    requires Shape(b) && t < start
    ensures Shape(b') && b'.start.Some?
  {
    var k := Min(start - t, b.size);
    if k < b.size then
      b.(start := Some(start - k * scale), cells := (b.cells[b.size - k..] + b.cells[..b.size - k])[0 := v])
    else
      b.(start := Some(t - b.size / 2 * scale), cells := b.cells[b.size / 2 := v])
  }

  /** Bids slide down only over occupied top levels: the test is the reverse of the asks'. */
  function BidSlideDown(b: Book, start: int, t: int, v: nat, scale: nat): Option<Book>
    requires Shape(b) && t < start
  {
    var k := Min(start - t, b.size);
    if !Occupied(b.cells[b.size - k..]) then None else Some(BidTurned(b, start, t, v, scale))
  }

  /** Asks slide down over their highest levels. */
  function AskSlideDown(b: Book, start: int, t: int, v: nat, scale: nat): Book
    requires Shape(b) && t < start
  {
    var k := start - t;
    if k < b.size then
      b.(start := Some(start - k * scale), cells := (Zeros(k) + b.cells[..b.size - k])[0 := v])
    else
      b.(start := Some(t - b.size / 2 * scale), cells := Zeros(b.size)[b.size / 2 := v], best := None,
         bestVolume := NO_VOLUME)
  }

  /** Asks slide up only over empty low levels. */
  function AskSlideUp(b: Book, start: int, t: int, v: nat, scale: nat): Option<Book>
    requires Shape(b) && t - start >= b.size
  {
    var k := Min(t - start - b.size + 1, b.size);
    if !Empty(b.cells[..k]) then None
    else if k < b.size then
      Some(b.(start := Some(start + k * scale), cells := (b.cells[k..] + b.cells[..k])[b.size - 1 := v]))
    else
      Some(b.(start := Some(t - b.size / 2 * scale), cells := b.cells[b.size / 2 := v]))
  }

  // ---------------------------------------------------------------- the best price

  /** Where the rescan for the best starts: the cell the deleted price's offset falls on. */
  function ScanFrom(b: Book, t: int): (j: nat)
    requires Shape(b) && b.start.Some?
    ensures j < b.size
  {
    (t - b.start.value) % b.size
  }

  /** The rescan stops on reaching the far edge's index, so from that edge it sees nothing. */
  function BidRescan(b: Book, t: int, scale: nat): Book
    requires Shape(b) && b.start.Some?
  {
    var j := ScanFrom(b, t);
    var r := if j == b.size - 1 then None else Down(b.cells, j);
    match r
    case None => b.(best := None, bestVolume := 0)
    case Some(i) => b.(best := Some(b.start.value + i * scale), bestVolume := b.cells[i])
  }

  function AskRescan(b: Book, t: int, scale: nat): Book
    requires Shape(b) && b.start.Some?
  {
    var j := ScanFrom(b, t);
    var r := if j == 0 then None else Up(b.cells, j);
    match r
    case None => b.(best := None, bestVolume := NO_VOLUME)
    case Some(i) => b.(best := Some(b.start.value + i * scale), bestVolume := b.cells[i])
  }

  predicate Beats(side: Side, t: int, best: Option<int>) {
    best.None? || (if side.Bid? then best.value <= t else best.value >= t)
  }

  /** The best is set anew. */
  predicate Takes(side: Side, b: Book, t: int, v: nat) {
    if v > 0 then Beats(side, t, b.best) else b.best == Some(t)
  }

  function TakeBest(side: Side, b: Book, t: int, v: nat, scale: nat): Book
    requires Shape(b) && b.start.Some?
  {
    if v > 0 then (if Beats(side, t, b.best) then b.(best := Some(t), bestVolume := v) else b)
    else if b.best == Some(t) then (if side.Bid? then BidRescan(b, t, scale) else AskRescan(b, t, scale))
    else b
  }

  /** The window's first tick, which the first price of all puts in the middle. */
  function StartFor(b: Book, t: int, scale: nat): int {
    if b.start.Some? then b.start.value else t - b.size / 2 * scale
  }

  /** The ladder with the volume in place, or none if the price is out of range. */
  function Place(side: Side, b: Book, t: int, v: nat, scale: nat): (r: Option<Book>)
    requires Shape(b)
    ensures r.Some? ==> Shape(r.value) && r.value.size == b.size && r.value.start.Some?
  {
    var start := StartFor(b, t, scale);
    var d := t - start;
    if 0 <= d < b.size then Some(b.(start := Some(start), cells := b.cells[d := v]))
    else if d < 0 then
      if side.Bid? then BidSlideDown(b, start, t, v, scale) else Some(AskSlideDown(b, start, t, v, scale))
    else
      if side.Bid? then Some(BidSlideUp(b, start, t, v, scale)) else AskSlideUp(b, start, t, v, scale)
  }

  function Update(side: Side, b: Book, t: int, v: nat, scale: nat): (r: (Book, Status))
    requires Shape(b)
    ensures Shape(r.0) && r.0.size == b.size
  {
    match Place(side, b, t, v, scale)
    case None => (b.(start := Some(StartFor(b, t, scale))), OutOfRange)
    case Some(b') => (TakeBest(side, b', t, v, scale), Successful)
  }

  /** The test before bids slide down: as the code has it, or as it has it for the asks. */
  datatype Test = AsWritten | AsForAsks

  function Apply(test: Test, side: Side, b: Book, t: int, v: nat, scale: nat): (r: (Book, Status))
    requires Shape(b)
    ensures Shape(r.0) && r.0.size == b.size
  {
    var start := StartFor(b, t, scale);
    if test.AsWritten? || side.Ask? || t >= start then Update(side, b, t, v, scale)
    else if Empty(b.cells[b.size - Min(start - t, b.size)..]) then
      (TakeBest(Bid, BidTurned(b, start, t, v, scale), t, v, scale), Successful)
    else (b.(start := Some(start)), OutOfRange)
  }

  /** Whether the update reports a change of the top. */
  predicate Reports(side: Side, b: Book, t: int, v: nat, scale: nat)
    requires Shape(b)
  {
    match Place(side, b, t, v, scale)
    case None => false
    case Some(b') => Takes(side, b', t, v)
  }

  /** `clear` assigns the best price to locals of the same names. */
  function Clear(b: Book): Book { b.(start := None, cells := Zeros(b.size)) }

  // ---------------------------------------------------------------- what a ladder should be

  predicate InWindow(b: Book, t: int) {
    b.start.Some? && b.start.value <= t < b.start.value + b.size
  }

  /** The volume the ladder holds for a tick. */
  function Volume(b: Book, t: int): nat
    requires Shape(b)
  {
    if InWindow(b, t) then b.cells[t - b.start.value] else 0
  }

  /** Cell `i` is occupied and no cell on its better side is. */
  ghost predicate IsTop(side: Side, cells: seq<nat>, i: int) {
    && 0 <= i < |cells| && cells[i] > 0
    && forall k :: 0 <= k < |cells| && (if side.Bid? then k > i else k < i) ==> cells[k] == 0
  }

  /** The cached best is the best occupied level, with its volume; none when all are empty. */
  ghost predicate Good(side: Side, b: Book) {
    && Shape(b)
    && match b.best
       case None => Empty(b.cells)
       case Some(p) =>
         b.start.Some? && IsTop(side, b.cells, p - b.start.value) && b.bestVolume == b.cells[p - b.start.value]
  }

  /** When an update keeps the best right, in terms a caller can check before it: the best is
      not deleted from the window's edge with other levels left, a bid below the window is
      refused (or met by the asks' test), and a zero volume outside the window does not push the
      best out. */
  ghost predicate Safe(test: Test, side: Side, b: Book, t: int, v: nat)
    requires Shape(b)
  {
    var start := StartFor(b, t, 1);
    var d := t - start;
    if 0 <= d < b.size then
      v > 0 || b.best != Some(t) || d != (if side.Bid? then b.size - 1 else 0) || Empty(b.cells[d := 0])
    else if side.Bid? then
      if d < 0 then test.AsForAsks? || !Occupied(b.cells[b.size - Min(-d, b.size)..])
      else v > 0 || b.best.None? || d - b.size + 1 >= b.size || b.best.value > start + d - b.size
    else
      d >= b.size || v > 0 || b.best.None? || -d >= b.size || b.best.value < start + d + b.size
  }

  /** A new ladder is right: no window, no volume, no best, and -1 for its volume. */
  lemma NewIsEmpty(side: Side, size: nat, t: int)
    requires size > 0
    ensures Good(side, New(size)) && New(size).start == None && Volume(New(size), t) == 0
    ensures New(size).best == None && New(size).bestVolume == -1
  {
  }

  lemma {:induction false} DownIsHighest(cells: seq<nat>, j: int)
    requires -1 <= j < |cells|
    ensures var r := Down(cells, j);
            forall k :: (if r.Some? then r.value else -1) < k <= j ==> cells[k] == 0
    decreases j + 1
  {
    if j >= 0 && cells[j] == 0 { DownIsHighest(cells, j - 1); }
  }

  lemma {:induction false} UpIsLowest(cells: seq<nat>, j: nat)
    requires j <= |cells|
    ensures var r := Up(cells, j);
            forall k :: j <= k < (if r.Some? then r.value else |cells|) ==> cells[k] == 0
    decreases |cells| - j
  {
    if j < |cells| && cells[j] == 0 { UpIsLowest(cells, j + 1); }
  }

  /** The rescan finds the new best, unless the deleted one sat on the edge it stops at. */
  lemma Rescan(side: Side, b: Book, t: int)
    requires Shape(b) && InWindow(b, t) && b.cells[t - b.start.value] == 0
    requires forall k :: 0 <= k < b.size && (if side.Bid? then k > t - b.start.value else k < t - b.start.value) ==>
               b.cells[k] == 0
    ensures ScanFrom(b, t) == t - b.start.value
    ensures Good(side, if side.Bid? then BidRescan(b, t, 1) else AskRescan(b, t, 1)) <==>
            t - b.start.value != (if side.Bid? then b.size - 1 else 0) || Empty(b.cells)
  {
    var j := t - b.start.value;
    Arith.DivModUnique(j, b.size, 0, j);
    if side.Bid? {
      DownIsHighest(b.cells, j);
    } else {
      UpIsLowest(b.cells, j);
    }
  }

  lemma PutInWindow(side: Side, b: Book, t: int, v: nat)
    requires Good(side, b) && b.start.Some? && InWindow(b, t) && (v > 0 || b.best != Some(t))
    ensures Good(side, TakeBest(side, b.(cells := b.cells[t - b.start.value := v]), t, v, 1))
  {
  }

  lemma PlacedInWindow(side: Side, b: Book, t: int, v: nat, start: int)
    requires Shape(b) && start == StartFor(b, t, 1) && 0 <= t - start < b.size
    ensures Update(side, b, t, v, 1).0
            == TakeBest(side, b.(start := Some(start), cells := b.cells[t - start := v]), t, v, 1)
  {
  }

  lemma DeletedInWindow(side: Side, b: Book, t: int)
    requires Good(side, b) && b.start.Some? && InWindow(b, t) && b.best == Some(t)
    ensures Good(side, TakeBest(side, b.(cells := b.cells[t - b.start.value := 0]), t, 0, 1))
            <==> Safe(AsWritten, side, b, t, 0)
  {
    Rescan(side, b.(cells := b.cells[t - b.start.value := 0]), t);
  }

  lemma KeptInWindow(side: Side, b: Book, t: int, v: nat, start: int)
    requires Good(side, b) && start == StartFor(b, t, 1) && 0 <= t - start < b.size && (v > 0 || b.best != Some(t))
    ensures Good(side, TakeBest(side, b.(start := Some(start), cells := b.cells[t - start := v]), t, v, 1))
    ensures Safe(AsWritten, side, b, t, v)
  {
    PutInWindow(side, b.(start := Some(start)), t, v);
  }

  lemma UpdateInWindow(side: Side, b: Book, t: int, v: nat)
    requires Good(side, b) && 0 <= t - StartFor(b, t, 1) < b.size
    ensures Good(side, Update(side, b, t, v, 1).0) <==> Safe(AsWritten, side, b, t, v)
  {
    var start := StartFor(b, t, 1);
    PlacedInWindow(side, b, t, v, start);
    if v > 0 || b.best != Some(t) {
      KeptInWindow(side, b, t, v, start);
    } else {
      DeletedInWindow(side, b, t);
    }
  }

  /** Above its window a bid ladder slides up, and stays right unless that drops the best. */
  lemma BidAbove(b: Book, t: int, v: nat)
    requires Good(Bid, b) && b.start.Some? && t >= b.start.value + b.size
    ensures Good(Bid, Update(Bid, b, t, v, 1).0) <==> Safe(AsWritten, Bid, b, t, v)
  {
    var start := b.start.value;
    var k := t - start - b.size + 1;
    var b' := BidSlideUp(b, start, t, v, 1);
    if k < b.size {
      assert forall i :: 0 <= i < b.size - k ==> b'.cells[i] == b.cells[i + k];
      if v == 0 && b.best.Some? && b.best.value > start + k - 1 {
        assert IsTop(Bid, b'.cells, b.best.value - (start + k));
      }
    }
  }

  /** What is turned over occupied top levels ends below the old best. */
  lemma BidPlacedBelow(b: Book, k: int, t: int, v: nat)
    requires Shape(b) && b.start.Some? && t < b.start.value && k == Min(b.start.value - t, b.size)
    ensures var b' := Update(Bid, b, t, v, 1).0;
            if !Occupied(b.cells[b.size - k..]) then b' == b
            else
              var turned := BidTurned(b, b.start.value, t, v, 1);
              b' == TakeBest(Bid, turned, t, v, 1) && turned.best == b.best
              && turned.start.value + b.size <= b.start.value + b.size - 1
  {
  }

  lemma TopIsBest(b: Book, k: int)
    requires Good(Bid, b) && b.start.Some? && 0 < k <= b.size && Occupied(b.cells[b.size - k..])
    ensures b.best == Some(b.start.value + b.size - 1)
  {
    assert b.cells[b.size - 1] == b.cells[b.size - k..][k - 1];
  }

  /** A best outside the window is not right. */
  lemma BestOutside(b: Book, t: int, v: nat)
    requires Shape(b) && b.start.Some? && b.best.Some? && b.best.value >= b.start.value + b.size && t < b.best.value
    ensures !Good(Bid, TakeBest(Bid, b, t, v, 1))
  {
  }

  /** A bid ladder that does slide down has pushed its best out of the window. */
  lemma BidBelow(b: Book, t: int, v: nat)
    requires Good(Bid, b) && b.start.Some? && t < b.start.value
    ensures Good(Bid, Update(Bid, b, t, v, 1).0) <==> Safe(AsWritten, Bid, b, t, v)
  {
    var k := Min(b.start.value - t, b.size);
    BidPlacedBelow(b, k, t, v);
    if Occupied(b.cells[b.size - k..]) {
      TopIsBest(b, k);
      BestOutside(BidTurned(b, b.start.value, t, v, 1), t, v);
    }
  }

  /** Bids that slide down by less than a window, over empty levels, keep their best. */
  lemma BidMoved(b: Book, k: int, t: int, v: nat)
    requires Good(Bid, b) && b.start.Some? && 0 < k < b.size && t == b.start.value - k && Empty(b.cells[b.size - k..])
    ensures var cells := (b.cells[b.size - k..] + b.cells[..b.size - k])[0 := v];
            Good(Bid, TakeBest(Bid, b.(start := Some(b.start.value - k), cells := cells), t, v, 1))
  {
    var cells := (b.cells[b.size - k..] + b.cells[..b.size - k])[0 := v];
    assert forall i :: b.size - k <= i < b.size ==> b.cells[i] == b.cells[b.size - k..][i - (b.size - k)];
    assert forall i :: 0 < i < b.size ==> cells[i] == (if i < k then 0 else b.cells[i - k]);
    if b.best.Some? {
      assert IsTop(Bid, cells, b.best.value - (b.start.value - k));
    }
  }

  lemma BidTurnedOverEmpty(b: Book, t: int, v: nat)
    requires Good(Bid, b) && b.start.Some? && t < b.start.value
    requires Empty(b.cells[b.size - Min(b.start.value - t, b.size)..])
    ensures Good(Bid, TakeBest(Bid, BidTurned(b, b.start.value, t, v, 1), t, v, 1))
  {
    var k := Min(b.start.value - t, b.size);
    if k < b.size {
      BidMoved(b, k, t, v);
    } else {
      assert b.cells[b.size - k..] == b.cells;
    }
  }

  /** The slide itself would be right exactly over empty top levels, as the asks' test has it. */
  lemma BidTurnedIsRightIffTopIsEmpty(b: Book, t: int, v: nat)
    requires Good(Bid, b) && b.start.Some? && t < b.start.value
    ensures Good(Bid, TakeBest(Bid, BidTurned(b, b.start.value, t, v, 1), t, v, 1))
            <==> Empty(b.cells[b.size - Min(b.start.value - t, b.size)..])
  {
    var start := b.start.value;
    var k := Min(start - t, b.size);
    var top, b' := b.cells[b.size - k..], BidTurned(b, start, t, v, 1);
    if Empty(top) {
      BidTurnedOverEmpty(b, t, v);
    } else {
      var i :| 0 <= i < k && top[i] != 0;
      assert b.cells[b.size - k + i] > 0;
      assert b.best.value >= start + b.size - k;
      assert b'.start.value + b.size <= b.best.value && TakeBest(Bid, b', t, v, 1) == b';
    }
  }

  lemma AskBelow(b: Book, t: int, v: nat)
    requires Good(Ask, b) && b.start.Some? && t < b.start.value
    ensures Good(Ask, Update(Ask, b, t, v, 1).0) <==> Safe(AsWritten, Ask, b, t, v)
  {
    var start := b.start.value;
    var k := start - t;
    var b' := AskSlideDown(b, start, t, v, 1);
    if k < b.size {
      assert forall i :: k <= i < b.size && i > 0 ==> b'.cells[i] == b.cells[i - k];
      if v == 0 && b.best.Some? && b.best.value < start - k + b.size {
        assert IsTop(Ask, b'.cells, b.best.value - (start - k));
      }
    }
  }

  /** Asks that slide up by less than a window, over empty levels, keep their best. */
  lemma AskMoved(b: Book, k: int, t: int, v: nat)
    requires Good(Ask, b) && b.start.Some? && 0 < k < b.size && t == b.start.value + k + b.size - 1
    requires Empty(b.cells[..k])
    ensures var cells := (b.cells[k..] + b.cells[..k])[b.size - 1 := v];
            Good(Ask, TakeBest(Ask, b.(start := Some(b.start.value + k), cells := cells), t, v, 1))
  {
    var cells := (b.cells[k..] + b.cells[..k])[b.size - 1 := v];
    assert forall i :: 0 <= i < k ==> b.cells[i] == b.cells[..k][i];
    assert forall i :: 0 <= i < b.size - 1 ==> cells[i] == (if i < b.size - k then b.cells[i + k] else 0);
    if b.best.Some? {
      assert IsTop(Ask, cells, b.best.value - (b.start.value + k));
    }
  }

  /** A whole window further asks start over, and have nothing to lose. */
  lemma AskMovedFar(b: Book, t: int, v: nat, start: int)
    requires Good(Ask, b) && Empty(b.cells) && start == t - b.size / 2
    ensures Good(Ask, TakeBest(Ask, b.(start := Some(start), cells := b.cells[b.size / 2 := v]), t, v, 1))
  {
  }

  lemma AskPlacedAbove(b: Book, k: int, t: int, v: nat)
    requires Shape(b) && b.start.Some? && t >= b.start.value + b.size
    requires k == Min(t - b.start.value - b.size + 1, b.size)
    ensures var b' := Update(Ask, b, t, v, 1).0;
            if !Empty(b.cells[..k]) then b' == b
            else if k < b.size then
              var cells := (b.cells[k..] + b.cells[..k])[b.size - 1 := v];
              b' == TakeBest(Ask, b.(start := Some(b.start.value + k), cells := cells), t, v, 1)
            else
              b' == TakeBest(Ask, b.(start := Some(t - b.size / 2), cells := b.cells[b.size / 2 := v]), t, v, 1)
  {
  }

  /** Asks slide up only over empty levels, so they always stay right. */
  lemma AskAbove(b: Book, t: int, v: nat)
    requires Good(Ask, b) && b.start.Some? && t >= b.start.value + b.size
    ensures Good(Ask, Update(Ask, b, t, v, 1).0)
  {
    var k := Min(t - b.start.value - b.size + 1, b.size);
    AskPlacedAbove(b, k, t, v);
    if Empty(b.cells[..k]) {
      if k < b.size {
        AskMoved(b, k, t, v);
      } else {
        assert b.cells[..k] == b.cells;
        AskMovedFar(b, t, v, t - b.size / 2);
      }
    }
  }

  /** Window and offsets count in one unit, or there is only one level. */
  predicate OneUnit(size: nat, scale: nat) { scale == 1 || size == 1 }

  lemma OneLevelSlides(b: Book, start: int, t: int, v: nat, scale: nat)
    requires Shape(b) && b.size == 1
    ensures StartFor(b, t, scale) == StartFor(b, t, 1)
    ensures t >= start + 1 ==> BidSlideUp(b, start, t, v, scale) == BidSlideUp(b, start, t, v, 1)
    ensures t < start ==> BidTurned(b, start, t, v, scale) == BidTurned(b, start, t, v, 1)
    ensures t < start ==> AskSlideDown(b, start, t, v, scale) == AskSlideDown(b, start, t, v, 1)
    ensures t >= start + 1 ==> AskSlideUp(b, start, t, v, scale) == AskSlideUp(b, start, t, v, 1)
  {
    assert b.size / 2 * scale == 0;
  }

  lemma OneLevelRescans(side: Side, b: Book, t: int, v: nat, scale: nat)
    requires Shape(b) && b.size == 1 && b.start.Some?
    ensures TakeBest(side, b, t, v, scale) == TakeBest(side, b, t, v, 1)
  {
  }

  lemma UnitDoesNotMatter(test: Test, side: Side, b: Book, t: int, v: nat, scale: nat)
    requires Shape(b) && OneUnit(b.size, scale)
    ensures Apply(test, side, b, t, v, scale) == Apply(test, side, b, t, v, 1)
  {
    if scale != 1 {
      var start := StartFor(b, t, 1);
      OneLevelSlides(b, start, t, v, scale);
      assert Place(side, b, t, v, scale) == Place(side, b, t, v, 1);
      if Place(side, b, t, v, 1).Some? { OneLevelRescans(side, Place(side, b, t, v, 1).value, t, v, scale); }
      if t < start { OneLevelRescans(Bid, BidTurned(b, start, t, v, 1), t, v, scale); }
    }
  }

  lemma WrittenKeepsBestIffSafe(side: Side, b: Book, t: int, v: nat)
    requires Good(side, b)
    ensures Good(side, Update(side, b, t, v, 1).0) <==> Safe(AsWritten, side, b, t, v)
  {
    var d := t - StartFor(b, t, 1);
    if 0 <= d < b.size {
      UpdateInWindow(side, b, t, v);
    } else if side.Bid? {
      if d < 0 { BidBelow(b, t, v); } else { BidAbove(b, t, v); }
    } else {
      if d < 0 { AskBelow(b, t, v); } else { AskAbove(b, t, v); }
    }
  }

  /** For every ladder that is right and every update, the ladder is right afterwards exactly when
      the update is safe, whichever test comes before the bids' slide down. */
  lemma UpdateKeepsBestIffSafe(test: Test, side: Side, b: Book, t: int, v: nat, scale: nat)
    requires Good(side, b) && OneUnit(b.size, scale)
    ensures Good(side, Apply(test, side, b, t, v, scale).0) <==> Safe(test, side, b, t, v)
  {
    UnitDoesNotMatter(test, side, b, t, v, scale);
    var start := StartFor(b, t, 1);
    if test.AsWritten? || side.Ask? || t >= start {
      WrittenKeepsBestIffSafe(side, b, t, v);
    } else if Empty(b.cells[b.size - Min(start - t, b.size)..]) {
      BidTurnedOverEmpty(b, t, v);
    }
  }

  predicate TopDiffers(b: Book, b': Book) {
    b'.best != b.best || (b.best.Some? && b'.bestVolume != b.bestVolume)
  }

  /** The price is a whole window away on the better side. */
  predicate FarBeyond(side: Side, b: Book, t: int, scale: nat) {
    var d: int := t - StartFor(b, t, scale);
    if side.Bid? then d >= b.size && d - b.size + 1 >= b.size else d < 0 && -d >= b.size
  }

  /** A changed top is always reported, except that a deletion far beyond it throws the best out
      silently. */
  lemma ChangeIsSilentIffThrownOut(side: Side, b: Book, t: int, v: nat, scale: nat)
    requires Shape(b)
    ensures TopDiffers(b, Update(side, b, t, v, scale).0) && !Reports(side, b, t, v, scale)
            <==> v == 0 && b.best.Some? && FarBeyond(side, b, t, scale)
  {
    if Place(side, b, t, v, scale).Some? { PlaceAndTop(side, b, t, v, scale); }
  }

  /** A report is made exactly when the update is accepted and its price is the best afterwards, or was
      the best before and stayed in the window's reach. */
  lemma ReportIsExact(side: Side, b: Book, t: int, v: nat, scale: nat)
    requires Shape(b)
    ensures var (b', status) := Update(side, b, t, v, scale);
            Reports(side, b, t, v, scale)
            <==> status.Successful? && (b'.best == Some(t) || (b.best == Some(t) && !FarBeyond(side, b, t, scale)))
  {
    if Place(side, b, t, v, scale).Some? { PlaceAndTop(side, b, t, v, scale); }
  }

  /** The update was accepted, and its price is the best before it or the best after it. */
  predicate AtTheTop(b: Book, b': Book, status: Status, t: int) {
    status.Successful? && (b.best == Some(t) || b'.best == Some(t))
  }

  /** Of a ladder that is right, an update reports a changed top if and only if it is accepted and its
      price is the best before it or the best after it. */
  lemma ReportsIffAtTheTop(side: Side, b: Book, t: int, v: nat, scale: nat)
    requires Good(side, b) && OneUnit(b.size, scale)
    ensures var (b', status) := Update(side, b, t, v, scale);
            Reports(side, b, t, v, scale) <==> AtTheTop(b, b', status, t)
  {
    ReportIsExact(side, b, t, v, scale);
  }

  /** What a ladder without a best shows for its volume: 0 when the last bid is deleted, no volume when
      the last ask is or the best is thrown out, and what it showed before otherwise. */
  lemma NoBestShows(side: Side, b: Book, t: int, v: nat, scale: nat)
    requires Shape(b)
    ensures var b' := Update(side, b, t, v, scale).0;
            b'.best.None? ==>
              b'.bestVolume == if Reports(side, b, t, v, scale) && side.Bid? then 0
                               else if b.best.Some? || FarBeyond(side, b, t, scale) then -1
                               else b.bestVolume
  {
    if Place(side, b, t, v, scale).Some? { PlaceAndTop(side, b, t, v, scale); }
  }

  /** Making room leaves the best alone, or throws it out. */
  lemma PlaceAndTop(side: Side, b: Book, t: int, v: nat, scale: nat)
    requires Shape(b) && Place(side, b, t, v, scale).Some?
    ensures var b' := Place(side, b, t, v, scale).value;
            if FarBeyond(side, b, t, scale) then b'.best == None && b'.bestVolume == NO_VOLUME
            else b'.best == b.best && b'.bestVolume == b.bestVolume
  {
  }

  /** Clearing a ladder that has a best leaves that best behind. */
  lemma ClearKeepsBestIffNone(side: Side, b: Book)
    requires Good(side, b)
    ensures Good(side, Clear(b)) <==> b.best.None?
  {
  }

  /** A first price can be read back exactly when the window is placed in the units the offsets
      use, or the ladder has one level.  `size` is a power of two, so one or even. */
  lemma FirstUpdateReadsBack(side: Side, size: nat, t: int, v: nat, scale: nat)
    requires size == 1 || size % 2 == 0
    requires size > 0 && v > 0 && scale > 0
    ensures Volume(Update(side, New(size), t, v, scale).0, t) == v <==> scale == 1 || size == 1
  {
    var mid := size / 2;
    if size > 1 && scale > 1 {
      Arith.MulMonotone(2, scale, mid);
      assert mid * scale >= size;
      var k := mid * scale - size + 1;
      Arith.MulMonotone(2, scale, k);
    }
  }

  // ---------------------------------------------------------------- copies

  /** The levels from cell `top` on, the best side's way, cut or filled with zeros to `size`. */
  function Levels(side: Side, cells: seq<nat>, top: nat, size: nat): (c: seq<nat>)
    requires top < |cells|
    ensures |c| == size
  {
    if side.Bid? then
      seq(size, j requires 0 <= j < size => var i := top - (size - 1 - j); if i >= 0 then cells[i] else 0)
    else
      seq(size, j requires 0 <= j < size => var i := top + j; if i < |cells| then cells[i] else 0)
  }

  /** The copy's window ends (bids) or begins (asks) at the best. */
  function Copy(side: Side, b: Book, size: nat, scale: nat): (c: Book)
    requires Shape(b) && size > 0 && (b.best.Some? ==> b.start.Some?)
    ensures Shape(c)
  {
    match b.best
    case None => Book(size, None, Zeros(size), None, b.bestVolume)
    case Some(p) =>
      var top := (p - b.start.value) % b.size;
      Book(size, Some(if side.Bid? then p - (size - 1) * scale else p), Levels(side, b.cells, top, size), b.best,
           b.bestVolume)
  }

  /** A copy of asks is right, has the same best, agrees with its source at every price in both
      windows and is empty elsewhere; a copy of bids exactly if its window is placed in the units
      of its levels, or has one level, or none is occupied. */
  lemma CopyAgrees(side: Side, b: Book, size: nat, scale: nat, x: int)
    requires Good(side, b) && size > 0
    ensures var c := Copy(side, b, size, scale);
            && c.best == b.best && (b.best.Some? ==> c.bestVolume == b.bestVolume)
            && (Good(side, c) <==> side.Ask? || b.best.None? || OneUnit(size, scale))
            && (Good(side, c) ==> Volume(c, x) == if InWindow(c, x) && InWindow(b, x) then Volume(b, x) else 0)
  {
    var c := Copy(side, b, size, scale);
    if b.best.Some? {
      var p := b.best.value;
      Arith.DivModUnique(p - b.start.value, b.size, 0, p - b.start.value);
      if side.Ask? || OneUnit(size, scale) {
        assert IsTop(side, c.cells, p - c.start.value);
      } else {
        assert c.cells[size - 1] > 0;
        MoreThanOne(size - 1, scale);
      }
    }
  }

  lemma MoreThanOne(n: nat, scale: nat)
    requires n > 0 && scale != 1
    ensures n * scale != n
  {
    if scale > 1 { Arith.MulMonotone(2, scale, n); }
  }
}
