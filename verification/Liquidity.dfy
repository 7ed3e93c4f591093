/** The code of the ladder: a circular array of volumes with masked indices, raw prices and a
    raw tick, specified by module Ladder. */
module LiquidityCode {
  import opened Common
  import opened Ladder
  import opened Bits
  import Arith

  /** The circular array read from its first index on. */
  function Turn(v: seq<nat>, first: nat): (c: seq<nat>)
    requires first < |v|
    ensures |c| == |v|
  {
    v[first..] + v[..first]
  }

  function Wrap(first: nat, j: nat, n: nat): nat
    requires first < n && j <= n
  {
    if first + j < n then first + j else first + j - n
  }

  lemma WrapIsMod(first: nat, j: nat, n: nat)
    requires first < n && j <= n
    ensures (first + j) % n == Wrap(first, j, n)
  {
    if first + j < n { Arith.DivModUnique(first + j, n, 0, first + j); }
    else { Arith.DivModUnique(first + j, n, 1, first + j - n); }
  }

  lemma PutCell(v: seq<nat>, first: nat, j: nat, x: nat)
    requires first < |v| && j < |v|
    ensures Turn(v[Wrap(first, j, |v|) := x], first) == Turn(v, first)[j := x]
    ensures Turn(v, first)[j] == v[Wrap(first, j, |v|)]
  {
  }

  lemma TurnFurther(v: seq<nat>, first: nat, k: nat)
    requires first < |v| && k < |v|
    ensures var c := Turn(v, first); Turn(v, Wrap(first, k, |v|)) == c[k..] + c[..k]
  {
  }

  /** Aligned raw prices and their ticks. */
  lemma Ticks(price: int, n: int, tick: nat)
    requires tick > 0 && price % tick == 0
    ensures (price + n * tick) % tick == 0 && (price + n * tick) / tick == price / tick + n
    ensures price == price / tick * tick
  {
    Arith.ModShift(price, n, tick);
  }

  function TickOf(price: Option<int>, tick: nat): Option<int>
    requires tick > 0
  {
    match price case None => None case Some(p) => Some(p / tick)
  }

  predicate Aligned(price: Option<int>, tick: nat)
    requires tick > 0
  {
    price.Some? ==> price.value % tick == 0
  }

  class Liquidity {
    const size: nat
    const mask: nat
    const midOffset: nat
    const scale: nat                       // raw units of one integer unit in mixed arithmetic
    var tickSize: nat
    var startIndexPrice: Option<int>
    var startIndex: nat
    var endIndex: nat
    const volumes: array<nat>
    var bestPrice: Option<int>
    var bestVolume: int
    var topChanges: bool

    ghost predicate Valid()
      reads this
    {
      && IsPow2(size) && volumes.Length == size > 0 && mask == size - 1 && midOffset == size / 2
      && tickSize > 0 && startIndex < size && endIndex == Wrap(startIndex, size - 1, size)
      && Aligned(startIndexPrice, tickSize) && Aligned(bestPrice, tickSize)
    }

    ghost function Cells(): (c: seq<nat>)
      requires volumes.Length > startIndex
      reads this, volumes
      ensures |c| == volumes.Length
    {
      Turn(volumes[..], startIndex)
    }

    ghost function State(): (b: Book)
      requires Valid()
      reads this, volumes
      ensures Shape(b)
    {
      Book(size, TickOf(startIndexPrice, tickSize), Cells(), TickOf(bestPrice, tickSize), bestVolume)
    }

    constructor (size: nat, tickSize: nat, scale: nat)
      requires IsPow2(size) && tickSize > 0
      ensures Valid() && State() == New(size) && fresh(volumes)
      ensures this.tickSize == tickSize && this.scale == scale
    {
      this.size, mask, midOffset, this.tickSize, this.scale := size, size - 1, size / 2, tickSize, scale;
      startIndexPrice, startIndex, endIndex := None, 0, size - 1;
      bestPrice, bestVolume, topChanges := None, NO_VOLUME, false;
      volumes := new nat[size](_ => 0);
    }

    /** The index of a cell. */
    method Index(offset: nat) returns (i: nat)
      requires Valid() && offset <= size
      ensures i == Wrap(startIndex, offset, size) < size
    {
      MaskIsMod(offset + startIndex, size);
      WrapIsMod(startIndex, offset, size);
      i := And(offset + startIndex, mask);
    }

    method PutAt(offset: nat, v: nat)
      requires Valid() && offset < size
      modifies volumes
      ensures Cells() == old(Cells())[offset := v]
    {
      var i := Index(offset);
      PutCell(volumes[..], startIndex, offset, v);
      volumes[i] := v;
    }

    method Fill()
      requires Valid()
      modifies volumes
      ensures Cells() == Zeros(size)
    {
      for i := 0 to size
        invariant forall k :: 0 <= k < i ==> volumes[k] == 0
      {
        volumes[i] := 0;
      }
    }

    /** The last index stays one window behind the first. */
    lemma IndicesUp(k: nat)
      requires Valid() && k < size
      ensures And(startIndex + k, mask) == Wrap(startIndex, k, size) < size
      ensures And(endIndex + k, mask) == Wrap(Wrap(startIndex, k, size), size - 1, size)
    {
      MaskIsMod(startIndex + k, size);
      MaskIsMod(endIndex + k, size);
      WrapIsMod(startIndex, k, size);
      WrapIsMod(endIndex, k, size);
    }

    lemma IndicesDown(k: nat)
      requires Valid() && k < size
      ensures var j := if k == 0 then 0 else size - k;
              && And(startIndex - k, mask) == Wrap(startIndex, j, size) < size
              && And(endIndex - k, mask) == Wrap(Wrap(startIndex, j, size), size - 1, size)
    {
      DownIsWrap(startIndex, k);
      DownIsWrap(endIndex, k);
    }

    /** Moves both indices up by `k` cells; the window's contents turn with them. */
    method MoveUp(k: nat)
      requires Valid() && k < size
      modifies this`startIndex, this`endIndex
      ensures Valid() && Cells() == old(Cells())[k..] + old(Cells())[..k]
    {
      TurnFurther(volumes[..], startIndex, k);
      IndicesUp(k);
      startIndex := And(startIndex + k, mask);
      endIndex := And(endIndex + k, mask);
    }

    method MoveDown(k: nat)
      requires Valid() && k < size
      modifies this`startIndex, this`endIndex
      ensures Valid() && Cells() == old(Cells())[size - k..] + old(Cells())[..size - k]
    {
      TurnFurther(volumes[..], startIndex, if k == 0 then 0 else size - k);
      IndicesDown(k);
      startIndex := And(startIndex - k, mask);
      endIndex := And(endIndex - k, mask);
    }

    lemma DownIsWrap(first: nat, k: nat)
      requires Valid() && first < size && k < size
      ensures And(first - k, mask) == Wrap(first, if k == 0 then 0 else size - k, size)
    {
      MaskIsMod(first - k, size);
      WrapDown(first, k, size);
    }

    method Clear()
      requires Valid()
      modifies this`startIndexPrice, volumes
      ensures Valid() && State() == Ladder.Clear(old(State()))
    {
      startIndexPrice := None;
      Fill();
      var bestPrice: Option<int> := None;
      var bestVolume := NO_VOLUME;
      var topChanges := false;
    }

    /** `getOffsetFromStartIndex`; the division truncates, but aligned prices divide evenly. */
    method Offset(price: int) returns (d: int)
      requires Valid() && startIndexPrice.Some? && price % tickSize == 0
      ensures d == price / tickSize - startIndexPrice.value / tickSize
    {
      var distance := price - startIndexPrice.value;
      ghost var n := price / tickSize - startIndexPrice.value / tickSize;
      Ticks(0, n, tickSize);
      EvenDivision(price, startIndexPrice.value, tickSize);
      d := if distance >= 0 then distance / tickSize else -(-distance / tickSize);
    }

    /** The cell `n` indices past the last one is the one at offset `n - 1`. */
    method ClearPastEnd(n: nat)
      requires Valid() && 0 < n <= size
      modifies volumes
      ensures Cells() == old(Cells())[n - 1 := 0]
    {
      BeforeEnd(n);
      PutCell(volumes[..], startIndex, n - 1, 0);
      volumes[And(endIndex + n, mask)] := 0;
    }

    method ClearPastStart(n: nat)
      requires Valid() && 0 < n <= size
      modifies volumes
      ensures Cells() == old(Cells())[size - n := 0]
    {
      MaskIsMod(startIndex - n, size);
      if n < size { WrapDown(startIndex, n, size); } else { Arith.ModShift(startIndex, -1, size); }
      WrapIsMod(startIndex, size - n, size);
      PutCell(volumes[..], startIndex, size - n, 0);
      volumes[And(startIndex - n, mask)] := 0;
    }

    /** The cells that come in at the top are those that fall out at the bottom. */
    method ClearAfterEnd(count: nat)
      requires Valid() && count < size
      modifies volumes
      ensures Cells() == Zeros(count) + old(Cells())[count..]
    {
      ghost var c := Cells();
      for numShift := 1 to count + 1
        invariant Cells() == Zeros(numShift - 1) + c[numShift - 1..]
      {
        ClearPastEnd(numShift);
        ZeroOneMore(c, numShift - 1);
      }
    }

    method ClearBeforeStart(count: nat)
      requires Valid() && count < size
      modifies volumes
      ensures Cells() == old(Cells())[..size - count] + Zeros(count)
    {
      ghost var c := Cells();
      for numShift := 1 to count + 1
        invariant Cells() == c[..size - (numShift - 1)] + Zeros(numShift - 1)
      {
        ClearPastStart(numShift);
        ZeroOneMoreBelow(c, numShift - 1);
      }
    }

    method PutLast(v: nat)
      requires Valid()
      modifies volumes
      ensures Cells() == old(Cells())[size - 1 := v]
    {
      PutCell(volumes[..], startIndex, size - 1, v);
      volumes[endIndex] := v;
    }

    method PutFirst(v: nat)
      requires Valid()
      modifies volumes
      ensures Cells() == old(Cells())[0 := v]
    {
      PutCell(volumes[..], startIndex, 0, v);
      volumes[startIndex] := v;
    }

    /** `startIndexPrice_ + tickSize_ * n`, where the integer product counts `scale` raw units. */
    method StartAbove(price: int, n: nat)
      requires Valid() && price % tickSize == 0
      modifies this`startIndexPrice
      ensures Valid() && startIndexPrice.Some? && startIndexPrice.value / tickSize == price / tickSize + n * scale
    {
      Ticks(price, n * scale, tickSize);
      startIndexPrice := Some(price + tickSize * n * scale);
      assert tickSize * n * scale == (n * scale) * tickSize;
    }

    /** `startIndexPrice_ - tickSize_ * n` and `price - midOffset_ * tickSize_`. */
    method StartBelow(price: int, n: nat)
      requires Valid() && price % tickSize == 0
      modifies this`startIndexPrice
      ensures Valid() && startIndexPrice.Some? && startIndexPrice.value / tickSize == price / tickSize - n * scale
    {
      Ticks(price, -(n * scale), tickSize);
      startIndexPrice := Some(price - tickSize * n * scale);
      assert -(tickSize * n * scale) == (-(n * scale)) * tickSize;
    }

    /** Slides the window `k` ticks down and puts a volume at its new first level. */
    method SlideDown(k: nat, v: nat)
      requires Valid() && startIndexPrice.Some? && k < size
      modifies this`startIndex, this`endIndex, this`startIndexPrice, volumes
      ensures Valid() && Cells() == (old(Cells())[size - k..] + old(Cells())[..size - k])[0 := v]
      ensures startIndexPrice.Some?
      ensures startIndexPrice.value / tickSize == old(startIndexPrice.value / tickSize) - k * scale
    {
      MoveDown(k);
      PutFirst(v);
      StartBelow(startIndexPrice.value, k);
    }

    /** Slides the window `k` ticks up and puts a volume at its new last level. */
    method SlideUp(k: nat, v: nat)
      requires Valid() && startIndexPrice.Some? && k < size
      modifies this`startIndex, this`endIndex, this`startIndexPrice, volumes
      ensures Valid() && Cells() == (old(Cells())[k..] + old(Cells())[..k])[size - 1 := v]
      ensures startIndexPrice.Some?
      ensures startIndexPrice.value / tickSize == old(startIndexPrice.value / tickSize) + k * scale
    {
      MoveUp(k);
      PutLast(v);
      StartAbove(startIndexPrice.value, k);
    }

    /** A price a whole window away empties the ladder and re-centres it. */
    method StartAfresh(price: int, v: nat)
      requires Valid() && price % tickSize == 0
      modifies this`startIndexPrice, this`bestPrice, this`bestVolume, volumes
      ensures Valid() && Cells() == Zeros(size)[size / 2 := v] && bestPrice == None && bestVolume == NO_VOLUME
      ensures startIndexPrice.Some? && startIndexPrice.value / tickSize == price / tickSize - size / 2 * scale
    {
      Fill();
      bestPrice := None;
      bestVolume := NO_VOLUME;
      PutAt(midOffset, v);
      StartBelow(price, midOffset);
    }

    method SlideUpCleared(k: nat, v: nat)
      requires Valid() && startIndexPrice.Some? && k < size
      modifies this`startIndex, this`endIndex, this`startIndexPrice, volumes
      ensures Valid() && Cells() == (old(Cells())[k..] + Zeros(k))[size - 1 := v]
      ensures startIndexPrice.Some?
      ensures startIndexPrice.value / tickSize == old(startIndexPrice.value / tickSize) + k * scale
    {
      TurnZeros(Cells(), k);
      ClearAfterEnd(k);
      SlideUp(k, v);
    }

    method BidShiftTowardsHigherPrices(distance: int, price: int, v: nat)
      requires Valid() && startIndexPrice.Some? && price % tickSize == 0
      requires distance == price / tickSize - startIndexPrice.value / tickSize >= size
      modifies this`startIndex, this`endIndex, this`startIndexPrice, this`bestPrice, this`bestVolume, volumes
      ensures Valid()
      ensures State() == BidSlideUp(old(State()), old(startIndexPrice.value / tickSize), price / tickSize, v, scale)
    {
      var numShiftReq := distance - size + 1;
      if numShiftReq < size {
        SlideUpCleared(numShiftReq, v);
      } else {
        StartAfresh(price, v);
      }
    }

    method BidShiftTowardsLowerPrices(distance: int, price: int, v: nat) returns (ok: bool)
      requires Valid() && startIndexPrice.Some? && price % tickSize == 0
      requires distance == price / tickSize - startIndexPrice.value / tickSize < 0
      modifies this`startIndex, this`endIndex, this`startIndexPrice, volumes
      ensures Valid()
      ensures var r := BidSlideDown(old(State()), old(startIndexPrice.value / tickSize), price / tickSize, v, scale);
              ok == r.Some? && State() == if ok then r.value else old(State())
    {
      var numShiftReq := Min(-distance, size);
      ok := TopOccupied(numShiftReq);
      if ok {
        BidTurn(numShiftReq, price, v);
      }
    }

    method BidTurn(numShiftReq: nat, price: int, v: nat)
      requires Valid() && startIndexPrice.Some? && price % tickSize == 0
      requires price / tickSize < startIndexPrice.value / tickSize
      requires numShiftReq == Min(startIndexPrice.value / tickSize - price / tickSize, size)
      modifies this`startIndex, this`endIndex, this`startIndexPrice, volumes
      ensures Valid()
      ensures State() == BidTurned(old(State()), old(startIndexPrice.value / tickSize), price / tickSize, v, scale)
    {
      if numShiftReq < size {
        ghost var b, start := State(), startIndexPrice.value / tickSize;
        BidTurnedBy(b, start, price / tickSize, v, scale, numShiftReq);
        SlideDown(numShiftReq, v);
        assert TickOf(startIndexPrice, tickSize) == Some(start - numShiftReq * scale);
      } else {
        PutAt(midOffset, v);
        StartBelow(price, midOffset);
      }
    }

    lemma TopIndex(n: nat)
      requires Valid() && n < size
      ensures And(endIndex - n, mask) == Wrap(startIndex, size - 1 - n, size) < size
    {
      MaskIsMod(endIndex - n, size);
      WrapDown(endIndex, n, size);
    }

    /** The cell `n` below the last one. */
    lemma TopCell(n: nat)
      requires Valid() && n < size
      ensures And(endIndex - n, mask) < size && volumes[And(endIndex - n, mask)] == Cells()[size - 1 - n]
    {
      TopIndex(n);
      PutCell(volumes[..], startIndex, size - 1 - n, 0);
    }

    /** The loop over the levels that would be dropped: it gives up at an empty one. */
    method TopOccupied(count: nat) returns (ok: bool)
      requires Valid() && count <= size
      ensures ok == Occupied(Cells()[size - count..])
    {
      for numShift := 0 to count
        invariant Occupied(Cells()[size - numShift..])
      {
        TopCell(numShift);
        if volumes[And(endIndex - numShift, mask)] == 0 {
          assert Cells()[size - count..][count - 1 - numShift] == 0;
          return false;
        }
      }
      return true;
    }

    /** The same with the levels that come in cleared first. */
    method SlideDownCleared(k: nat, v: nat)
      requires Valid() && startIndexPrice.Some? && k < size
      modifies this`startIndex, this`endIndex, this`startIndexPrice, volumes
      ensures Valid() && Cells() == (Zeros(k) + old(Cells())[..size - k])[0 := v]
      ensures startIndexPrice.Some?
      ensures startIndexPrice.value / tickSize == old(startIndexPrice.value / tickSize) - k * scale
    {
      TurnZeros(Cells(), k);
      ClearBeforeStart(k);
      SlideDown(k, v);
    }

    method AskSlideBy(k: nat, v: nat)
      requires Valid() && startIndexPrice.Some? && k < size
      modifies this`startIndex, this`endIndex, this`startIndexPrice, volumes
      ensures Valid()
      ensures State() == old(State()).(start := Some(old(startIndexPrice.value / tickSize) - k * scale),
                                       cells := (Zeros(k) + old(Cells())[..size - k])[0 := v])
    {
      SlideDownCleared(k, v);
    }

    method AskRestart(price: int, v: nat)
      requires Valid() && price % tickSize == 0
      modifies this`startIndexPrice, this`bestPrice, this`bestVolume, volumes
      ensures Valid()
      ensures State() == old(State()).(start := Some(price / tickSize - size / 2 * scale),
                                       cells := Zeros(size)[size / 2 := v], best := None, bestVolume := NO_VOLUME)
    {
      StartAfresh(price, v);
    }

    method AskShiftTowardsLowerPrices(distance: int, price: int, v: nat)
      requires Valid() && startIndexPrice.Some? && price % tickSize == 0
      requires distance == price / tickSize - startIndexPrice.value / tickSize < 0
      modifies this`startIndex, this`endIndex, this`startIndexPrice, this`bestPrice, this`bestVolume, volumes
      ensures Valid()
      ensures State() == AskSlideDown(old(State()), old(startIndexPrice.value / tickSize), price / tickSize, v, scale)
    {
      var numShiftReq := -distance;
      ghost var b, start, t := State(), startIndexPrice.value / tickSize, price / tickSize;
      if numShiftReq < size {
        AskSlideBy(numShiftReq, v);
        assert numShiftReq == start - t;
        assert State() == AskSlideDown(b, start, t, v, scale);
      } else {
        AskRestart(price, v);
        assert State() == AskSlideDown(b, start, t, v, scale);
      }
    }

    method AskShiftTowardsHigherPrices(distance: int, price: int, v: nat) returns (ok: bool)
      requires Valid() && startIndexPrice.Some? && price % tickSize == 0
      requires distance == price / tickSize - startIndexPrice.value / tickSize >= size
      modifies this`startIndex, this`endIndex, this`startIndexPrice, volumes
      ensures Valid()
      ensures var r := AskSlideUp(old(State()), old(startIndexPrice.value / tickSize), price / tickSize, v, scale);
              ok == r.Some? && State() == if ok then r.value else old(State())
    {
      var numShiftReq := Min(distance - size + 1, size);
      ok := BottomEmpty(numShiftReq);
      if ok {
        AskTurn(numShiftReq, price, v);
      }
    }

    method AskTurn(numShiftReq: nat, price: int, v: nat)
      requires Valid() && startIndexPrice.Some? && price % tickSize == 0
      requires price / tickSize - startIndexPrice.value / tickSize >= size
      requires numShiftReq == Min(price / tickSize - startIndexPrice.value / tickSize - size + 1, size)
      requires Empty(Cells()[..numShiftReq])
      modifies this`startIndex, this`endIndex, this`startIndexPrice, volumes
      ensures Valid()
      ensures Some(State())
              == AskSlideUp(old(State()), old(startIndexPrice.value / tickSize), price / tickSize, v, scale)
    {
      if numShiftReq < size {
        ghost var c, start := Cells(), startIndexPrice.value / tickSize;
        SlideUp(numShiftReq, v);
        assert Cells() == (c[numShiftReq..] + c[..numShiftReq])[size - 1 := v];
        assert TickOf(startIndexPrice, tickSize) == Some(start + numShiftReq * scale);
      } else {
        PutAt(midOffset, v);
        StartBelow(price, midOffset);
        assert TickOf(startIndexPrice, tickSize) == Some(price / tickSize - midOffset * scale);
      }
    }

    method BottomEmpty(count: nat) returns (ok: bool)
      requires Valid() && count <= size
      ensures ok == Empty(Cells()[..count])
    {
      var i := startIndex;
      for numShift := 0 to count
        invariant i == Wrap(startIndex, numShift, size) < size
        invariant Empty(Cells()[..numShift])
      {
        PutCell(volumes[..], startIndex, numShift, 0);
        if volumes[i] != 0 {
          assert Cells()[..count][numShift] != 0;
          return false;
        }
        MaskIsMod(i + 1, size);
        WrapIsMod(i, 1, size);
        i := And(i + 1, mask);
      }
      return true;
    }

    /** `getPriceFromIndex`: the offset of an index, counted in mixed units from the start. */
    method PriceFromIndex(i: nat, ghost cell: nat) returns (price: int)
      requires Valid() && startIndexPrice.Some? && cell < size && i == Wrap(startIndex, cell, size)
      ensures price % tickSize == 0 && price / tickSize == startIndexPrice.value / tickSize + cell * scale
    {
      var offset: int := i - startIndex;
      if offset < 0 {
        offset := offset + size;
      }
      Ticks(startIndexPrice.value, offset * scale, tickSize);
      price := startIndexPrice.value + offset * tickSize * scale;
      assert offset * tickSize * scale == (offset * scale) * tickSize;
    }

    /** `getIndexFromPrice`. */
    method IndexFromPrice(price: int) returns (i: nat)
      requires Valid() && startIndexPrice.Some? && price % tickSize == 0
      ensures i == Wrap(startIndex, (price / tickSize - startIndexPrice.value / tickSize) % size, size) < size
    {
      var d := Offset(price);
      MaskIsMod(d + startIndex, size);
      Arith.ModOfSum(d, startIndex, size);
      WrapIsMod(startIndex, d % size, size);
      i := And(d + startIndex, mask);
    }

    /** The loop of the rescan: downwards from index `i`, giving up on reaching the last one. */
    method BidScan(top: nat, ghost from: nat) returns (found: bool, i: nat, ghost cell: nat)
      requires Valid() && from < size && top == Wrap(startIndex, from, size)
      ensures found ==> cell <= from && i == Wrap(startIndex, cell, size) < size
      ensures (if from == size - 1 then None else Down(Cells(), from)) == if found then Some(cell) else None
    {
      i := top;
      ghost var c: int := from;
      while i != endIndex
        invariant -1 <= c <= from && i < size
        invariant i == if c < 0 then endIndex else Wrap(startIndex, c, size)
        invariant from < size - 1 ==> Down(Cells(), from) == Down(Cells(), c)
        invariant from == size - 1 ==> i == endIndex
        decreases c
      {
        PutCell(volumes[..], startIndex, c, 0);
        if volumes[i] != 0 {
          return true, i, c;
        }
        MaskIsMod(i - 1, size);
        BeforeCell(c);
        i := And(i - 1, mask);
        c := c - 1;
      }
      found, cell := false, 0;
      assert c >= 0 ==> c == size - 1;
    }

    lemma BeforeCell(c: nat)
      requires Valid() && c < size - 1
      ensures (Wrap(startIndex, c, size) - 1) % size == if c == 0 then endIndex else Wrap(startIndex, c - 1, size)
    {
      var i := Wrap(startIndex, c, size);
      if i == 0 { Arith.DivModUnique(-1, size, -1, size - 1); } else { Arith.DivModUnique(i - 1, size, 0, i - 1); }
    }

    method BidFindBest(price: int)
      requires Valid() && startIndexPrice.Some? && price % tickSize == 0
      modifies this`bestPrice, this`bestVolume, this`topChanges
      ensures Valid() && State() == BidRescan(old(State()), price / tickSize, scale) && topChanges
    {
      bestVolume, bestPrice, topChanges := 0, None, true;
      ghost var from := ScanFrom(State(), price / tickSize);
      var top := IndexFromPrice(price);
      var found, i;
      ghost var cell;
      found, i, cell := BidScan(top, from);
      if found {
        TakeCell(i, cell);
      }
    }

    method TakeCell(i: nat, ghost cell: nat)
      requires Valid() && startIndexPrice.Some? && cell < size && i == Wrap(startIndex, cell, size)
      modifies this`bestPrice, this`bestVolume
      ensures Valid() && bestVolume == Cells()[cell]
      ensures bestPrice.Some? && bestPrice.value / tickSize == startIndexPrice.value / tickSize + cell * scale
    {
      PutCell(volumes[..], startIndex, cell, 0);
      var price := PriceFromIndex(i, cell);
      bestPrice := Some(price);
      bestVolume := volumes[i];
    }

    /** Upwards from index `i`, giving up on reaching the first one. */
    method AskScan(top: nat, ghost from: nat) returns (found: bool, i: nat, ghost cell: nat)
      requires Valid() && from < size && top == Wrap(startIndex, from, size)
      ensures found ==> cell < size && i == Wrap(startIndex, cell, size) < size
      ensures (if from == 0 then None else Up(Cells(), from)) == if found then Some(cell) else None
    {
      i := top;
      ghost var c: nat := from;
      while i != startIndex
        invariant from <= c <= size && i < size
        invariant i == if c == size then startIndex else Wrap(startIndex, c, size)
        invariant from > 0 ==> Up(Cells(), from) == Up(Cells(), c)
        invariant from == 0 ==> i == startIndex
        decreases size - c
      {
        PutCell(volumes[..], startIndex, c, 0);
        if volumes[i] != 0 {
          return true, i, c;
        }
        MaskIsMod(i + 1, size);
        WrapIsMod(i, 1, size);
        i := And(i + 1, mask);
        c := c + 1;
      }
      found, cell := false, 0;
    }

    method AskFindBest(price: int)
      requires Valid() && startIndexPrice.Some? && price % tickSize == 0
      modifies this`bestPrice, this`bestVolume, this`topChanges
      ensures Valid() && State() == AskRescan(old(State()), price / tickSize, scale) && topChanges
    {
      bestVolume, bestPrice, topChanges := NO_VOLUME, None, true;
      ghost var from := ScanFrom(State(), price / tickSize);
      var top := IndexFromPrice(price);
      var found, i;
      ghost var cell;
      found, i, cell := AskScan(top, from);
      if found {
        TakeCell(i, cell);
      }
    }

    /** The first price of all goes to the middle of the window. */
    method PlaceStart(price: int)
      requires Valid() && price % tickSize == 0
      modifies this`startIndexPrice
      ensures Valid()
      ensures State() == old(State()).(start := Some(StartFor(old(State()), price / tickSize, scale)))
    {
      if startIndexPrice.None? {
        StartBelow(price, midOffset);
      }
    }

    /** One price and volume of the market: sets the volume, sliding the window if it must. */
    method BidUpdate(price: int, v: nat) returns (status: Status)
      requires Valid() && price % tickSize == 0
      modifies this, volumes
      ensures Valid() && (State(), status) == Update(Bid, old(State()), price / tickSize, v, scale)
      ensures topChanges == Reports(Bid, old(State()), price / tickSize, v, scale)
      ensures Good(Bid, old(State())) && OneUnit(size, scale) ==>
                (topChanges <==> AtTheTop(old(State()), State(), status, price / tickSize))
    {
      topChanges := false;
      PlaceStart(price);
      ghost var b := old(State());
      PlaceFromStart(Bid, b, price / tickSize, v, scale);
      if Good(Bid, b) && OneUnit(size, scale) { ReportsIffAtTheTop(Bid, b, price / tickSize, v, scale); }
      var ok := BidPlace(price, v);
      if !ok {
        return OutOfRange;
      }
      BidTakeBest(price, v);
      return Successful;
    }

    method BidPlace(price: int, v: nat) returns (ok: bool)
      requires Valid() && startIndexPrice.Some? && price % tickSize == 0
      modifies this`startIndex, this`endIndex, this`startIndexPrice, this`bestPrice, this`bestVolume, volumes
      ensures Valid()
      ensures var r := Place(Bid, old(State()), price / tickSize, v, scale);
              ok == r.Some? && State() == if ok then r.value else old(State())
    {
      ok := true;
      var distance := Offset(price);
      if 0 <= distance < size {
        PutAt(distance, v);
      } else if distance < 0 {
        ok := BidShiftTowardsLowerPrices(distance, price, v);
      } else {
        BidShiftTowardsHigherPrices(distance, price, v);
      }
    }

    method BidTakeBest(price: int, v: nat)
      requires Valid() && startIndexPrice.Some? && price % tickSize == 0 && !topChanges
      modifies this`bestPrice, this`bestVolume, this`topChanges
      ensures Valid() && State() == TakeBest(Bid, old(State()), price / tickSize, v, scale)
      ensures topChanges == Takes(Bid, old(State()), price / tickSize, v)
    {
      SamePrice(price);
      if v > 0 {
        if bestPrice.None? || bestPrice.value <= price {
          bestPrice, bestVolume, topChanges := Some(price), v, true;
        }
      } else if bestPrice == Some(price) {
        BidFindBest(price);
      }
    }

    /** Aligned prices compare as their ticks do. */
    lemma SamePrice(price: int)
      requires Valid() && price % tickSize == 0
      ensures bestPrice.Some? ==> (bestPrice.value <= price <==> bestPrice.value / tickSize <= price / tickSize)
      ensures bestPrice.Some? ==> (bestPrice.value >= price <==> bestPrice.value / tickSize >= price / tickSize)
    {
      if bestPrice.Some? {
        Ticks(price, 0, tickSize);
        Ticks(bestPrice.value, 0, tickSize);
        var p, q := bestPrice.value / tickSize, price / tickSize;
        if p <= q { Arith.MulMonotone(p, q, tickSize); }
        if p >= q { Arith.MulMonotone(q, p, tickSize); }
      }
    }

    method AskUpdate(price: int, v: nat) returns (status: Status)
      requires Valid() && price % tickSize == 0
      modifies this, volumes
      ensures Valid() && (State(), status) == Update(Ask, old(State()), price / tickSize, v, scale)
      ensures topChanges == Reports(Ask, old(State()), price / tickSize, v, scale)
      ensures Good(Ask, old(State())) && OneUnit(size, scale) ==>
                (topChanges <==> AtTheTop(old(State()), State(), status, price / tickSize))
    {
      topChanges := false;
      PlaceStart(price);
      ghost var b := old(State());
      PlaceFromStart(Ask, b, price / tickSize, v, scale);
      if Good(Ask, b) && OneUnit(size, scale) { ReportsIffAtTheTop(Ask, b, price / tickSize, v, scale); }
      var ok := AskPlace(price, v);
      if !ok {
        return OutOfRange;
      }
      AskTakeBest(price, v);
      return Successful;
    }

    method AskPlace(price: int, v: nat) returns (ok: bool)
      requires Valid() && startIndexPrice.Some? && price % tickSize == 0
      modifies this`startIndex, this`endIndex, this`startIndexPrice, this`bestPrice, this`bestVolume, volumes
      ensures Valid()
      ensures var r := Place(Ask, old(State()), price / tickSize, v, scale);
              ok == r.Some? && State() == if ok then r.value else old(State())
    {
      ok := true;
      var distance := Offset(price);
      if 0 <= distance < size {
        PutAt(distance, v);
      } else if distance < 0 {
        AskShiftTowardsLowerPrices(distance, price, v);
      } else {
        ok := AskShiftTowardsHigherPrices(distance, price, v);
      }
    }

    method AskTakeBest(price: int, v: nat)
      requires Valid() && startIndexPrice.Some? && price % tickSize == 0 && !topChanges
      modifies this`bestPrice, this`bestVolume, this`topChanges
      ensures Valid() && State() == TakeBest(Ask, old(State()), price / tickSize, v, scale)
      ensures topChanges == Takes(Ask, old(State()), price / tickSize, v)
    {
      SamePrice(price);
      if v > 0 {
        if bestPrice.None? || bestPrice.value >= price {
          bestPrice, bestVolume, topChanges := Some(price), v, true;
        }
      } else if bestPrice == Some(price) {
        AskFindBest(price);
      }
    }

    /** What both copies do before they copy levels. */
    method Reset(from: Liquidity)
      requires Valid() && from.Valid() && from != this && from.volumes != volumes
      modifies this, volumes
      ensures Valid() && tickSize == from.tickSize && startIndex == 0 && volumes[..] == Zeros(size)
      ensures bestPrice == from.bestPrice && bestVolume == from.bestVolume && startIndexPrice == None && !topChanges
    {
      startIndexPrice, startIndex, endIndex, bestPrice := None, 0, size - 1, None;
      Fill();
      assert volumes[..] == Turn(volumes[..], 0);
      topChanges := false;
      tickSize := from.tickSize;
      bestPrice, bestVolume := from.bestPrice, from.bestVolume;
    }

    method BidCopyTo(liquidity: Liquidity)
      requires Valid() && liquidity.Valid() && liquidity != this && liquidity.volumes != volumes
      requires liquidity.scale == scale && (bestPrice.Some? ==> startIndexPrice.Some?)
      modifies liquidity, liquidity.volumes
      ensures liquidity.Valid() && liquidity.State() == Copy(Bid, State(), liquidity.size, scale)
      ensures liquidity.tickSize == tickSize && liquidity.topChanges == bestPrice.Some?
    {
      liquidity.Reset(this);
      if bestPrice.None? {
        return;
      }
      liquidity.StartBelow(bestPrice.value, liquidity.size - 1);
      var i := IndexFromPrice(bestPrice.value);
      ghost var b := State();
      BidCopyLevels(liquidity, i, (b.best.value - b.start.value) % size);
      assert liquidity.Cells() == liquidity.volumes[..];
      liquidity.topChanges := true;
    }

    /** Copies levels downwards, until the source's lowest one or the target's. */
    method BidCopyLevels(liquidity: Liquidity, from: nat, ghost top: nat)
      requires Valid() && liquidity.Valid() && liquidity.volumes != volumes
      requires top < size && from == Wrap(startIndex, top, size) && liquidity.volumes[..] == Zeros(liquidity.size)
      modifies liquidity.volumes
      ensures liquidity.volumes[..] == Levels(Bid, Cells(), top, liquidity.size)
    {
      var i: int := from;
      var j := liquidity.size - 1;
      ghost var cells, n := Cells(), liquidity.size;
      ghost var c: int := top;
      while true
        invariant 0 <= j < n && 0 <= c <= top && c == top - (n - 1 - j)
        invariant 0 <= i < size && i == Wrap(startIndex, c, size)
        invariant forall m :: 0 <= m <= j ==> liquidity.volumes[m] == 0
        invariant forall m :: j < m < n ==> liquidity.volumes[m] == cells[top - (n - 1 - m)]
        decreases j
      {
        CellIs(c, i);
        liquidity.volumes[j] := volumes[i];
        if i == startIndex || j == 0 {
          break;
        }
        MaskIsMod(i - 1, size);
        if c < size - 1 { BeforeCell(c); } else { BeforeLast(); }
        i := And(i - 1, mask);
        j, c := j - 1, c - 1;
      }
      BidLevelsAre(cells, top, n, j, liquidity.volumes[..]);
    }

    lemma BeforeLast()
      requires Valid() && size > 1
      ensures (Wrap(startIndex, size - 1, size) - 1) % size == Wrap(startIndex, size - 2, size)
    {
      var i := Wrap(startIndex, size - 1, size);
      if i == 0 { Arith.DivModUnique(-1, size, -1, size - 1); } else { Arith.DivModUnique(i - 1, size, 0, i - 1); }
    }

    method AskCopyTo(liquidity: Liquidity)
      requires Valid() && liquidity.Valid() && liquidity != this && liquidity.volumes != volumes
      requires liquidity.scale == scale && (bestPrice.Some? ==> startIndexPrice.Some?)
      modifies liquidity, liquidity.volumes
      ensures liquidity.Valid() && liquidity.State() == Copy(Ask, State(), liquidity.size, scale)
      ensures liquidity.tickSize == tickSize && liquidity.topChanges == bestPrice.Some?
    {
      liquidity.Reset(this);
      if bestPrice.None? {
        return;
      }
      var i := IndexFromPrice(bestPrice.value);
      liquidity.startIndexPrice := bestPrice;
      ghost var b := State();
      AskCopyLevels(liquidity, i, (b.best.value - b.start.value) % size);
      assert liquidity.Cells() == liquidity.volumes[..];
      liquidity.topChanges := true;
    }

    /** Copies levels upwards, until the source's highest one or the target's. */
    method AskCopyLevels(liquidity: Liquidity, from: nat, ghost top: nat)
      requires Valid() && liquidity.Valid() && liquidity.volumes != volumes
      requires top < size && from == Wrap(startIndex, top, size) && liquidity.volumes[..] == Zeros(liquidity.size)
      modifies liquidity.volumes
      ensures liquidity.volumes[..] == Levels(Ask, Cells(), top, liquidity.size)
    {
      var i, j := from, 0;
      ghost var cells, n := Cells(), liquidity.size;
      while true
        invariant 0 <= j < n && top + j < size && i == Wrap(startIndex, top + j, size) < size
        invariant forall m :: j <= m < n ==> liquidity.volumes[m] == 0
        invariant forall m :: 0 <= m < j ==> liquidity.volumes[m] == cells[top + m]
        decreases n - j
      {
        CellIs(top + j, i);
        liquidity.volumes[j] := volumes[i];
        if i == endIndex || j == liquidity.size - 1 {
          break;
        }
        AfterCell(top + j);
        i := And(i + 1, mask);
        j := j + 1;
      }
      AskLevelsAre(cells, top, n, j, liquidity.volumes[..]);
    }

    lemma AfterCell(c: nat)
      requires Valid() && c < size - 1
      ensures And(Wrap(startIndex, c, size) + 1, mask) == Wrap(startIndex, c + 1, size) < size
    {
      MaskIsMod(Wrap(startIndex, c, size) + 1, size);
      WrapIsMod(Wrap(startIndex, c, size), 1, size);
    }

    lemma CellIs(c: nat, i: nat)
      requires Valid() && c < size && i == Wrap(startIndex, c, size)
      ensures i < size && Cells()[c] == volumes[i]
    {
      PutCell(volumes[..], startIndex, c, 0);
    }

    /** Cell `n - 1` is `n` indices after the last one. */
    lemma BeforeEnd(n: nat)
      requires Valid() && 0 < n <= size
      ensures And(endIndex + n, mask) == Wrap(startIndex, n - 1, size) < size
    {
      MaskIsMod(endIndex + n, size);
      WrapIsMod(startIndex, n - 1, size);
      WrapIsMod(endIndex, n, size);
    }
  }

  lemma BidTurnedBy(b: Book, start: int, t: int, v: nat, scale: nat, k: nat)
    requires Shape(b) && t < start && k == Min(start - t, b.size) < b.size
    ensures BidTurned(b, start, t, v, scale)
            == b.(start := Some(start - k * scale), cells := (b.cells[b.size - k..] + b.cells[..b.size - k])[0 := v])
  {
  }

  lemma BidLevelsAre(cells: seq<nat>, top: nat, n: nat, last: nat, v: seq<nat>)
    requires top < |cells| && |v| == n && last < n && top - (n - 1 - last) >= 0
    requires top - (n - 1 - last) == 0 || last == 0
    requires forall m :: 0 <= m < last ==> v[m] == 0
    requires forall m :: last <= m < n ==> v[m] == cells[top - (n - 1 - m)]
    ensures v == Levels(Bid, cells, top, n)
  {
  }

  lemma AskLevelsAre(cells: seq<nat>, top: nat, n: nat, last: nat, v: seq<nat>)
    requires top < |cells| && |v| == n && last < n && top + last < |cells|
    requires top + last == |cells| - 1 || last == n - 1
    requires forall m :: last < m < n ==> v[m] == 0
    requires forall m :: 0 <= m <= last ==> v[m] == cells[top + m]
    ensures v == Levels(Ask, cells, top, n)
  {
  }

  lemma ZeroOneMoreBelow(c: seq<nat>, n: nat)
    requires n < |c|
    ensures (c[..|c| - n] + Zeros(n))[|c| - n - 1 := 0] == c[..|c| - n - 1] + Zeros(n + 1)
  {
  }

  lemma TurnZeros(c: seq<nat>, k: nat)
    requires k <= |c|
    ensures var d := Zeros(k) + c[k..]; d[k..] + d[..k] == c[k..] + Zeros(k)
    ensures var d := c[..|c| - k] + Zeros(k); d[|c| - k..] + d[..|c| - k] == Zeros(k) + c[..|c| - k]
  {
  }

  lemma PlaceFromStart(side: Side, b: Book, t: int, v: nat, scale: nat)
    requires Shape(b)
    ensures Place(side, b.(start := Some(StartFor(b, t, scale))), t, v, scale) == Place(side, b, t, v, scale)
  {
  }

  lemma ZeroOneMore(c: seq<nat>, n: nat)
    requires n < |c|
    ensures (Zeros(n) + c[n..])[n := 0] == Zeros(n + 1) + c[n + 1..]
  {
  }

  lemma EvenDivision(a: int, b: int, tick: nat)
    requires tick > 0 && a % tick == 0 && b % tick == 0
    ensures a >= b ==> (a - b) / tick == a / tick - b / tick
    ensures a < b ==> (b - a) / tick == b / tick - a / tick
  {
    var (p, q) := (a / tick, b / tick);
    assert a == tick * p && b == tick * q;
    assert a - b == tick * (p - q) && b - a == tick * (q - p);
    Arith.DivModUnique(a - b, tick, p - q, 0);
    Arith.DivModUnique(b - a, tick, q - p, 0);
  }

  lemma WrapDown(first: nat, k: nat, n: nat)
    requires first < n && k < n
    ensures (first - k) % n == Wrap(first, if k == 0 then 0 else n - k, n)
  {
    if first >= k { Arith.DivModUnique(first - k, n, 0, first - k); }
    else { Arith.DivModUnique(first - k, n, -1, first - k + n); }
  }
}
