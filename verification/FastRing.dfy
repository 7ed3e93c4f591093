/** The ring buffer that keeps the last elements pushed, and the order rate limiter on it. */
module FastRing {
  import opened Common
  import opened Bits

  /** The last `n` elements. */
  function LastOf<T>(s: seq<T>, n: nat): seq<T> {
    if |s| <= n then s else s[|s| - n..]
  }

  /** The elements at running indices from `start` up to `end`. */
  function Window<T>(d: seq<T>, start: nat, end: nat): (s: seq<T>)
    requires start <= end && |d| > 0
    ensures |s| == end - start
  {
    seq(end - start, i requires 0 <= i < end - start => d[Cell(start + i, |d|)])
  }

  /** One element more at the end, `drop` fewer at the front. */
  lemma WindowSlides<T>(d: seq<T>, start: nat, end: nat, x: T, drop: nat)
    requires start <= end && 0 <= end + 1 - start - drop <= |d| && |d| > 0
    ensures Window(d[Cell(end, |d|) := x], start + drop, end + 1) == (Window(d, start, end) + [x])[drop..]
  {
    var d' := d[Cell(end, |d|) := x];
    forall i | 0 <= i < end + 1 - start - drop
      ensures Window(d', start + drop, end + 1)[i] == (Window(d, start, end) + [x])[drop..][i]
    {
      if start + drop + i < end { CellsDistinct(start + drop + i, end, |d|); }
    }
  }

  lemma WindowAt<T>(d: seq<T>, start: nat, end: nat, i: nat)
    requires start + i < end && |d| > 0
    ensures Window(d, start, end)[i] == d[Cell(start + i, |d|)]
  {
  }

  lemma WindowShrinks<T>(d: seq<T>, start: nat, end: nat)
    requires start < end && |d| > 0
    ensures Window(d, start + 1, end) == Window(d, start, end)[1..]
  {
    forall i | 0 <= i < end - start - 1 ensures Window(d, start + 1, end)[i] == Window(d, start, end)[1..][i] {
      WindowAt(d, start, end, i + 1);
    }
  }

  class FastRingBuffer<T(0)> {
    const logicalSize: nat
    const mask: nat
    var start: nat
    var end: nat
    const data: array<T>

    ghost predicate Valid()
      reads this, data
    {
      && IsPow2(data.Length) && data.Length > 0 && mask == data.Length - 1
      && logicalSize <= data.Length
      && start <= end <= start + logicalSize
    }

    ghost function Contents(): (s: seq<T>)
      requires Valid()
      reads this, data
      ensures |s| == end - start
    {
      Window(data[..], start, end)
    }

    constructor (size: nat)
      requires size <= TWO_TO_63
      ensures Valid() && fresh(data) && logicalSize == size && Contents() == []
    {
      var physicalSize := GetNextPowerOfTwo(size);
      logicalSize, mask, start, end := size, physicalSize - 1, 0, 0;
      data := new T[physicalSize];
    }

    method Push(x: T)
      requires Valid()
      modifies this`start, this`end, data
      ensures Valid() && Contents() == LastOf(old(Contents()) + [x], logicalSize)
    {
      ghost var was := data[..];
      MaskIsMod(end, data.Length);
      WindowSlides(was, start, end, x, if end + 1 - start > logicalSize then 1 else 0);
      data[And(end, mask)] := x;
      end := end + 1;
      if end - start > logicalSize {
        start := start + 1;
      }
      assert data[..] == was[Cell(end - 1, |was|) := x];
    }

    method Front() returns (x: T)
      requires Valid() && start < end
      ensures x == Contents()[0]
    {
      MaskIsMod(start, data.Length);
      WindowAt(data[..], start, end, 0);
      x := data[And(start, mask)];
    }

    method Back() returns (x: T)
      requires Valid() && start < end
      ensures x == Contents()[|Contents()| - 1]
    {
      MaskIsMod(end - 1, data.Length);
      WindowAt(data[..], start, end, end - 1 - start);
      x := data[And(end - 1, mask)];
    }

    method At(index: nat) returns (x: T)
      requires Valid() && index < end - start
      ensures x == Contents()[index]
    {
      MaskIsMod(start + index, data.Length);
      WindowAt(data[..], start, end, index);
      x := data[And(start + index, mask)];
    }

    method PopFront() returns (x: T)
      requires Valid() && start < end
      modifies this`start
      ensures Valid() && x == old(Contents())[0] && Contents() == old(Contents())[1..]
    {
      MaskIsMod(start, data.Length);
      WindowAt(data[..], start, end, 0);
      WindowShrinks(data[..], start, end);
      x := data[And(start, mask)];
      start := start + 1;
    }
  }
}
