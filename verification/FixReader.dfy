/** The tag and value reader over a ring of bytes, and the parsers on top of it. */
module FixReader {
  import opened Common
  import opened Digits
  import opened FixText
  import opened FixPrices
  import Arith
  import Bits

  class TagValueReader {
    const buffer: array<byte>
    const mask: nat
    const start: nat
    const end: nat
    var parsePos: nat
    var lastTagPos: nat

    /** A power-of-two ring with the bytes from `start` to `end` in it, wrapped or not. */
    ghost predicate Ring() {
      Bits.IsPow2(buffer.Length) && mask == buffer.Length - 1 && start <= end <= start + buffer.Length
    }

    ghost predicate Valid()
      reads this
    {
      Ring() && start <= parsePos <= end
    }

    /** The bytes in the order they came in. */
    ghost function View(): (s: seq<byte>)
      requires Ring()
      reads buffer
      ensures |s| == end - start
    {
      seq(end - start, i requires 0 <= i < end - start reads buffer => buffer[(start + i) % buffer.Length])
    }

    /** The reading position in the view. */
    ghost function Pos(): nat
      requires Valid()
      reads this
    {
      parsePos - start
    }

    constructor (buffer: array<byte>, start: nat, end: nat, mask: nat)
      requires Bits.IsPow2(buffer.Length) && mask == buffer.Length - 1 && start <= end <= start + buffer.Length
      ensures Valid() && Pos() == 0
      ensures this.buffer == buffer && this.mask == mask && this.start == start && this.end == end
    {
      this.buffer := buffer;
      this.mask := mask;
      this.start := start;
      this.end := end;
      parsePos := start;
      lastTagPos := start;
    }

    /** The byte at a running index. */
    method ByteAt(i: nat) returns (val: byte)
      requires Ring() && start <= i < end
      ensures val == View()[i - start]
    {
      Bits.MaskIsMod(i, buffer.Length);
      val := buffer[Bits.And(i, mask)];
    }

    method ReadTag() returns (ok: bool, tag: int)
      requires Valid()
      modifies this
      ensures Valid() && ok == GetTag(View(), old(Pos())).Some?
      ensures ok ==> GetTag(View(), old(Pos())) == Some(Got(tag, Pos())) && lastTagPos == old(Pos())
      ensures !ok ==> tag == Value(View()[old(Pos())..]) && Pos() == old(Pos()) && lastTagPos == old(lastTagPos)
    {
      tag := 0;
      ok := false;
      ghost var s, p, k := View(), Pos(), Pos();
      var i := parsePos;
      while i != end
        invariant !ok && start + p == parsePos <= i == start + k <= end && lastTagPos == old(lastTagPos)
        invariant tag == Value(s[p..k])
        invariant forall j :: p <= j < k ==> s[j] != EQUALS
      {
        var val := ByteAt(i);
        if val != EQUALS {
          ValueNext(s, p, k);
          tag := tag * 10 + DigitValue(val);
        } else {
          ok := true;
          lastTagPos := parsePos - start;
          parsePos := i + 1;
          FindIs(s, p, EQUALS, k);
          return;
        }
        i, k := i + 1, k + 1;
      }
      FindIs(s, p, EQUALS, |s|);
      assert s[p..k] == s[p..];
    }

    method ReadInt() returns (ok: bool, value: int)
      requires Valid()
      modifies this`parsePos
      ensures Valid() && ok == GetInt(View(), old(Pos())).Some?
      ensures ok ==> GetInt(View(), old(Pos())) == Some(Got(value, Pos()))
      ensures !ok ==> Pos() == old(Pos())
    {
      value := 0;
      ok := false;
      ghost var s, p, k := View(), Pos(), Pos();
      var i := parsePos;
      while i != end
        invariant !ok && start + p == parsePos <= i == start + k <= end
        invariant value == Value(s[p..k])
        invariant forall j :: p <= j < k ==> s[j] != SOH
      {
        var val := ByteAt(i);
        if val != SOH {
          ValueNext(s, p, k);
          value := value * 10 + DigitValue(val);
        } else {
          ok := true;
          parsePos := i + 1;
          FindIs(s, p, SOH, k);
          return;
        }
        i, k := i + 1, k + 1;
      }
      FindIs(s, p, SOH, |s|);
    }

    /** No value: an empty field, which leaves the caller's variable as it was. */
    method ReadChar() returns (ok: bool, value: Option<byte>)
      requires Valid()
      modifies this`parsePos
      ensures Valid() && ok == GetChar(View(), old(Pos())).Some?
      ensures ok ==> GetChar(View(), old(Pos())) == Some(Got(value, Pos()))
      ensures !ok ==> Pos() == old(Pos())
    {
      ok, value := false, None;
      ghost var s, p, k := View(), Pos(), Pos();
      var i := parsePos;
      while i != end
        invariant !ok && start + p == parsePos <= i == start + k <= end
        invariant value == if k > p then Some(s[k - 1]) else None
        invariant forall j :: p <= j < k ==> s[j] != SOH
      {
        var val := ByteAt(i);
        if val != SOH {
          value := Some(val);
        } else {
          ok := true;
          parsePos := i + 1;
          FindIs(s, p, SOH, k);
          return;
        }
        i, k := i + 1, k + 1;
      }
      FindIs(s, p, SOH, |s|);
    }

    /** Into an array of which `length` bytes may be written; 0 is the error. A text that reaches the
        end without a separator counts as read, but is neither closed nor passed. */
    method ReadText(value: array<byte>, length: nat) returns (n: nat)
      requires Valid() && length <= value.Length && value != buffer
      modifies this`parsePos, value
      ensures Valid() && n <= length && View() == old(View())
      ensures (n > 0) == GetText(View(), old(Pos()), length).Some?
      ensures n > 0 ==> GetText(View(), old(Pos()), length) == Some(Got(CString(value[..n]), Pos()))
      ensures n == 0 ==> Pos() == old(Pos())
    {
      n := 0;
      ghost var s, p, k := View(), Pos(), Pos();
      var i := parsePos;
      while i != end
        invariant start + p == parsePos <= i == start + k <= end && n == i - parsePos <= length
        invariant View() == s && value[..n] == s[p..k]
        invariant forall j :: p <= j < k ==> s[j] != SOH
      {
        var val := ByteAt(i);
        n := n + 1;
        if n > length {
          n := 0;
          TooLong(s, p, k, length);
          return;
        }
        if val != SOH {
          value[n - 1] := val;
        } else {
          parsePos := i + 1;
          value[n - 1] := 0;
          FindIs(s, p, SOH, k);
          assert value[..n] == s[p..k] + [0];
          ClosedText(s[p..k]);
          return;
        }
        i, k := i + 1, k + 1;
      }
      FindIs(s, p, SOH, |s|);
    }

    /** A price with four decimals; too many are stored, but not accepted. */
    method ReadPrice() returns (stored: bool, ok: bool, raw: int)
      requires Valid()
      modifies this`parsePos
      ensures Valid() && stored == GetPrice(View(), old(Pos())).Some? && (ok ==> stored)
      ensures stored ==> GetPrice(View(), old(Pos())) == Some(Got(Price(ok, raw), Pos()))
      ensures !stored ==> Pos() == old(Pos())
    {
      stored, ok, raw := false, false, 0;
      ghost var s, p, k := View(), Pos(), Pos();
      var decimals, decimal := 0, false;
      var i := parsePos;
      while i != end
        invariant !stored && !ok && start + p == parsePos <= i == start + k <= end
        invariant Scan(raw, decimals, decimal) == ScanOf(s[p..k])
        invariant forall j :: p <= j < k ==> s[j] != SOH
      {
        var val := ByteAt(i);
        if val != SOH {
          assert s[p..k + 1] == s[p..k] + [val];
          raw, decimals, decimal := ScanByte(s[p..k], raw, decimals, decimal, val);
        } else {
          ok, raw := FinishPrice(i, raw, decimals);
          return true, ok, raw;
        }
        i, k := i + 1, k + 1;
      }
      FindIs(s, p, SOH, |s|);
    }

    /** At the separator: zeros for the decimals that were not there. */
    method FinishPrice(i: nat, value: int, decimals: nat) returns (ok: bool, raw: int)
      requires Valid() && parsePos <= i < end && View()[i - start] == SOH
      requires forall j :: Pos() <= j < i - start ==> View()[j] != SOH
      requires ScanOf(View()[Pos()..i - start]).value == value && ScanOf(View()[Pos()..i - start]).decimals == decimals
      modifies this`parsePos
      ensures Valid() && GetPrice(View(), old(Pos())) == Some(Got(Price(ok, raw), Pos()))
    {
      FindIs(View(), Pos(), SOH, i - start);
      ok, raw := FillPlaces(View()[Pos()..i - start], value, decimals);
      parsePos := i + 1;
    }

    method MoveReadPosTo(offset: int) returns (ok: bool)
      requires Valid() && offset <= end - start
      modifies this`parsePos
      ensures Valid() && Pos() == MoveTo(View(), old(Pos()), offset, start)
      ensures ok == (0 <= offset < end) && Pos() == if ok then offset else old(Pos())
    {
      // a negative offset is huge as a `size_t`
      if offset < 0 || offset >= end {
        return false;
      }
      parsePos := start + offset;
      return true;
    }

    method MoveToNextTag() returns (ok: bool)
      requires Valid()
      modifies this`parsePos
      ensures Valid() && Pos() == NextTag(View(), old(Pos()))
      ensures ok == (Find(View(), old(Pos()), SOH) < |View()|)
    {
      ghost var s, p, k := View(), Pos(), Pos();
      var i := parsePos;
      while i != end
        invariant start + p == parsePos <= i == start + k <= end
        invariant forall j :: p <= j < k ==> s[j] != SOH
      {
        var val := ByteAt(i);
        if val == SOH {
          parsePos := i + 1;
          FindIs(s, p, SOH, k);
          return true;
        }
        i, k := i + 1, k + 1;
      }
      FindIs(s, p, SOH, |s|);
      return false;
    }

    /** Bytes read so far, and bytes left. */
    method ParseBytes() returns (n: nat)
      requires Valid()
      ensures n == Pos()
    {
      return parsePos - start;
    }

    method RemainBytes() returns (n: nat)
      requires Valid()
      ensures n == |View()| - Pos()
    {
      return end - parsePos;
    }

    /** Where the last tag began, as `moveReadPosTo` wants it. */
    method LastTagPos() returns (p: nat)
      requires Ring() && lastTagPos < |View()|
      ensures p == lastTagPos
    {
      MaskKeeps(lastTagPos, buffer.Length);
      return Bits.And(lastTagPos, mask);
    }
  }

  lemma ValueNext(s: seq<byte>, p: nat, k: nat)
    requires p <= k < |s|
    ensures Value(s[p..k + 1]) == Value(s[p..k]) * 10 + DigitValue(s[k])
  {
    ValueSnoc(s[p..k], s[k]);
    assert s[p..k + 1] == s[p..k] + [s[k]];
  }

  /** One character of a price, after those of `t`. */
  method ScanByte(ghost t: seq<byte>, value: int, decimals: nat, decimal: bool, val: byte)
      returns (value': int, decimals': nat, decimal': bool)
    requires Scan(value, decimals, decimal) == ScanOf(t)
    ensures Scan(value', decimals', decimal') == ScanOf(t + [val])
  {
    ScanSnoc(t, val);
    value', decimals', decimal' := value, decimals, decimal;
    if val == FixPrices.DOT {
      decimal' := true;
      return;
    }
    value' := value * 10 + DigitValue(val);
    if decimal {
      decimals' := decimals + 1;
    }
  }

  /** Zeros for the decimals that were not there. */
  method FillPlaces(ghost t: seq<byte>, value: int, decimals: nat) returns (ok: bool, raw: int)
    requires ScanOf(t).value == value && ScanOf(t).decimals == decimals
    ensures Price(ok, raw) == PriceOf(t)
  {
    ok, raw := decimals <= PLACES, value;
    var d := decimals;
    while d < PLACES
      invariant decimals <= d && (d <= PLACES || d == decimals)
      invariant d <= PLACES ==> Filled(raw, PLACES - d) == Filled(value, PLACES - decimals)
      invariant d > PLACES ==> raw == value
    {
      raw := raw * 10;
      d := d + 1;
    }
  }

  lemma MaskKeeps(x: nat, size: nat)
    requires Bits.IsPow2(size) && x < size
    ensures Bits.And(x, size - 1) == x
  {
    Bits.MaskIsMod(x, size);
    Arith.DivModUnique(x, size, 0, x);
  }

  lemma TooLong(s: seq<byte>, p: nat, k: nat, length: nat)
    requires p <= k < |s| && k - p >= length && forall j :: p <= j < k ==> s[j] != SOH
    ensures GetText(s, p, length) == None
  {
  }

  lemma ClosedText(t: seq<byte>)
    ensures CString(t + [0]) == CString(t)
  {
    FindSkips(t, 0, 0);
    var k := Find(t, 0, 0);
    FindIs(t + [0], 0, 0, k);
    assert (t + [0])[..k] == t[..k];
  }
}
