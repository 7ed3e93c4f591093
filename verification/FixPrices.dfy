/** Prices in text: four decimals, the point set in afterwards. */
module FixPrices {
  import opened Common
  import opened Digits
  import opened FixText
  import opened FixFrames
  import opened FixRoundTrip
  import Arith
  import Timestamp

  const DOT := Timestamp.DOT
  const PLACES: nat := 4

  // ---------------------------------------------------------------- reading

  /** Digits so far, digits after the point so far, and whether a point was seen. */
  datatype Scan = Scan(value: int, decimals: nat, point: bool)

  function ScanOf(t: seq<byte>): Scan {
    if t == [] then Scan(0, 0, false)
    else
      var was := ScanOf(t[..|t| - 1]);
      var b := t[|t| - 1];
      if b == DOT then was.(point := true)
      else Scan(was.value * 10 + DigitValue(b), was.decimals + (if was.point then 1 else 0), was.point)
  }

  /** A zero for every decimal that is missing. */
  function Filled(value: int, missing: nat): int
    decreases missing
  {
    if missing == 0 then value else Filled(value * 10, missing - 1)
  }

  lemma {:induction false} FilledIsScaled(value: int, missing: nat)
    ensures Filled(value, missing) == value * Pow10(missing)
    decreases missing
  {
    if missing > 0 { FilledIsScaled(value * 10, missing - 1); }
  }

  /** A value read: refused with more than four decimals, though it is stored then too. */
  datatype Price = Price(ok: bool, raw: int)

  function PriceOf(t: seq<byte>): Price {
    var scan := ScanOf(t);
    if scan.decimals < PLACES then Price(true, Filled(scan.value, PLACES - scan.decimals))
    else Price(scan.decimals == PLACES, scan.value)
  }

  /** None: no separator, and nothing stored. */
  function GetPrice(s: seq<byte>, p: nat): (r: Option<Got<Price>>)
    requires p <= |s|
    ensures r.Some? ==> p < r.value.next <= |s|
  {
    var k := Find(s, p, SOH);
    if k < |s| then Some(Got(PriceOf(s[p..k]), k + 1)) else None
  }

  lemma ScanSnoc(t: seq<byte>, b: byte)
    ensures ScanOf(t + [b]) == var was := ScanOf(t);
                               if b == DOT then was.(point := true)
                               else Scan(was.value * 10 + DigitValue(b), was.decimals + (if was.point then 1 else 0),
                                          was.point)
  {
    assert (t + [b])[..|t|] == t;
  }

  predicate NoPoint(t: seq<byte>) { forall i :: 0 <= i < |t| ==> t[i] != DOT }

  lemma {:induction false} ScanPlain(t: seq<byte>)
    requires NoPoint(t)
    ensures ScanOf(t) == Scan(Value(t), 0, false)
  {
    if t != [] { ScanPlain(t[..|t| - 1]); }
  }

  lemma {:induction false} ScanPoint(t: seq<byte>, f: seq<byte>)
    requires NoPoint(t) && NoPoint(f)
    ensures ScanOf(t + [DOT] + f) == Scan(Value(t + f), |f|, true)
  {
    if f == [] {
      ScanPlain(t);
      ScanSnoc(t, DOT);
      assert t + [DOT] + f == t + [DOT] && t + f == t;
    } else {
      var (g, b) := (f[..|f| - 1], f[|f| - 1]);
      ScanPoint(t, g);
      ScanSnoc(t + [DOT] + g, b);
      ValueSnoc(t + g, b);
      assert t + [DOT] + f == (t + [DOT] + g) + [b] && t + f == (t + g) + [b];
    }
  }

  lemma WorthOfScan(t: seq<byte>, value: int, decimals: nat, point: bool)
    requires ScanOf(t) == Scan(value, decimals, point)
    ensures decimals <= 4 ==> PriceOf(t) == Price(true, value * Pow10(4 - decimals))
    ensures decimals > 4 ==> PriceOf(t) == Price(false, value)
  {
    if decimals < 4 { FilledIsScaled(value, 4 - decimals); }
    assert Pow10(0) == 1;
  }

  /** A price text without a point counts in whole units; with one (byte 46), its decimals are filled up to
      four, and more than four are refused, though the number is stored. */
  lemma AnyPriceReads(t: seq<byte>, f: seq<byte>)
    requires NoPoint(t) && NoPoint(f)
    ensures PriceOf(t) == Price(true, Value(t) * 10_000)
    ensures var worth := if |f| <= 4 then Value(t + f) * Pow10(4 - |f|) else Value(t + f);
            PriceOf(t + [46] + f) == Price(|f| <= 4, worth)
  {
    ScanPlain(t);
    ScanPoint(t, f);
    WorthOfScan(t, Value(t), 0, false);
    WorthOfScan(t + [DOT] + f, Value(t + f), |f|, true);
    assert Pow10(0) == 1 && Pow10(1) == 10 && Pow10(2) == 100 && Pow10(3) == 1_000 && Pow10(4) == 10_000;
  }

  /** In a field, whatever stands in it. */
  lemma PriceInField(s: seq<byte>, p: nat, tag: nat, t: seq<byte>) returns (q: nat)
    requires Stands(s, p, Field(tag, t)) && Plain(t)
    ensures p < q <= |s| && GetTag(s, p) == Some(Got(tag, q))
    ensures GetPrice(s, q) == Some(Got(PriceOf(t), p + |Field(tag, t)|))
  {
    var e;
    q, e := FieldAt(s, p, tag, t);
  }

  // ---------------------------------------------------------------- printing

  /** A point before the last four bytes, whatever they are. */
  function Pointed(t: seq<byte>): (r: seq<byte>)
    requires |t| >= PLACES
    ensures |r| == |t| + 1
  {
    t[..|t| - PLACES] + [DOT] + t[|t| - PLACES..]
  }

  /** Tag, equals sign and raw value, pointed, and the separator. */
  function PriceField(tag: nat, raw: int): (f: seq<byte>)
    requires |Decimal(tag)| >= 2
    ensures |f| == |Decimal(tag)| + |Signed(raw)| + 3
  {
    Pointed(Decimal(tag) + [EQUALS] + Signed(raw)) + [SOH]
  }

  lemma SignedLength(raw: int)
    ensures raw >= 1000 ==> |Signed(raw)| >= PLACES
    ensures 0 <= raw < 1000 ==> |Signed(raw)| < PLACES
  {
    if raw >= 0 {
      DecimalLength(raw, 3);
      assert Pow10(0) == 1 && Pow10(1) == 10 && Pow10(2) == 100 && Pow10(3) == 1000;
    }
  }

  lemma SignedBytes(raw: int)
    ensures NoPoint(Signed(raw)) && Plain(Signed(raw))
  {
  }

  /** A value of four bytes or more gets the point among its own. */
  lemma PointInValue(tag: nat, raw: int)
    requires |Decimal(tag)| >= 2 && |Signed(raw)| >= PLACES
    ensures PriceField(tag, raw) == Field(tag, Pointed(Signed(raw)))
  {
    var (t, d) := (Decimal(tag) + [EQUALS], Signed(raw));
    assert Pointed(t + d) == t + Pointed(d);
  }

  lemma FourPlaces(t: seq<byte>, value: int)
    requires ScanOf(t) == Scan(value, PLACES, true)
    ensures PriceOf(t) == Price(true, value)
  {
  }

  lemma PointedIsPlain(d: seq<byte>)
    requires Plain(d) && |d| >= PLACES
    ensures Plain(Pointed(d))
  {
  }

  lemma WithPoint(t: seq<byte>, f: seq<byte>)
    requires NoPoint(t) && NoPoint(f) && |f| == PLACES
    ensures PriceOf(t + [DOT] + f) == Price(true, Value(t + f))
  {
    ScanPoint(t, f);
    FourPlaces(t + [DOT] + f, Value(t + f));
  }

  lemma PointedReads(d: seq<byte>, t: seq<byte>, f: seq<byte>)
    requires NoPoint(d) && |d| >= PLACES && t == d[..|d| - PLACES] && f == d[|d| - PLACES..]
    ensures PriceOf(Pointed(d)) == Price(true, Value(d))
  {
    WithPoint(t, f);
    assert t + f == d;
    assert Pointed(d) == t + [DOT] + f;
  }

  /** A price with the point among its own bytes is read as what its text is worth. */
  lemma PriceReads(s: seq<byte>, p: nat, tag: nat, raw: int) returns (q: nat)
    requires |Decimal(tag)| >= 2 && |Signed(raw)| >= PLACES && Stands(s, p, PriceField(tag, raw))
    ensures GetTag(s, p) == Some(Got(tag, q)) && p <= q <= |s|
    ensures GetPrice(s, q) == Some(Got(Price(true, Value(Signed(raw))), p + |PriceField(tag, raw)|))
  {
    PointInValue(tag, raw);
    SignedBytes(raw);
    var d := Signed(raw);
    PointedReads(d, d[..|d| - PLACES], d[|d| - PLACES..]);
    PointedIsPlain(d);
    var e;
    q, e := FieldAt(s, p, tag, Pointed(d));
  }

  lemma PointedApart(g: seq<byte>, d: seq<byte>, cut: nat)
    requires |g| >= 2 && 0 < |d| < PLACES && cut == |g| + |d| - 3
    ensures cut <= |g| && Pointed(g + [EQUALS] + d) == g[..cut] + [DOT] + g[cut..] + [EQUALS] + d
  {
    var all := g + [EQUALS] + d;
    assert |all| - PLACES == cut;
    assert all[..cut] == g[..cut];
    assert all[cut..] == g[cut..] + [EQUALS] + d;
  }

  /** The bytes before the equals sign, with the point among them. */
  lemma NoEquals(g: seq<byte>, cut: nat)
    requires AllDigits(g) && cut <= |g|
    ensures forall i :: 0 <= i < |g| + 1 ==> (g[..cut] + [DOT] + g[cut..])[i] != EQUALS
  {
  }

  lemma Trailing(t: seq<byte>, d: seq<byte>)
    ensures t + [EQUALS] + d + [SOH] == t + [EQUALS] + (d + [SOH])
  {
  }

  lemma {:induction false} ValueOfBoth(a: seq<byte>, b: seq<byte>)
    ensures Value(a + b) == Value(a) * Pow10(|b|) + Value(b)
    decreases |b|
  {
    if b == [] {
      assert a + b == a;
    } else {
      var c := b[..|b| - 1];
      ValueOfBoth(a, c);
      assert (a + b)[..|a + b| - 1] == a + c;
      assert 10 * (Value(a) * Pow10(|c|)) == Value(a) * Pow10(|b|);
    }
  }

  lemma TimesApart(x: int, y: int, k: nat)
    requires x != y && k > 0
    ensures x * k != y * k
  {
    if x < y {
      Arith.MulMonotone(x + 1, y, k);
      assert (x + 1) * k == x * k + k;
    } else {
      Arith.MulMonotone(y + 1, x, k);
      assert (y + 1) * k == y * k + k;
    }
  }

  lemma ValueAroundPoint(a: seq<byte>, b: seq<byte>) returns (x: int, k: nat)
    ensures k > 0 && Value(a + [DOT] + b) == x * k + Value(b) && Value(a + b) == Value(a) * k + Value(b)
    ensures x != Value(a)
  {
    x, k := Value(a) * 10 + DigitValue(DOT), Pow10(|b|);
    ValueSnoc(a, DOT);
    ValueOfBoth(a + [DOT], b);
    ValueOfBoth(a, b);
  }

  /** A point among the bytes of a number changes it: from `x` shifted to ten times `x` and less. */
  lemma BrokenTag(g: seq<byte>, cut: nat)
    requires cut <= |g|
    ensures Value(g[..cut] + [DOT] + g[cut..]) != Value(g)
  {
    var (a, b) := (g[..cut], g[cut..]);
    assert g == a + b;
    var x, k := ValueAroundPoint(a, b);
    TimesApart(x, Value(a), k);
  }

  /** With fewer bytes the point falls into the tag. */
  lemma PointInTag(tag: nat, raw: int) returns (t: seq<byte>, rest: seq<byte>)
    requires |Decimal(tag)| >= 2 && |Signed(raw)| < PLACES
    ensures PriceField(tag, raw) == t + [EQUALS] + rest && (forall i :: 0 <= i < |t| ==> t[i] != EQUALS)
    ensures Value(t) != tag
  {
    var (g, d) := (Decimal(tag), Signed(raw));
    var cut := |g| + |d| - 3;
    t, rest := g[..cut] + [DOT] + g[cut..], d + [SOH];
    PointedApart(g, d, cut);
    Trailing(t, d);
    NoEquals(g, cut);
    BrokenTag(g, cut);
    ValueOfDecimal(tag);
  }

  lemma TagUpTo(s: seq<byte>, p: nat, t: seq<byte>, e: nat)
    requires Stands(s, p, t) && e == p + |t| && Stands(s, e, [EQUALS]) && (forall i :: 0 <= i < |t| ==> t[i] != EQUALS)
    ensures GetTag(s, p) == Some(Got(Value(t), e + 1))
  {
    FindAfter(s, p, t, e, EQUALS);
  }

  lemma TagBefore(s: seq<byte>, p: nat, t: seq<byte>, rest: seq<byte>) returns (e: nat)
    requires Stands(s, p, t + [EQUALS] + rest)
    ensures e == p + |t| && Stands(s, p, t) && Stands(s, e, [EQUALS])
  {
    var k := Parts(s, p, t + [EQUALS], rest);
    e := Parts(s, p, t, [EQUALS]);
  }

  lemma TagMisread(s: seq<byte>, p: nat, tag: nat, raw: int)
    requires |Decimal(tag)| >= 2 && |Signed(raw)| < PLACES && Stands(s, p, PriceField(tag, raw))
    ensures p <= |s| && GetTag(s, p).Some? && GetTag(s, p).value.value != tag
  {
    var t, rest := PointInTag(tag, raw);
    var e := TagBefore(s, p, t, rest);
    TagUpTo(s, p, t, e);
  }

  /** A price field is read back as its tag and raw value exactly when that is at least 1000. */
  lemma PriceRoundTrip(s: seq<byte>, p: nat, tag: nat, raw: int)
    requires |Decimal(tag)| >= 2 && Stands(s, p, PriceField(tag, raw))
    ensures (exists q :: p <= q <= |s| && GetTag(s, p) == Some(Got(tag, q))
                         && GetPrice(s, q) == Some(Got(Price(true, raw), p + |PriceField(tag, raw)|)))
            <==> raw >= 1000
  {
    SignedLength(raw);
    SignedReads(raw);
    if |Signed(raw)| >= PLACES {
      var q := PriceReads(s, p, tag, raw);
    } else {
      TagMisread(s, p, tag, raw);
    }
  }
}
