/** UTCTimestamp text (FIX Protocol Syntax, data types): the printer of the message builder
    and the parser of the message parser. */
module Timestamp {
  import opened Common
  import opened Digits
  import opened Calendar
  import opened Buffers
  import Arith

  const DASH: byte := 45
  const DOT: byte := 46
  const COLON: byte := 58

  const NS_PER_SECOND: nat := 1_000_000_000
  const NS_PER_DAY: nat := 86_400 * NS_PER_SECOND

  datatype Accuracy = Milli | Micro | Nano {
    /** Digits after the point. */
    function Places(): (n: nat)
      ensures n == 3 || n == 6 || n == 9
    {
      match this case Milli => 3 case Micro => 6 case Nano => 9
    }

    function PerSecond(): (n: nat)
      ensures n > 0
    {
      match this case Milli => 1_000 case Micro => 1_000_000 case Nano => 1_000_000_000
    }

    /** Nanoseconds in the last place. */
    function Unit(): (n: nat)
      ensures n > 0 && n * PerSecond() == NS_PER_SECOND
    {
      match this case Milli => 1_000_000 case Micro => 1_000 case Nano => 1
    }
  }

  /** A clock reading split as `year_month_day` and `hh_mm_ss` split it. */
  datatype Civil = Civil(date: Date, hour: nat, minute: nat, second: nat, sub: nat)

  function Split(time: nat, acc: Accuracy): (c: Civil)
    ensures Valid(c.date) && c.hour < 24 && c.minute < 60 && c.second < 60 && c.sub < acc.PerSecond()
  {
    var inDay := time % NS_PER_DAY / acc.Unit();
    var second := inDay / acc.PerSecond();
    assert second < 86_400;
    Civil(DateOf(time / NS_PER_DAY), second / 3600, second % 3600 / 60, second % 60, inDay % acc.PerSecond())
  }

  function Assemble(y: seq<byte>, mo: seq<byte>, d: seq<byte>, h: seq<byte>, mi: seq<byte>, s: seq<byte>,
                    f: seq<byte>): seq<byte>
  {
    y + mo + d + [DASH] + h + [COLON] + mi + [COLON] + s + [DOT] + f
  }

  function Text(c: Civil, acc: Accuracy): seq<byte>
    requires Valid(c.date) && c.date.year >= 0
  {
    Assemble(Decimal(c.date.year), Padded(c.date.month, 2), Padded(c.date.day, 2), Padded(c.hour, 2),
             Padded(c.minute, 2), Padded(c.second, 2), Padded(c.sub, acc.Places()))
  }

  lemma YearsOfDays(days: nat)
    requires days <= 106_751
    ensures 1970 <= DateOf(days).year < 2263
  {
    var first, last := Date(1970, 1, 1), Date(2263, 1, 1);
    ClosedFormIsDayCount(first);
    ClosedFormIsDayCount(last);
    assert DaysFromCivil(1970, 1, 1) == 0 && DaysFromCivil(2263, 1, 1) == 107_016;
    CountsAreOrdered(DateOf(days), first);
    CountsAreOrdered(DateOf(days), last);
  }

  /** A 64-bit clock in nanoseconds stays within four-digit years. */
  lemma ClockYears(time: nat)
    requires time < TWO_TO_63
    ensures 1970 <= DateOf(time / NS_PER_DAY).year < 2263
  {
    YearsOfDays(time / NS_PER_DAY);
  }

  lemma TextLength(c: Civil, acc: Accuracy)
    requires Valid(c.date) && 1000 <= c.date.year < 10000
    requires c.hour < 24 && c.minute < 60 && c.second < 60 && c.sub < acc.PerSecond()
    ensures |Text(c, acc)| == 18 + acc.Places() && |Decimal(c.date.year)| == 4
    ensures |Padded(c.date.month, 2)| == |Padded(c.date.day, 2)| == |Padded(c.hour, 2)| == |Padded(c.minute, 2)|
                == |Padded(c.second, 2)| == 2 && |Padded(c.sub, acc.Places())| == acc.Places()
  {
    PowersOfTen();
    DecimalLength(c.date.year, 4);
    DecimalLength(c.date.year, 3);
    PaddedLength(c.date.month, 2);
    PaddedLength(c.date.day, 2);
    PaddedLength(c.hour, 2);
    PaddedLength(c.minute, 2);
    PaddedLength(c.second, 2);
    PaddedLength(c.sub, acc.Places());
  }

  lemma PowersOfTen()
    ensures Pow10(1) == 10 && Pow10(2) == 100 && Pow10(3) == 1_000 && Pow10(4) == 10_000
    ensures Pow10(6) == 1_000_000 && Pow10(9) == 1_000_000_000
  {
    assert Pow10(0) == 1;
    assert Pow10(5) == 100_000;
    assert Pow10(7) == 10_000_000;
    assert Pow10(8) == 100_000_000;
  }

  // ---------------------------------------------------------------- reading

  /** The byte at `i` of a NUL-terminated text. */
  function At(text: seq<byte>, i: nat): byte { if i < |text| then text[i] else 0 }

  function Nuls(n: nat): (s: seq<byte>)
    ensures |s| == n
  {
    if n == 0 then [] else Nuls(n - 1) + [0]
  }

  function Number(text: seq<byte>, at: nat, length: nat): int {
    Value((text + Nuls(at + length))[at..at + length])
  }

  /** The digits from `at` on, at most `most` of them. */
  function Fraction(text: seq<byte>, at: nat, most: nat): (s: seq<byte>)
    ensures |s| <= most && AllDigits(s)
    decreases most, at
  {
    if most == 0 || !IsDigit(At(text, at)) then [] else [At(text, at)] + Fraction(text, at + 1, most - 1)
  }

  function FractionNs(text: seq<byte>): int {
    if At(text, 17) == DOT then
      var f := Fraction(text, 18, 9); Value(f) * Pow10(9 - |f|)
    else 0
  }

  function Nanoseconds(text: seq<byte>): int {
    var days := DaysFromCivil(Number(text, 0, 4), Number(text, 4, 2), Number(text, 6, 2));
    var seconds := days * 86_400 + Number(text, 9, 2) * 3600 + Number(text, 12, 2) * 60 + Number(text, 15, 2);
    seconds * NS_PER_SECOND + FractionNs(text)
  }

  /** The instant a text stands for, modulo the 64-bit word it is kept in. */
  function Instant(text: seq<byte>): nat { Nanoseconds(text) % TWO_TO_64 }

  lemma NumberIsSlice(text: seq<byte>, at: nat, s: seq<byte>)
    requires at + |s| <= |text| && text[at..at + |s|] == s
    ensures Number(text, at, |s|) == Value(s)
  {
    assert (text + Nuls(at + |s|))[at..at + |s|] == s;
  }

  lemma {:induction false} FractionIsRest(text: seq<byte>, at: nat, most: nat)
    requires at <= |text| && |text| - at <= most && AllDigits(text[at..])
    ensures Fraction(text, at, most) == text[at..]
    decreases most
  {
    if at < |text| {
      assert text[at..][0] == text[at] && text[at + 1..] == text[at..][1..];
      FractionIsRest(text, at + 1, most - 1);
    }
  }

  /** Where the fields of a timestamp lie. */
  lemma Layout(y: seq<byte>, mo: seq<byte>, d: seq<byte>, h: seq<byte>, mi: seq<byte>, s: seq<byte>, f: seq<byte>)
    requires |y| == 4 && |mo| == |d| == |h| == |mi| == |s| == 2
    ensures var t := Assemble(y, mo, d, h, mi, s, f);
            && |t| == 18 + |f|
            && t[0..4] == y && t[4..6] == mo && t[6..8] == d && t[9..11] == h && t[12..14] == mi && t[15..17] == s
            && t[17] == DOT && t[18..] == f
  {
  }

  lemma ClockSum(second: nat)
    ensures second / 3600 * 3600 + second % 3600 / 60 * 60 + second % 60 == second
  {
    var h, r := second / 3600, second % 3600;
    var m, s := r / 60, r % 60;
    assert second == 60 * (60 * h + m) + s;
    Arith.DivModUnique(second, 60, 60 * h + m, s);
  }

  lemma Nested(time: nat, day: nat, unit: nat, k: nat)
    requires unit > 0 && day == unit * k && day > 0
    ensures time / day * day + time % day / unit * unit == time - time % unit
  {
    var q, r := time / day, time % day;
    assert time == r + (q * k) * unit by {
      assert time == day * q + r;
      assert (q * k) * unit == q * day;
    }
    Arith.ModShift(r, q * k, unit);
    assert r == unit * (r / unit) + r % unit;
  }

  lemma SubUnits(n: nat, per: nat, unit: nat)
    requires per > 0
    ensures n / per * (unit * per) + n % per * unit == n * unit
  {
    var q, r := n / per, n % per;
    assert n == per * q + r;
    assert n * unit == (per * q) * unit + r * unit;
    assert (per * q) * unit == q * (unit * per);
  }

  /** Nanoseconds of a clock reading whose day has the given number. */
  function Sum(day: int, c: Civil, acc: Accuracy): int {
    (day * 86_400 + c.hour * 3600 + c.minute * 60 + c.second) * NS_PER_SECOND + c.sub * acc.Unit()
  }

  lemma SumOf(day: int, c: Civil, acc: Accuracy, second: int)
    requires c.hour * 3600 + c.minute * 60 + c.second == second
    ensures Sum(day, c, acc) == day * NS_PER_DAY + second * NS_PER_SECOND + c.sub * acc.Unit()
  {
  }

  lemma WholeUnits(time: nat, acc: Accuracy, inDay: nat)
    requires inDay == time % NS_PER_DAY / acc.Unit()
    ensures time / NS_PER_DAY * NS_PER_DAY + inDay / acc.PerSecond() * NS_PER_SECOND
            + inDay % acc.PerSecond() * acc.Unit() == time - time % acc.Unit()
  {
    var unit, per := acc.Unit(), acc.PerSecond();
    Nested(time, NS_PER_DAY, unit, 86_400 * per);
    SubUnits(inDay, per, unit);
  }

  lemma SplitAndSum(time: nat, acc: Accuracy)
    ensures Sum(time / NS_PER_DAY, Split(time, acc), acc) == time - time % acc.Unit()
  {
    var inDay := time % NS_PER_DAY / acc.Unit();
    var second := inDay / acc.PerSecond();
    WholeUnits(time, acc, inDay);
    ClockSum(second);
    SumOf(time / NS_PER_DAY, Split(time, acc), acc, second);
  }

  lemma FractionScale(acc: Accuracy)
    ensures Pow10(9 - acc.Places()) == acc.Unit()
  {
    PowersOfTen();
    assert Pow10(0) == 1;
  }

  lemma ReadFields(text: seq<byte>, c: Civil, acc: Accuracy)
    requires Valid(c.date) && c.date.year >= 0 && |text| == 18 + acc.Places()
    requires |Padded(c.date.month, 2)| == |Padded(c.date.day, 2)| == |Padded(c.hour, 2)| == |Padded(c.minute, 2)|
                == |Padded(c.second, 2)| == 2 && |Decimal(c.date.year)| == 4
    requires text[0..4] == Decimal(c.date.year) && text[4..6] == Padded(c.date.month, 2)
    requires text[6..8] == Padded(c.date.day, 2) && text[9..11] == Padded(c.hour, 2)
    requires text[12..14] == Padded(c.minute, 2) && text[15..17] == Padded(c.second, 2)
    requires text[18..] == Padded(c.sub, acc.Places()) && text[17] == DOT
    ensures Number(text, 0, 4) == c.date.year && Number(text, 4, 2) == c.date.month && Number(text, 6, 2) == c.date.day
    ensures Number(text, 9, 2) == c.hour && Number(text, 12, 2) == c.minute && Number(text, 15, 2) == c.second
    ensures FractionNs(text) == c.sub * acc.Unit()
  {
    NumberIsSlice(text, 0, Decimal(c.date.year));
    NumberIsSlice(text, 4, Padded(c.date.month, 2));
    NumberIsSlice(text, 6, Padded(c.date.day, 2));
    NumberIsSlice(text, 9, Padded(c.hour, 2));
    NumberIsSlice(text, 12, Padded(c.minute, 2));
    NumberIsSlice(text, 15, Padded(c.second, 2));
    ValueOfDecimal(c.date.year);
    ValueOfPadded(c.date.month, 2);
    ValueOfPadded(c.date.day, 2);
    ValueOfPadded(c.hour, 2);
    ValueOfPadded(c.minute, 2);
    ValueOfPadded(c.second, 2);
    ValueOfPadded(c.sub, acc.Places());
    FractionIsRest(text, 18, 9);
    FractionScale(acc);
  }

  lemma TextReads(c: Civil, acc: Accuracy)
    requires Valid(c.date) && 1970 <= c.date.year < 10000
    requires c.hour < 24 && c.minute < 60 && c.second < 60 && c.sub < acc.PerSecond()
    ensures |Text(c, acc)| == 18 + acc.Places()
    ensures Nanoseconds(Text(c, acc)) == Sum(DayCount(c.date), c, acc)
  {
    TextLength(c, acc);
    Layout(Decimal(c.date.year), Padded(c.date.month, 2), Padded(c.date.day, 2), Padded(c.hour, 2),
           Padded(c.minute, 2), Padded(c.second, 2), Padded(c.sub, acc.Places()));
    ReadFields(Text(c, acc), c, acc);
    ClosedFormIsDayCount(c.date);
  }

  /** The form of UTCTimestamp: `yyyymmdd-hh:mm:ss.` and digits. */
  predicate Formed(t: seq<byte>) {
    && |t| >= 18 && t[8] as char == '-' && t[11] as char == ':' && t[14] as char == ':' && t[17] as char == '.'
    && AllDigits(t[..8]) && AllDigits(t[9..11]) && AllDigits(t[12..14]) && AllDigits(t[15..17]) && AllDigits(t[18..])
  }

  lemma TextIsFormed(c: Civil, acc: Accuracy)
    requires Valid(c.date) && 1000 <= c.date.year < 10000
    requires c.hour < 24 && c.minute < 60 && c.second < 60 && c.sub < acc.PerSecond()
    ensures Formed(Text(c, acc))
  {
    TextLength(c, acc);
    assert '-' as int == 45 && ':' as int == 58 && '.' as int == 46;
  }

  /** Every printed instant has it. */
  lemma PrintedIsFormed(time: nat, acc: Accuracy)
    requires time < TWO_TO_63
    ensures DateOf(time / NS_PER_DAY).year >= 0 && Formed(Text(Split(time, acc), acc))
  {
    ClockYears(time);
    TextIsFormed(Split(time, acc), acc);
  }

  /** For every instant from 1970 to the clock's limit: the text has 18 characters and the
      accuracy's, and reads back as the instant truncated to that accuracy. */
  lemma PrintThenParse(time: nat, acc: Accuracy)
    requires time < TWO_TO_63
    ensures DateOf(time / NS_PER_DAY).year >= 0
    ensures var text := Text(Split(time, acc), acc);
            |text| == 18 + acc.Places() && Instant(text) == time - time % acc.Unit()
  {
    ClockYears(time);
    var c := Split(time, acc);
    TextReads(c, acc);
    SplitAndSum(time, acc);
    Fits(Sum(DayCount(c.date), c, acc));
  }

  // ---------------------------------------------------------------- any text with the fixed fields

  /** A reading of the clock in whole seconds, `yyyymmdd-hh:mm:ss`. */
  datatype Clock = Clock(date: Date, hour: nat, minute: nat, second: nat) {
    predicate Proper() { Valid(date) && 0 <= date.year < 10_000 && hour < 100 && minute < 100 && second < 100 }

    function Text(): seq<byte>
      requires Proper()
    {
      Padded(date.year, 4) + Padded(date.month, 2) + Padded(date.day, 2) + [DASH] + Padded(hour, 2) + [COLON]
      + Padded(minute, 2) + [COLON] + Padded(second, 2)
    }

    /** Seconds since 1970. */
    function Seconds(): int
      requires Proper()
    {
      DayCount(date) * 86_400 + hour * 3600 + minute * 60 + second
    }
  }

  lemma ClockLengths(c: Clock)
    requires c.Proper()
    ensures |Padded(c.date.year, 4)| == 4 && |Padded(c.date.month, 2)| == |Padded(c.date.day, 2)| == 2
    ensures |Padded(c.hour, 2)| == |Padded(c.minute, 2)| == |Padded(c.second, 2)| == 2
  {
    PowersOfTen();
    PaddedLength(c.date.year, 4);
    PaddedLength(c.date.month, 2);
    PaddedLength(c.date.day, 2);
    PaddedLength(c.hour, 2);
    PaddedLength(c.minute, 2);
    PaddedLength(c.second, 2);
  }

  lemma ClockLayout(c: Clock, t: seq<byte>, tail: seq<byte>)
    requires c.Proper() && t == c.Text() + tail
    requires |Padded(c.date.year, 4)| == 4 && |Padded(c.date.month, 2)| == |Padded(c.date.day, 2)| == 2
    requires |Padded(c.hour, 2)| == |Padded(c.minute, 2)| == |Padded(c.second, 2)| == 2
    ensures |t| == 17 + |tail| && t[17..] == tail
    ensures t[0..4] == Padded(c.date.year, 4) && t[4..6] == Padded(c.date.month, 2)
    ensures t[6..8] == Padded(c.date.day, 2) && t[9..11] == Padded(c.hour, 2)
    ensures t[12..14] == Padded(c.minute, 2) && t[15..17] == Padded(c.second, 2)
  {
  }

  lemma ClockNumbers(c: Clock, t: seq<byte>)
    requires c.Proper() && |t| >= 17
    requires |Padded(c.date.year, 4)| == 4 && |Padded(c.date.month, 2)| == |Padded(c.date.day, 2)| == 2
    requires |Padded(c.hour, 2)| == |Padded(c.minute, 2)| == |Padded(c.second, 2)| == 2
    requires t[0..4] == Padded(c.date.year, 4) && t[4..6] == Padded(c.date.month, 2)
    requires t[6..8] == Padded(c.date.day, 2) && t[9..11] == Padded(c.hour, 2)
    requires t[12..14] == Padded(c.minute, 2) && t[15..17] == Padded(c.second, 2)
    ensures Number(t, 0, 4) == c.date.year && Number(t, 4, 2) == c.date.month && Number(t, 6, 2) == c.date.day
    ensures Number(t, 9, 2) == c.hour && Number(t, 12, 2) == c.minute && Number(t, 15, 2) == c.second
  {
    NumberIsSlice(t, 0, Padded(c.date.year, 4));
    NumberIsSlice(t, 4, Padded(c.date.month, 2));
    NumberIsSlice(t, 6, Padded(c.date.day, 2));
    NumberIsSlice(t, 9, Padded(c.hour, 2));
    NumberIsSlice(t, 12, Padded(c.minute, 2));
    NumberIsSlice(t, 15, Padded(c.second, 2));
    ValueOfPadded(c.date.year, 4);
    ValueOfPadded(c.date.month, 2);
    ValueOfPadded(c.date.day, 2);
    ValueOfPadded(c.hour, 2);
    ValueOfPadded(c.minute, 2);
    ValueOfPadded(c.second, 2);
  }

  /** The digits end where something else, or nothing, follows, or after nine of them. */
  lemma {:induction false} FractionIsDigits(text: seq<byte>, at: nat, f: seq<byte>, most: nat)
    requires at + |f| <= |text| && text[at..at + |f|] == f && AllDigits(f) && |f| <= most
    requires |f| == most || !IsDigit(At(text, at + |f|))
    ensures Fraction(text, at, most) == f
    decreases most
  {
    if f != [] {
      assert text[at] == f[0] && text[at + 1..at + |f|] == f[1..];
      FractionIsDigits(text, at + 1, f[1..], most - 1);
      assert f == [f[0]] + f[1..];
    }
  }

  lemma ClockAndTail(c: Clock, t: seq<byte>, tail: seq<byte>)
    requires c.Proper() && t == c.Text() + tail
    ensures |t| == 17 + |tail| && t[17..] == tail
    ensures Nanoseconds(t) == c.Seconds() * 1_000_000_000 + FractionNs(t)
  {
    ClockLengths(c);
    ClockLayout(c, t, tail);
    ClockNumbers(c, t);
    ClosedFormIsDayCount(c.date);
  }

  lemma TailIs(t: seq<byte>, n: nat, f: seq<byte>, rest: seq<byte>)
    requires n < |t| && t[n..] == [DOT] + f + rest
    ensures n + 1 + |f| <= |t| && t[n] == DOT && t[n + 1..n + 1 + |f|] == f
    ensures rest != [] ==> n + 1 + |f| < |t| && t[n + 1 + |f|] == rest[0]
    ensures rest == [] ==> n + 1 + |f| == |t|
  {
    var tail := [DOT] + f + rest;
    assert t[n] == tail[0];
    assert t[n + 1..n + 1 + |f|] == tail[1..1 + |f|] == f;
    assert rest != [] ==> t[n + 1 + |f|] == tail[1 + |f|] == rest[0];
  }

  lemma FractionAt(t: seq<byte>, f: seq<byte>, rest: seq<byte>)
    requires |t| > 17 && t[17..] == [DOT] + f + rest && AllDigits(f)
    requires |f| == 9 || (|f| < 9 && (rest == [] || !IsDigit(rest[0])))
    ensures At(t, 17) == DOT && Fraction(t, 18, 9) == f
  {
    TailIs(t, 17, f, rest);
    FractionIsDigits(t, 18, f, 9);
  }

  lemma FractionCounts(t: seq<byte>, f: seq<byte>)
    requires At(t, 17) == DOT && Fraction(t, 18, 9) == f && |f| <= 9
    ensures FractionNs(t) == Value(f) * Pow10(9 - |f|)
  {
  }

  /** Every text with the fixed fields of a date of a four-digit year is read as its seconds since 1970,
      if no point (byte 46) follows. */
  lemma WholeSecondsRead(c: Clock, t: seq<byte>, tail: seq<byte>)
    requires c.Proper() && t == c.Text() + tail && (tail == [] || tail[0] != 46)
    ensures Nanoseconds(t) == c.Seconds() * 1_000_000_000
    ensures Instant(t) == c.Seconds() * 1_000_000_000 % 18_446_744_073_709_551_616
  {
    ClockAndTail(c, t, tail);
    assert tail != [] ==> t[17] == tail[0];
  }

  /** With a point, up to nine digits after it, and what is no digit behind fewer than nine, it is read as
      that and the digits' part of a second. */
  lemma FractionRead(c: Clock, t: seq<byte>, f: seq<byte>, rest: seq<byte>)
    requires c.Proper() && t == c.Text() + ([46] + f + rest) && AllDigits(f)
    requires |f| == 9 || (|f| < 9 && (rest == [] || !IsDigit(rest[0])))
    ensures Nanoseconds(t) == c.Seconds() * 1_000_000_000 + Value(f) * Pow10(9 - |f|)
  {
    ClockAndTail(c, t, [46] + f + rest);
    FractionAt(t, f, rest);
    FractionCounts(t, f);
  }

  lemma Fits(x: int)
    requires 0 <= x < TWO_TO_64
    ensures x % TWO_TO_64 == x
  {
  }

  // ---------------------------------------------------------------- the code

  /** A number below 100 with a leading zero where it has one digit. */
  method PutTwo(buffer: array<byte>, at: nat, end: nat, n: nat) returns (next: nat)
    requires at + 2 <= end <= buffer.Length && n < 100
    modifies buffer
    ensures |Padded(n, 2)| == 2 && next == at + 2
    ensures buffer[..] == Patched(old(buffer[..]), at, Padded(n, 2))
  {
    PowersOfTen();
    PaddedLength(n, 2);
    DecimalLength(n, 1);
    next := at;
    if n < 10 {
      buffer[next] := ZERO;
      next := next + 1;
      assert buffer[..] == Patched(old(buffer[..]), at, Zeros(1));
      PatchedOn(old(buffer[..]), at, Zeros(1), Decimal(n));
    }
    var ok;
    ok, next := ToChars(buffer, next, end, n);
    assert n >= 10 ==> Zeros(0) + Decimal(n) == Decimal(n);
  }

  method PutByte(buffer: array<byte>, at: nat, b: byte) returns (next: nat)
    requires at < buffer.Length
    modifies buffer
    ensures next == at + 1 && buffer[..] == Patched(old(buffer[..]), at, [b])
  {
    buffer[at] := b;
    next := at + 1;
  }

  /** The part of a second, filled with zeros on the left up to `end`. */
  method PutFraction(buffer: array<byte>, at: nat, end: nat, n: nat)
    requires at < end <= buffer.Length && n < Pow10(end - at)
    modifies buffer
    ensures |Padded(n, end - at)| == end - at
    ensures buffer[..] == Patched(old(buffer[..]), at, Padded(n, end - at))
  {
    PaddedLength(n, end - at);
    DecimalLength(n, end - at);
    var length := |Decimal(n)|;
    Copy(buffer, at, Zeros(end - at - length));
    PatchedOn(old(buffer[..]), at, Zeros(end - at - length), Decimal(n));
    Copy(buffer, end - length, Decimal(n));
  }

  /** Prints `time` into the buffer at `at`, or returns 0 when `length` is too short. */
  method ToFixFormat(time: nat, buffer: array<byte>, at: nat, length: nat, acc: Accuracy) returns (n: nat)
    requires time < TWO_TO_63 && at + length <= buffer.Length
    modifies buffer
    ensures DateOf(time / NS_PER_DAY).year >= 0
    ensures n == if length < 18 + acc.Places() then 0 else 18 + acc.Places()
    ensures n == 0 ==> buffer[..] == old(buffer[..])
    ensures n > 0 ==> |Text(Split(time, acc), acc)| == n &&
                      buffer[..] == Patched(old(buffer[..]), at, Text(Split(time, acc), acc))
  {
    ClockYears(time);
    TextLength(Split(time, acc), acc);
    if length < 18 + acc.Places() {
      return 0;
    }
    n := 18 + acc.Places();
    PutText(buffer, at, Split(time, acc), acc);
  }

  method PutText(buffer: array<byte>, at: nat, c: Civil, acc: Accuracy)
    requires Valid(c.date) && 1000 <= c.date.year < 10000
    requires c.hour < 24 && c.minute < 60 && c.second < 60 && c.sub < acc.PerSecond()
    requires at + 18 + acc.Places() <= buffer.Length
    modifies buffer
    ensures |Text(c, acc)| == 18 + acc.Places() && buffer[..] == Patched(old(buffer[..]), at, Text(c, acc))
  {
    var end := at + 18 + acc.Places();
    PutDate(buffer, at, end, c.date);
    PutClock(buffer, at + 9, end, c);
    PlacesFit(c, acc);
    PutFraction(buffer, at + 18, end, c.sub);
    PatchesMakeText(old(buffer[..]), at, c, acc);
  }

  lemma PatchesMakeText(was: seq<byte>, at: nat, c: Civil, acc: Accuracy)
    requires Valid(c.date) && 1000 <= c.date.year < 10000 && |DateText(c.date)| == |ClockText(c)| == 9
    requires c.hour < 24 && c.minute < 60 && c.second < 60 && c.sub < acc.PerSecond()
    requires |Padded(c.sub, acc.Places())| == acc.Places() && at + 18 + acc.Places() <= |was|
    ensures |Text(c, acc)| == 18 + acc.Places()
    ensures Patched(Patched(Patched(was, at, DateText(c.date)), at + 9, ClockText(c)), at + 18,
                    Padded(c.sub, acc.Places()))
            == Patched(was, at, Text(c, acc))
  {
    var (d, k, f) := (DateText(c.date), ClockText(c), Padded(c.sub, acc.Places()));
    PatchedOn(was, at, d, k);
    PatchedOn(was, at, d + k, f);
    assert d + k + f == Text(c, acc);
  }

  lemma PlacesFit(c: Civil, acc: Accuracy)
    requires c.sub < acc.PerSecond()
    ensures c.sub < Pow10(acc.Places())
  {
    PowersOfTen();
  }

  function DateText(date: Date): seq<byte>
    requires Valid(date) && date.year >= 0
  {
    Decimal(date.year) + Padded(date.month, 2) + Padded(date.day, 2) + [DASH]
  }

  function ClockText(c: Civil): seq<byte> {
    Padded(c.hour, 2) + [COLON] + Padded(c.minute, 2) + [COLON] + Padded(c.second, 2) + [DOT]
  }

  lemma YearLength(date: Date)
    requires Valid(date) && 1000 <= date.year < 10000
    ensures |Decimal(date.year)| == 4
  {
    PowersOfTen();
    DecimalLength(date.year, 4);
    DecimalLength(date.year, 3);
  }

  method PutDate(buffer: array<byte>, at: nat, end: nat, date: Date)
    requires Valid(date) && 1000 <= date.year < 10000 && at + 9 <= end <= buffer.Length
    modifies buffer
    ensures |DateText(date)| == 9 && buffer[..] == Patched(old(buffer[..]), at, DateText(date))
  {
    YearLength(date);
    ghost var was := buffer[..];
    var ok, next := ToChars(buffer, at, end, date.year);
    ghost var text := Decimal(date.year);
    next := PutTwo(buffer, next, end, date.month);
    PatchedOn(was, at, text, Padded(date.month, 2));
    text := text + Padded(date.month, 2);
    next := PutTwo(buffer, next, end, date.day);
    PatchedOn(was, at, text, Padded(date.day, 2));
    text := text + Padded(date.day, 2);
    next := PutByte(buffer, next, DASH);
    PatchedOn(was, at, text, [DASH]);
  }

  method PutClock(buffer: array<byte>, at: nat, end: nat, c: Civil)
    requires c.hour < 24 && c.minute < 60 && c.second < 60 && at + 9 <= end <= buffer.Length
    modifies buffer
    ensures |ClockText(c)| == 9 && buffer[..] == Patched(old(buffer[..]), at, ClockText(c))
  {
    ghost var was := buffer[..];
    var next := PutTwo(buffer, at, end, c.hour);
    ghost var text := Padded(c.hour, 2);
    next := PutByte(buffer, next, COLON);
    PatchedOn(was, at, text, [COLON]);
    text := text + [COLON];
    next := PutTwo(buffer, next, end, c.minute);
    PatchedOn(was, at, text, Padded(c.minute, 2));
    text := text + Padded(c.minute, 2);
    next := PutByte(buffer, next, COLON);
    PatchedOn(was, at, text, [COLON]);
    text := text + [COLON];
    next := PutTwo(buffer, next, end, c.second);
    PatchedOn(was, at, text, Padded(c.second, 2));
    text := text + Padded(c.second, 2);
    next := PutByte(buffer, next, DOT);
    PatchedOn(was, at, text, [DOT]);
  }

  /** `length` characters as a number, whatever they are. */
  method ToInt(text: seq<byte>, at: nat, length: nat) returns (v: int)
    ensures v == Number(text, at, length)
  {
    v := 0;
    for i := 0 to length
      invariant v == Number(text, at, i)
    {
      NextCharacter(text, at, i);
      v := v * 10 + DigitValue(At(text, at + i));
    }
  }

  lemma {:induction false} NulsAt(n: nat, k: nat)
    requires k < n
    ensures Nuls(n)[k] == 0
    decreases n
  {
    if k < n - 1 { NulsAt(n - 1, k); }
  }

  lemma NextCharacter(text: seq<byte>, at: nat, i: nat)
    ensures Number(text, at, i + 1) == Number(text, at, i) * 10 + DigitValue(At(text, at + i))
  {
    var (s, t) := ((text + Nuls(at + i))[at..at + i], (text + Nuls(at + i + 1))[at..at + i + 1]);
    assert t == s + [At(text, at + i)] by {
      forall k | 0 <= k <= i ensures t[k] == At(text, at + k) {
        if at + k >= |text| { NulsAt(at + i + 1, at + k - |text|); }
      }
      forall k | 0 <= k < i ensures s[k] == At(text, at + k) {
        if at + k >= |text| { NulsAt(at + i, at + k - |text|); }
      }
    }
    ValueSnoc(s, At(text, at + i));
  }

  method FixTimestampToNs(text: seq<byte>) returns (total: nat)
    ensures total == Instant(text)
  {
    var ns := WholeSeconds(text);
    ns := ns * 1_000_000_000;
    var frac := ReadFraction(text);
    ns := ns + frac;
    total := ns % TWO_TO_64;
  }

  method WholeSeconds(text: seq<byte>) returns (seconds: int)
    ensures seconds * NS_PER_SECOND + FractionNs(text) == Nanoseconds(text)
  {
    var year := ToInt(text, 0, 4);
    var month := ToInt(text, 4, 2);
    var day := ToInt(text, 6, 2);
    var hour := ToInt(text, 9, 2);
    var min := ToInt(text, 12, 2);
    var sec := ToInt(text, 15, 2);
    seconds := DaysFromCivil(year, month, day) * 86_400;
    seconds := seconds + hour * 3600;
    seconds := seconds + min * 60;
    seconds := seconds + sec;
  }

  method ReadFraction(text: seq<byte>) returns (frac: nat)
    ensures frac == FractionNs(text)
  {
    if At(text, 17) != DOT {
      return 0;
    }
    var v, digits := ReadDigits(text, 18);
    frac := ScaleUp(v, digits);
  }

  method ReadDigits(text: seq<byte>, at: nat) returns (v: nat, digits: nat)
    ensures v == Value(Fraction(text, at, 9)) && digits == |Fraction(text, at, 9)|
  {
    v, digits := 0, 0;
    var p := at;
    ghost var seen: seq<byte> := [];
    while IsDigit(At(text, p)) && digits < 9
      invariant digits <= 9 && |seen| == digits
      invariant Fraction(text, at, 9) == seen + Fraction(text, p, 9 - digits)
      invariant v == Value(seen)
      decreases 9 - digits
    {
      ValueSnoc(seen, At(text, p));
      v := v * 10 + DigitValue(At(text, p));
      seen := seen + [At(text, p)];
      p, digits := p + 1, digits + 1;
    }
    assert Fraction(text, p, 9 - digits) == [];
    assert seen + [] == seen;
  }

  /** Scales a fraction of fewer than nine digits to nanoseconds. */
  method ScaleUp(v: nat, digits: nat) returns (frac: nat)
    requires digits <= 9
    ensures frac == v * Pow10(9 - digits)
  {
    assert Pow10(0) == 1;
    frac := v;
    for d := digits to 9
      invariant frac == v * Pow10(d - digits)
    {
      assert v * Pow10(d + 1 - digits) == 10 * (v * Pow10(d - digits));
      frac := frac * 10;
    }
  }
}
