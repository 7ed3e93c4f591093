/** One changed byte in a frame outside its body: what is refused, and what is not. */
module FixFrameDamage {
  import opened Common
  import opened Digits
  import opened FixText
  import opened FixFrames
  import opened FixRoundTrip
  import opened FixArrival
  import opened FixDamage

  // ---------------------------------------------------------------- the trailer

  /** Where the trailer of a frame begins. */
  function TrailerAt(body: seq<byte>, w: nat): nat { |Unsummed(body, w)| }

  /** The parser has accepted the frame `s` begins with. */
  predicate Arrived(s: seq<byte>, body: seq<byte>, w: nat) {
    Stands(s, 0, Frame(body, w)) && |body| > 0 && Enough(body, w, |s| - |Frame(body, w)|)
  }

  lemma StillStands(s: seq<byte>, t: seq<byte>, i: nat, p: nat, f: seq<byte>)
    requires Changed(s, t, i) && Stands(s, p, f) && p + |f| <= i
    ensures Stands(t, p, f)
  {
  }

  lemma FrontStands(s: seq<byte>, t: seq<byte>, i: nat, body: seq<byte>, w: nat) returns (p: nat, begin: nat)
    requires Arrived(s, body, w) && Changed(s, t, i) && i >= TrailerAt(body, w)
    ensures p == |Field(8, VERSION)| && begin == p + |Field(9, Padded(|body|, w))| == |Front(|body|, w)|
    ensures Stands(t, 0, Field(8, VERSION)) && Stands(t, p, Field(9, Padded(|body|, w)))
    ensures TrailerAt(body, w) == begin + |body| && begin + |body| + 6 <= |t| && |t| >= 16
  {
    var trailer;
    p, begin, trailer := FrameParts(s, body, w);
    TrailerLength(Checksum(Unsummed(body, w)));
    StillStands(s, t, i, 0, Field(8, VERSION));
    StillStands(s, t, i, p, Field(9, Padded(|body|, w)));
  }

  /** A change behind the body leaves version, length and trailer where they were. */
  lemma TrailerStillRead(s: seq<byte>, t: seq<byte>, i: nat, body: seq<byte>, w: nat, start: nat) returns (begin: nat)
    requires Arrived(s, body, w) && Changed(s, t, i) && i >= TrailerAt(body, w)
    ensures begin == |Front(|body|, w)| && TrailerAt(body, w) == begin + |body| < |t|
    ensures ReadEnvelope(t, start) == ReadTrailer(t, |body|, begin, start)
  {
    var p;
    p, begin := FrontStands(s, t, i, body, w);
    var q := VersionRead(t, start);
    LengthRead(t, p, |body|, w, begin, start);
  }

  /** The bytes of a trailer whose number is the text `v`. */
  predicate TrailerIn(s: seq<byte>, at: nat, v: seq<byte>) {
    && at + |v| + 4 <= |s| && AllDigits(v)
    && s[at] == 49 && s[at + 1] == 48 && s[at + 2] == EQUALS && s[at + 3 + |v|] == SOH
    && s[at + 3..at + 3 + |v|] == v
  }

  /** Where the message ends whose trailer stands at `at` and says `c`. */
  function EndOf(at: nat, c: nat): nat { at + |Decimal(c)| + 4 }

  lemma TrailerIs(c: nat)
    ensures TrailerIn(Trailer(c), 0, Decimal(c)) && |Trailer(c)| == |Decimal(c)| + 4
  {
    assert Decimal(10) == [49, 48];
  }

  lemma TrailerShifts(s: seq<byte>, at: nat, f: seq<byte>, v: seq<byte>)
    requires Stands(s, at, f) && TrailerIn(f, 0, v) && |f| == |v| + 4
    ensures TrailerIn(s, at, v)
  {
    var u := s[at..at + |f|];
    assert s[at] == u[0] && s[at + 1] == u[1] && s[at + 2] == u[2] && s[at + 3 + |v|] == u[3 + |v|];
    forall j | 0 <= j < |v| ensures s[at + 3 + j] == v[j] {
      assert s[at + (3 + j)] == u[3 + j] == f[3..3 + |v|][j];
    }
  }

  /** Where the trailer of an accepted message stands, and what it says. */
  predicate Trailed(s: seq<byte>, n: nat, begin: nat, at: nat, c: nat) {
    at == begin + n && TrailerIn(s, at, Decimal(c)) && c == ByteSum(s[..at]) % 256
  }

  lemma ArrivedIsTrailed(s: seq<byte>, body: seq<byte>, w: nat) returns (begin: nat)
    requires Arrived(s, body, w)
    ensures Trailed(s, |body|, begin, TrailerAt(body, w), Checksum(Unsummed(body, w)))
    ensures begin == |Front(|body|, w)|
    ensures |Frame(body, w)| == EndOf(TrailerAt(body, w), Checksum(Unsummed(body, w)))
  {
    var p, at;
    p, begin, at := FrameParts(s, body, w);
    var c := Checksum(Unsummed(body, w));
    TrailerIs(c);
    TrailerShifts(s, at, Trailer(c), Decimal(c));
  }

  lemma ValueOfPair(a: byte, b: byte)
    ensures Value([a]) == DigitValue(a) && Value([a, b]) == 10 * DigitValue(a) + DigitValue(b)
  {
    assert [a, b][..1] == [a] && [a][..0] == [];
  }

  lemma NotTen(t: seq<byte>, at: nat)
    requires at + 3 <= |t| && t[at + 2] == EQUALS && (t[at] == 49 <==> t[at + 1] != 48)
    ensures GetTag(t, at).Some? && GetTag(t, at).value.value != 10
  {
    var k := if t[at] == EQUALS then at else if t[at + 1] == EQUALS then at + 1 else at + 2;
    FindIs(t, at, EQUALS, k);
    ValueOfPair(t[at], t[at + 1]);
    assert t[at..at] == [] && t[at..at + 1] == [t[at]] && t[at..at + 2] == [t[at], t[at + 1]];
  }

  lemma NoTrailerThere(t: seq<byte>, n: nat, begin: nat, start: nat)
    requires begin + n < |t| && (GetTag(t, begin + n).None? || GetTag(t, begin + n).value.value != 10)
    ensures ReadTrailer(t, n, begin, start) == Bad(TagReadError(10))
  {
  }

  /** Another byte in the tag is no tag 10. */
  lemma TagByteRefused(s: seq<byte>, t: seq<byte>, i: nat, n: nat, begin: nat, at: nat, c: nat, start: nat)
    requires Trailed(s, n, begin, at, c) && Changed(s, t, i) && at <= i < at + 2
    ensures ReadTrailer(t, n, begin, start) == Bad(TagReadError(10))
  {
    NotTen(t, at);
    NoTrailerThere(t, n, begin, start);
  }

  // ---------------------------------------------------------------- the checksum's digits

  /** Less of a number's digits is a smaller number. */
  lemma {:induction false} ShortenedIsLess(c: nat, j: nat)
    requires j < |Decimal(c)|
    ensures 0 <= Value(Decimal(c)[..j]) <= c / 10
  {
    if c >= 10 {
      var d := Decimal(c / 10);
      assert Decimal(c)[..j] == d[..j];
      if j < |d| { ShortenedIsLess(c / 10, j); } else { assert d[..j] == d; ValueOfDecimal(c / 10); }
    }
  }

  lemma {:induction false} OtherValue(v: seq<byte>, u: seq<byte>, i: nat)
    requires Changed(v, u, i)
    ensures Value(u) != Value(v)
  {
    var n := |v| - 1;
    if i == n {
      assert v[..n] == u[..n];
    } else {
      OtherValue(v[..n], u[..n], i);
    }
  }

  lemma BytesOf(s: seq<byte>, q: nat, v: seq<byte>, j: nat)
    requires q + |v| <= |s| && s[q..q + |v|] == v && q <= j < q + |v|
    ensures s[j] == v[j - q]
  {
  }

  /** Cut short by a separator among its digits, a number is another one, unless it is a lone 0. */
  lemma CutNumber(s: seq<byte>, t: seq<byte>, i: nat, q: nat, c: nat, v: seq<byte>)
    requires v == Decimal(c) && q + |v| <= |s| && s[q..q + |v|] == v
    requires Changed(s, t, i) && q <= i < q + |v| && t[i] == SOH
    ensures GetInt(t, q).Some? && GetInt(t, q).value.next == i + 1 && (GetInt(t, q).value.value == c <==> c == 0)
  {
    forall j | q <= j < i ensures t[j] != SOH { BytesOf(s, q, v, j); }
    FindIs(t, q, SOH, i);
    assert t[q..i] == s[q..q + |v|][..i - q];
    ShortenedIsLess(c, i - q);
    if c == 0 { assert v[..i - q] == []; }
  }

  /** With another byte among its digits, it is another one. */
  lemma OtherNumber(s: seq<byte>, t: seq<byte>, i: nat, q: nat, c: nat, v: seq<byte>)
    requires v == Decimal(c) && q + |v| < |s| && s[q..q + |v|] == v && s[q + |v|] == SOH
    requires Changed(s, t, i) && q <= i < q + |v| && t[i] != SOH
    ensures GetInt(t, q).Some? && GetInt(t, q).value.value != c
  {
    var u := t[q..q + |v|];
    forall j | q <= j < q + |v| ensures t[j] != SOH && (j != i ==> t[j] == v[j - q]) { BytesOf(s, q, v, j); }
    FindIs(t, q, SOH, q + |v|);
    BytesOf(s, q, v, i);
    forall j | 0 <= j < |v| && j != i - q ensures u[j] == v[j] { assert t[q + j] == v[q + j - q]; }
    OtherValue(v, u, i - q);
    ValueOfDecimal(c);
  }

  lemma TagOfTrailer(t: seq<byte>, at: nat)
    requires at + 3 <= |t| && t[at] == 49 && t[at + 1] == 48 && t[at + 2] == EQUALS
    ensures GetTag(t, at) == Some(Got(10, at + 3))
  {
    FindIs(t, at, EQUALS, at + 2);
    assert t[at..at + 2] == [49, 48];
    ValueOfPair(49, 48);
  }

  lemma TrailerSays(t: seq<byte>, n: nat, begin: nat, start: nat)
    requires begin + n < |t| && GetTag(t, begin + n).Some? && GetTag(t, begin + n).value.value == 10
    ensures var number := GetInt(t, GetTag(t, begin + n).value.next);
            var r := ReadTrailer(t, n, begin, start);
            match number
            case None => r == Bad(TagValueReadError(10))
            case Some(Got(c, total)) =>
              if ByteSum(t[..begin + n]) % 256 != c then r == Bad(IncorrectTagValue(10))
              else r == Good(Envelope(n, begin, begin + n, c, total))
  {
  }

  lemma SumStays(s: seq<byte>, t: seq<byte>, i: nat, at: nat)
    requires Changed(s, t, i) && at <= i
    ensures s[..at] == t[..at]
  {
  }

  /** Another byte in the checksum is a wrong checksum, with one exception: a lone 0 that becomes a
      separator leaves an empty number, which is read as 0. */
  lemma DigitRefusedIff(s: seq<byte>, t: seq<byte>, i: nat, n: nat, begin: nat, at: nat, c: nat, start: nat)
    requires Trailed(s, n, begin, at, c) && Changed(s, t, i) && at + 3 <= i < at + 3 + |Decimal(c)|
    ensures ReadTrailer(t, n, begin, start)
            == if c == 0 && t[i] == SOH then Good(Envelope(n, begin, at, 0, at + 4)) else Bad(IncorrectTagValue(10))
  {
    TagOfTrailer(t, at);
    SumStays(s, t, i, at);
    if t[i] == SOH { CutNumber(s, t, i, at + 3, c, Decimal(c)); } else { OtherNumber(s, t, i, at + 3, c, Decimal(c)); }
    TrailerSays(t, n, begin, start);
  }

  // ---------------------------------------------------------------- a frame in a stream of messages

  /** How every message begins: 8=FIX.4.4 and a separator. */
  const OPENING: seq<byte> := [56, EQUALS, 70, 73, 88, 46, 52, 46, 52, SOH]

  /** From `e` on there is nothing, the next message, or as much of it as is there. */
  predicate Continues(s: seq<byte>, e: nat) {
    e <= |s| && forall j :: e <= j < |s| && j < e + 10 ==> s[j] == OPENING[j - e]
  }

  lemma DigitsNeither(s: seq<byte>, q: nat, v: seq<byte>)
    requires AllDigits(v) && q + |v| <= |s| && s[q..q + |v|] == v
    ensures forall j :: q <= j < q + |v| ==> s[j] != SOH && s[j] != EQUALS
  {
    forall j | q <= j < q + |v| ensures s[j] != SOH && s[j] != EQUALS { BytesOf(s, q, v, j); }
  }

  lemma EndsInEight(t: seq<byte>, at: nat, k: nat)
    requires at < k < |t| && t[k - 1] == 56
    ensures Value(t[at..k]) != 10
  {
    assert t[at..k] == t[at..k - 1] + [56];
    ValueSnoc(t[at..k - 1], 56);
  }

  /** Without its equals sign the trailer runs into the next message's tag, which ends in an 8. */
  lemma SignRefused(s: seq<byte>, t: seq<byte>, n: nat, begin: nat, at: nat, c: nat, start: nat)
    requires Trailed(s, n, begin, at, c) && Continues(s, EndOf(at, c)) && Changed(s, t, at + 2)
    ensures ReadTrailer(t, n, begin, start) == Bad(TagReadError(10))
  {
    var e := EndOf(at, c);
    DigitsNeither(s, at + 3, Decimal(c));
    if |s| <= e + 1 {
      FindIs(t, at, EQUALS, |t|);
    } else {
      FindIs(t, at, EQUALS, e + 1);
      EndsInEight(t, at, e + 1);
    }
    NoTrailerThere(t, n, begin, start);
  }

  /** Three bytes more on a number. */
  lemma ThreeMore(v: seq<byte>, x: byte, y: byte, z: byte)
    ensures Value(v + [x, y, z]) == 1000 * Value(v) + 100 * DigitValue(x) + 10 * DigitValue(y) + DigitValue(z)
  {
    assert v + [x, y, z] == v + [x] + [y] + [z];
    ValueSnoc(v, x);
    ValueSnoc(v + [x], y);
    ValueSnoc(v + [x] + [y], z);
  }

  /** A number that runs on into 8=FIX.4.4 is no checksum. */
  lemma RunsOn(v: seq<byte>, c: nat)
    requires c < 256
    ensures Value(v + [56, EQUALS, 70] + [73, 88, 46] + [52, 46, 52]) != c
  {
    ThreeMore(v, 56, EQUALS, 70);
    ThreeMore(v + [56, EQUALS, 70], 73, 88, 46);
    ThreeMore(v + [56, EQUALS, 70] + [73, 88, 46], 52, 46, 52);
  }

  lemma RunningOn(t: seq<byte>, q: nat, e: nat, c: nat)
    requires q <= e && e + 9 < |t| && (forall j :: e <= j < e + 10 ==> t[j] == OPENING[j - e]) && c < 256
    ensures Value(t[q..e + 9]) != c
  {
    RunsOn(t[q..e], c);
    assert t[q..e + 9] == t[q..e] + [56, EQUALS, 70] + [73, 88, 46] + [52, 46, 52];
  }

  /** Without its last separator the checksum runs on into the next message. */
  lemma EndRefused(s: seq<byte>, t: seq<byte>, n: nat, begin: nat, at: nat, c: nat, start: nat)
    requires Trailed(s, n, begin, at, c) && Continues(s, EndOf(at, c)) && Changed(s, t, EndOf(at, c) - 1)
    ensures ReadTrailer(t, n, begin, start).Bad?
  {
    var e := EndOf(at, c);
    TagOfTrailer(t, at);
    DigitsNeither(s, at + 3, Decimal(c));
    SumStays(s, t, e - 1, at);
    if |s| <= e + 9 {
      FindIs(t, at + 3, SOH, |t|);
    } else {
      FindIs(t, at + 3, SOH, e + 9);
      RunningOn(t, at + 3, e, c);
    }
    TrailerSays(t, n, begin, start);
  }

  /** Of the changes in the trailer of a message followed by others, exactly one passes: that of a lone 0
      into a separator. */
  lemma TrailerIsGuardedIff(s: seq<byte>, t: seq<byte>, i: nat, n: nat, begin: nat, at: nat, c: nat, start: nat)
    requires Trailed(s, n, begin, at, c) && Continues(s, EndOf(at, c)) && Changed(s, t, i)
    requires at <= i < EndOf(at, c)
    ensures ReadTrailer(t, n, begin, start).Good? <==> c == 0 && i == at + 3 && t[i] == SOH
  {
    if i < at + 2 { TagByteRefused(s, t, i, n, begin, at, c, start); }
    else if i == at + 2 { SignRefused(s, t, n, begin, at, c, start); }
    else if i == EndOf(at, c) - 1 { EndRefused(s, t, n, begin, at, c, start); }
    else { DigitRefusedIff(s, t, i, n, begin, at, c, start); }
  }

  lemma FrontIsGuarded(s: seq<byte>, t: seq<byte>, i: nat, body: seq<byte>, w: nat, start: nat)
    requires Arrived(s, body, w) && Changed(s, t, i) && i < TrailerAt(body, w)
    ensures ReadEnvelope(t, start).Good? ==> ReadEnvelope(t, start).envelope.trailer != TrailerAt(body, w)
  {
    EnvelopeRead(s, start, body, w);
    RefusedOrEndsElsewhere(s, t, i, start);
  }

  /** The frames of a stream follow each other so. */
  lemma FramesContinue(f: seq<byte>, body: seq<byte>, w: nat, more: seq<byte>)
    ensures Continues(f, |f|) && Continues(f + Frame(body, w) + more, |f|)
  {
    assert Decimal(8) == [56];
    assert OPENING == Field(8, VERSION);
    assert Frame(body, w)[..10] == OPENING;
  }

  /** Of a frame in a stream of messages no single byte changes unnoticed, except that a lone 0 for a
      checksum can become a separator, and that before the trailer a change can make the message end at
      another trailer, one that happens to stand and to fit there. */
  lemma FrameIsGuarded(s: seq<byte>, t: seq<byte>, i: nat, body: seq<byte>, w: nat, start: nat)
    requires Arrived(s, body, w) && Continues(s, |Frame(body, w)|) && Changed(s, t, i) && i < |Frame(body, w)|
    ensures var at, e := TrailerAt(body, w), ReadEnvelope(t, start);
            if i < at then e.Good? ==> e.envelope.trailer != at
            else e.Good? <==> Checksum(Unsummed(body, w)) == 0 && i == at + 3 && t[i] == SOH
  {
    var at, c := TrailerAt(body, w), Checksum(Unsummed(body, w));
    if i < at {
      FrontIsGuarded(s, t, i, body, w, start);
    } else {
      var begin := ArrivedIsTrailed(s, body, w);
      begin := TrailerStillRead(s, t, i, body, w, start);
      TrailerIsGuardedIff(s, t, i, |body|, begin, at, c, start);
    }
  }

  /** In the checksum of a frame, whatever follows it, the one change that goes unnoticed is that of a
      lone 0 into a separator: the message then ends a byte early. */
  lemma ChecksumIsGuardedUnlessZero(s: seq<byte>, t: seq<byte>, i: nat, body: seq<byte>, w: nat, start: nat)
    requires Arrived(s, body, w) && Changed(s, t, i) && TrailerAt(body, w) + 3 <= i < |Frame(body, w)| - 1
    ensures var e := ReadEnvelope(t, start);
            if Checksum(Unsummed(body, w)) == 0 && t[i] == SOH
            then e.Good? && e.envelope.total == |Frame(body, w)| - 1
            else e == Bad(IncorrectTagValue(10))
  {
    var at, c := TrailerAt(body, w), Checksum(Unsummed(body, w));
    var begin := ArrivedIsTrailed(s, body, w);
    begin := TrailerStillRead(s, t, i, body, w, start);
    DigitRefusedIff(s, t, i, |body|, begin, at, c, start);
  }

  // ---------------------------------------------------------------- changes that go unnoticed

  /** A frame with the checksum 0: 8=FIX.4.4 9=000011 35=0 58=bc 10=0. */
  const ZERO_BODY: seq<byte> := Field(35, [HEART_BEAT]) + Field(58, [98, 99])

  const ZERO_FRONT: seq<byte> :=
    [56, EQUALS, 70, 73] + [88, 46, 52, 46] + [52, SOH, 57, EQUALS] + [48, 48, 48, 48] + [49, 49, SOH]

  lemma TwoBytes(a: byte, b: byte)
    ensures ByteSum([a, b]) == a + b
  {
    assert [a, b][..1] == [a] && [a][..0] == [];
    assert ByteSum([a]) == a;
  }

  lemma ThreeBytes(a: byte, b: byte, c: byte)
    ensures ByteSum([a, b, c]) == a + b + c
  {
    assert [a, b, c][..2] == [a, b];
    TwoBytes(a, b);
  }

  lemma ZeroFrontIs()
    ensures Front(11, 6) == ZERO_FRONT && |ZERO_FRONT| == 19
  {
    assert Decimal(9) == [57] && Decimal(8) == [56] && Decimal(11) == [49, 49];
  }

  lemma ZeroFrontSum()
    ensures ByteSum(ZERO_FRONT) == 954
  {
    ByteSumOf([56, EQUALS, 70, 73] + [88, 46, 52, 46] + [52, SOH, 57, EQUALS] + [48, 48, 48, 48], [49, 49, SOH]);
    ByteSumOf([56, EQUALS, 70, 73] + [88, 46, 52, 46] + [52, SOH, 57, EQUALS], [48, 48, 48, 48]);
    ByteSumOf([56, EQUALS, 70, 73] + [88, 46, 52, 46], [52, SOH, 57, EQUALS]);
    ByteSumOf([56, EQUALS, 70, 73], [88, 46, 52, 46]);
    FourBytes(56, EQUALS, 70, 73);
    FourBytes(88, 46, 52, 46);
    FourBytes(52, SOH, 57, EQUALS);
    FourBytes(48, 48, 48, 48);
    ThreeBytes(49, 49, SOH);
  }

  lemma ZeroBodySum()
    ensures |ZERO_BODY| == 11 && ByteSum(ZERO_BODY) == 582
  {
    assert Decimal(35) == [51, 53] && Decimal(58) == [53, 56];
    assert ZERO_BODY == [51, 53, EQUALS] + [48, SOH] + ([53, 56, EQUALS] + [98, 99, SOH]);
    ByteSumOf([51, 53, EQUALS] + [48, SOH], [53, 56, EQUALS] + [98, 99, SOH]);
    ByteSumOf([51, 53, EQUALS], [48, SOH]);
    ByteSumOf([53, 56, EQUALS], [98, 99, SOH]);
    ThreeBytes(51, 53, EQUALS);
    TwoBytes(48, SOH);
    ThreeBytes(53, 56, EQUALS);
    ThreeBytes(98, 99, SOH);
  }

  lemma ZeroFrame()
    ensures |ZERO_BODY| == 11 && |Front(11, 6)| == 19 && Checksum(Unsummed(ZERO_BODY, 6)) == 0
    ensures Decimal(0) == [48] && |Frame(ZERO_BODY, 6)| == 35
  {
    ZeroFrontIs();
    ZeroFrontSum();
    ZeroBodySum();
    ByteSumOf(ZERO_FRONT, ZERO_BODY);
    TrailerLength(0);
  }

  /** Its checksum turned into a separator, with the next message's first byte behind it. */
  lemma ZeroChecksumPasses(next: byte, start: nat)
    ensures var s := Frame(ZERO_BODY, 6) + [next];
            && |s| == 36 && ReadEnvelope(s[33 := SOH], start).Good?
            && ReadEnvelope(s[33 := SOH], start).envelope.total == 34
  {
    ZeroFrame();
    var s := Frame(ZERO_BODY, 6) + [next];
    var begin := ArrivedIsTrailed(s, ZERO_BODY, 6);
    assert s[33..34] == [48];
    assert s[33] == s[33..34][0] == 48;
    ChecksumIsGuardedUnlessZero(s, s[33 := SOH], 33, ZERO_BODY, 6, start);
  }

  lemma DigitOfFront(n: nat, w: nat) returns (pre: seq<byte>)
    requires n < 10 && w > 0
    ensures pre == Field(8, VERSION) + Decimal(9) + [EQUALS] + Zeros(w - 1) && Front(n, w) == pre + [48 + n] + [SOH]
  {
    pre := Field(8, VERSION) + Decimal(9) + [EQUALS] + Zeros(w - 1);
    assert Padded(n, w) == Zeros(w - 1) + [48 + n];
  }

  lemma OneByteApart(pre: seq<byte>, x: byte, y: byte, more: seq<byte>, rest: seq<byte>)
    requires x != y
    ensures Changed(pre + [x] + more + rest, pre + [y] + more + rest, |pre|)
  {
  }

  lemma OneDigitApart(n: nat, w: nat, rest: seq<byte>) returns (i: nat)
    requires 0 < n < 10 && w > 0
    ensures Changed(Front(n, w) + rest, Front(0, w) + rest, i)
  {
    var pre := DigitOfFront(n, w);
    var pre' := DigitOfFront(0, w);
    i := |pre|;
    OneByteApart(pre, 48 + n, 48, [SOH], rest);
  }

  /** A message whose body is itself a trailer with the right number: with one digit of the length
      changed to 0 the parser ends it there. */
  lemma LengthChangePasses(w: nat, inner: seq<byte>, rest: seq<byte>, more: seq<byte>, start: nat) returns (i: nat)
    requires w > 0 && more != [] && inner == Trailer(Checksum(Front(0, w)))
    requires rest == inner + Trailer(Checksum(Unsummed(inner, w))) + more
    ensures var s, t := Front(|inner|, w) + rest, Front(0, w) + rest;
            && Changed(s, t, i)
            && ReadEnvelope(s, start).Good? && ReadEnvelope(s, start).envelope.total == |Frame(inner, w)|
            && ReadEnvelope(t, start).Good? && ReadEnvelope(t, start).envelope.total == |Frame([], w)|
  {
    TrailerLength(Checksum(Front(0, w)));
    i := OneDigitApart(|inner|, w, rest);
    InnerBodyRead(Front(|inner|, w) + rest, w, inner, more, start);
    EmptyBodyStands(w, inner, rest, Trailer(Checksum(Unsummed(inner, w))), more, start);
  }

  lemma EmptyBodyStands(w: nat, inner: seq<byte>, rest: seq<byte>, trailer: seq<byte>, more: seq<byte>, start: nat)
    requires inner == Trailer(Checksum(Front(0, w))) && rest == inner + trailer + more && |trailer| >= 5 && more != []
    ensures ReadEnvelope(Front(0, w) + rest, start).Good?
    ensures ReadEnvelope(Front(0, w) + rest, start).envelope.total == |Frame([], w)|
  {
    assert Front(0, w) + rest == Front(0, w) + inner + (trailer + more);
    EmptyBodyRead(Front(0, w) + rest, w, trailer + more, start);
  }

  lemma InnerBodyRead(s: seq<byte>, w: nat, inner: seq<byte>, more: seq<byte>, start: nat)
    requires more != [] && inner != []
    requires s == Front(|inner|, w) + (inner + Trailer(Checksum(Unsummed(inner, w))) + more)
    ensures ReadEnvelope(s, start).Good? && ReadEnvelope(s, start).envelope.total == |Frame(inner, w)|
  {
    assert s == Frame(inner, w) + more;
    EnvelopeRead(s, start, inner, w);
  }

  lemma EmptyBodyRead(t: seq<byte>, w: nat, behind: seq<byte>, start: nat)
    requires t == Front(0, w) + Trailer(Checksum(Front(0, w))) + behind && |behind| > 5
    ensures ReadEnvelope(t, start).Good? && ReadEnvelope(t, start).envelope.total == |Frame([], w)|
  {
    assert Unsummed([], w) == Front(0, w);
    var c := Checksum(Front(0, w));
    assert Stands(t, 0, Frame([], w));
    var p, begin, trailer := FrameParts(t, [], w);
    TrailerLength(c);
    var q := VersionRead(t, start);
    LengthRead(t, p, 0, w, begin, start);
    TrailerRead(t, 0, begin, trailer, c, start);
  }
}
