/** A finished frame, and that header and body parsing give back what was put into it. */
module FixRoundTrip {
  import opened Common
  import opened Digits
  import opened FixText
  import opened FixFrames
  import opened Timestamp
  import Calendar

  // ---------------------------------------------------------------- frames

  /** Version and body length. */
  function Front(length: nat, width: nat): seq<byte> { Field(8, VERSION) + Field(9, Padded(length, width)) }

  /** All that the checksum covers. */
  function Unsummed(body: seq<byte>, width: nat): seq<byte> { Front(|body|, width) + body }

  function Checksum(text: seq<byte>): (c: nat)
    ensures c < 256
  {
    ByteSum(text) % 256
  }

  /** The trailer, with the checksum in as few digits as it needs. */
  function Trailer(checksum: nat): seq<byte> { Field(10, Decimal(checksum)) }

  function Frame(body: seq<byte>, width: nat): seq<byte> {
    Unsummed(body, width) + Trailer(Checksum(Unsummed(body, width)))
  }

  lemma VersionRead(s: seq<byte>, start: nat) returns (q: nat)
    requires |s| >= 16 && Stands(s, 0, Field(8, VERSION))
    ensures q == |Field(8, VERSION)| <= |s| && ReadEnvelope(s, start) == ReadLength(s, q, start)
  {
    var p := TextField(s, 0, 8, VERSION, 20);
    q := |Field(8, VERSION)|;
  }

  lemma LengthField(s: seq<byte>, p: nat, q: nat, n: nat, begin: nat, start: nat)
    requires p < q < begin <= |s| && GetTag(s, p) == Some(Got(9, q)) && GetInt(s, q) == Some(Got(n, begin))
    ensures ReadLength(s, p, start)
            == if n + 6 > |s| - begin then Bad(NotComplete) else ReadTrailer(s, n, begin, start)
  {
  }

  lemma LengthRead(s: seq<byte>, p: nat, n: nat, width: nat, begin: nat, start: nat)
    requires Stands(s, p, Field(9, Padded(n, width))) && begin == p + |Field(9, Padded(n, width))|
    ensures begin <= |s|
    ensures ReadLength(s, p, start)
            == if n + 6 > |s| - begin then Bad(NotComplete) else ReadTrailer(s, n, begin, start)
  {
    var q := IntField(s, p, 9, n, width);
    LengthField(s, p, q, n, begin, start);
  }

  lemma TrailerRead(s: seq<byte>, n: nat, begin: nat, trailer: nat, c: nat, start: nat)
    requires trailer == begin + n && Stands(s, trailer, Trailer(c)) && c == ByteSum(s[..trailer]) % 256
    ensures ReadTrailer(s, n, begin, start) == Good(Envelope(n, begin, trailer, c, trailer + |Trailer(c)|))
  {
    assert Padded(c, 0) == Decimal(c);
    var q := IntField(s, trailer, 10, c, 0);
  }

  lemma TrailerLength(c: nat)
    requires c < 256
    ensures |Trailer(c)| == (if c < 10 then 5 else if c < 100 then 6 else 7)
  {
    DecimalLength(c, 1);
    DecimalLength(c, 2);
    DecimalLength(c, 3);
    assert Pow10(0) == 1 && Pow10(1) == 10 && Pow10(2) == 100 && Pow10(3) == 1000;
    assert |Decimal(10)| == 2;
  }

  /** Where the parts of a frame stand. */
  lemma FrameParts(s: seq<byte>, body: seq<byte>, width: nat) returns (p: nat, begin: nat, trailer: nat)
    requires Stands(s, 0, Frame(body, width))
    ensures p == |Field(8, VERSION)| && begin == p + |Field(9, Padded(|body|, width))| == |Front(|body|, width)|
    ensures trailer == begin + |body| == |Unsummed(body, width)|
    ensures Stands(s, 0, Field(8, VERSION)) && Stands(s, p, Field(9, Padded(|body|, width))) && Stands(s, begin, body)
    ensures s[..trailer] == Unsummed(body, width)
    ensures Stands(s, trailer, Trailer(Checksum(Unsummed(body, width))))
  {
    trailer := Parts(s, 0, Unsummed(body, width), Trailer(Checksum(Unsummed(body, width))));
    begin := Parts(s, 0, Front(|body|, width), body);
    p := Parts(s, 0, Field(8, VERSION), Field(9, Padded(|body|, width)));
  }

  /** The parser finds the parts of a frame, unless the trailer is the shortest possible and nothing
      follows it: then it keeps waiting for a sixth byte. */
  lemma EnvelopeRead(s: seq<byte>, start: nat, body: seq<byte>, width: nat)
    requires Stands(s, 0, Frame(body, width)) && |body| > 0
    ensures var c := Checksum(Unsummed(body, width));
            var total := |Frame(body, width)|;
            ReadEnvelope(s, start) == if c < 10 && |s| == total then Bad(NotComplete)
                                      else Good(Envelope(|body|, |Front(|body|, width)|, |Unsummed(body, width)|, c,
                                                         total))
  {
    var c := Checksum(Unsummed(body, width));
    var p, begin, trailer := FrameParts(s, body, width);
    TrailerLength(c);
    assert trailer + |Trailer(c)| == |Frame(body, width)| <= |s|;
    var q := VersionRead(s, start);
    LengthRead(s, p, |body|, width, begin, start);
    if |body| + 6 <= |s| - begin { TrailerRead(s, |body|, begin, trailer, c, start); }
  }

  // ---------------------------------------------------------------- header

  predicate HeaderTag(tag: int) { tag == 35 || tag == 52 || tag == 49 || tag == 56 || tag == 34 || Skipped(tag) }

  /** The first field that is none of its own ends the header. */
  lemma HeaderStops(s: seq<byte>, p: nat, tag: nat, v: seq<byte>, h: Header)
    requires Stands(s, p, Field(tag, v)) && Plain(v) && !HeaderTag(tag)
    ensures HeaderTags(s, p, h) == Parsed(Success, h, p)
  {
    var q, e := FieldAt(s, p, tag, v);
  }

  lemma HeaderChained(s: seq<byte>, p: nat, q: nat, m: Sent, w34: nat, time: seq<byte>, h: Header)
    requires Sendable(m) && Plain(time) && |time| < 40 && Stands(s, p, HeaderText(m, w34, time))
    requires q == p + |HeaderText(m, w34, time)|
    ensures q <= |s| && HeaderTags(s, p, h) == HeaderTags(s, q, Received(m, Instant(time), h.total))
  {
    var q' := HeaderTagsRead(s, p, m, w34, time, h);
  }

  lemma HeaderFilled(s: seq<byte>, p: nat, m: Sent, w34: nat, time: seq<byte>, h: Header, tag: nat, v: seq<byte>)
      returns (q: nat)
    requires Sendable(m) && Plain(time) && |time| < 40 && Plain(v) && !HeaderTag(tag)
    requires Stands(s, p, HeaderText(m, w34, time)) && Stands(s, p + |HeaderText(m, w34, time)|, Field(tag, v))
    ensures q == p + |HeaderText(m, w34, time)|
    ensures HeaderTags(s, p, h) == Parsed(Success, Received(m, Instant(time), h.total), q)
  {
    q := p + |HeaderText(m, w34, time)|;
    HeaderChained(s, p, q, m, w34, time, h);
    HeaderStops(s, q, tag, v, Received(m, Instant(time), h.total));
  }

  lemma HeaderBegins(s: seq<byte>, start: nat, body: seq<byte>, width: nat, was: Header) returns (begin: nat)
    requires Stands(s, 0, Frame(body, width)) && |body| > 0
    ensures begin == |Front(|body|, width)| && Stands(s, begin, body)
    ensures Stands(s, |Unsummed(body, width)|, Trailer(Checksum(Unsummed(body, width))))
    ensures ParseHeader(s, was, start)
            == if Checksum(Unsummed(body, width)) < 10 && |s| == |Frame(body, width)| then Parsed(NotComplete, was, 0)
               else HeaderTags(s, begin, Reset(was, |Frame(body, width)|))
  {
    var p, trailer;
    p, begin, trailer := FrameParts(s, body, width);
    EnvelopeRead(s, start, body, width);
    assert begin < |s|;
  }

  // ---------------------------------------------------------------- Logon

  lemma SignedIsPlain(n: int)
    ensures Plain(Signed(n))
  {
  }

  /** A minus sign is read as a digit, of value -3. */
  lemma {:induction false} MinusThen(s: seq<byte>)
    ensures Value([MINUS] + s) == Value(s) - 3 * Pow10(|s|)
  {
    if s == [] {
      assert [MINUS] + s == [] + [MINUS];
      ValueSnoc([], DASH);
      assert Pow10(0) == 1;
    } else {
      var t := s[..|s| - 1];
      MinusThen(t);
      assert [MINUS] + s == ([MINUS] + t) + [s[|s| - 1]];
      ValueSnoc([MINUS] + t, s[|s| - 1]);
    }
  }

  /** A printed number is read back exactly when it is not negative. */
  lemma SignedReads(n: int)
    ensures Value(Signed(n)) == n <==> n >= 0
  {
    if n >= 0 {
      ValueOfDecimal(n);
    } else {
      var s := Decimal(-n);
      MinusThen(s);
      ValueOfDecimal(-n);
      ValueBound(s);
    }
  }

  /** A Logon without credentials. */
  datatype Logon = Logon(resetSeqNum: bool, encryptMethod: int, heartBeat: nat)

  function FlagByte(yes: bool): byte { if yes then 89 else 78 }

  function LogonText(l: Logon): seq<byte> {
    Field(141, [FlagByte(l.resetSeqNum)]) + Field(98, Signed(l.encryptMethod)) + Field(108, Decimal(l.heartBeat))
  }

  function LogonReceived(l: Logon): LogonBody {
    LogonBody(if l.resetSeqNum then Yes else No, l.heartBeat, 0, Value(Signed(l.encryptMethod)))
  }

  lemma LogonGoesOn(s: seq<byte>, p: nat, l: LogonBody, l': LogonBody, next: nat)
    requires p <= |s| && LogonTurn(s, p, l) == More(l', next)
    ensures next <= |s| && LogonTags(s, p, l) == LogonTags(s, next, l')
  {
  }

  lemma FlagStep(s: seq<byte>, p: nat, yes: bool, l: LogonBody, next: nat)
    requires Stands(s, p, Field(141, [FlagByte(yes)])) && next == p + |Field(141, [FlagByte(yes)])|
    ensures next <= |s| && LogonTags(s, p, l) == LogonTags(s, next, l.(resetSeqNum := if yes then Yes else No))
  {
    var q := CharField(s, p, 141, FlagByte(yes));
    LogonGoesOn(s, p, l, l.(resetSeqNum := if yes then Yes else No), next);
  }

  lemma EncryptStep(s: seq<byte>, p: nat, v: seq<byte>, l: LogonBody, next: nat)
    requires Stands(s, p, Field(98, v)) && Plain(v) && next == p + |Field(98, v)|
    ensures next <= |s| && LogonTags(s, p, l) == LogonTags(s, next, l.(encryptMethod := Value(v)))
  {
    var q := NumberField(s, p, 98, v);
    LogonGoesOn(s, p, l, l.(encryptMethod := Value(v)), next);
  }

  lemma IntervalStep(s: seq<byte>, p: nat, v: seq<byte>, l: LogonBody, next: nat)
    requires Stands(s, p, Field(108, v)) && Plain(v) && next == p + |Field(108, v)|
    ensures next <= |s| && LogonTags(s, p, l) == LogonTags(s, next, l.(heartBeat := Value(v)))
  {
    var q := NumberField(s, p, 108, v);
    LogonGoesOn(s, p, l, l.(heartBeat := Value(v)), next);
  }

  lemma LogonStops(s: seq<byte>, p: nat, c: nat, l: LogonBody)
    requires Stands(s, p, Trailer(c))
    ensures p <= |s| && LogonTags(s, p, l) == Parsed(Success, l, p)
  {
    var q, e := FieldAt(s, p, 10, Decimal(c));
  }

  lemma LogonParts(s: seq<byte>, p: nat, l: Logon, q: nat) returns (p2: nat, p3: nat)
    requires Stands(s, p, LogonText(l)) && q == p + |LogonText(l)|
    ensures p2 == p + |Field(141, [FlagByte(l.resetSeqNum)])| && p3 == p2 + |Field(98, Signed(l.encryptMethod))|
    ensures q == p3 + |Field(108, Decimal(l.heartBeat))|
    ensures Stands(s, p, Field(141, [FlagByte(l.resetSeqNum)])) && Stands(s, p2, Field(98, Signed(l.encryptMethod)))
    ensures Stands(s, p3, Field(108, Decimal(l.heartBeat)))
  {
    var f1, f2 := Field(141, [FlagByte(l.resetSeqNum)]), Field(98, Signed(l.encryptMethod));
    p3 := Parts(s, p, f1 + f2, Field(108, Decimal(l.heartBeat)));
    p2 := Parts(s, p, f1, f2);
  }

  lemma LogonChain(s: seq<byte>, p: nat, p2: nat, p3: nat, q: nat, yes: bool, method': seq<byte>,
                   interval: seq<byte>, c: nat)
    requires Stands(s, p, Field(141, [FlagByte(yes)])) && p2 == p + |Field(141, [FlagByte(yes)])|
    requires Stands(s, p2, Field(98, method')) && Plain(method') && p3 == p2 + |Field(98, method')|
    requires Stands(s, p3, Field(108, interval)) && Plain(interval) && q == p3 + |Field(108, interval)|
    requires Stands(s, q, Trailer(c))
    ensures LogonTags(s, p, NO_LOGON)
            == Parsed(Success, LogonBody(if yes then Yes else No, Value(interval), 0, Value(method')), q)
  {
    var l1 := NO_LOGON.(resetSeqNum := if yes then Yes else No);
    var l2 := l1.(encryptMethod := Value(method'));
    FlagStep(s, p, yes, NO_LOGON, p2);
    EncryptStep(s, p2, method', l1, p3);
    IntervalStep(s, p3, interval, l2, q);
    LogonStops(s, q, c, l2.(heartBeat := Value(interval)));
  }

  lemma LogonTagsRead(s: seq<byte>, p: nat, l: Logon, c: nat, q: nat)
    requires Stands(s, p, LogonText(l)) && q == p + |LogonText(l)| && Stands(s, q, Trailer(c))
    ensures LogonTags(s, p, NO_LOGON) == Parsed(Success, LogonReceived(l), q)
  {
    var p2, p3 := LogonParts(s, p, l, q);
    SignedIsPlain(l.encryptMethod);
    ValueOfDecimal(l.heartBeat);
    LogonChain(s, p, p2, p3, q, l.resetSeqNum, Signed(l.encryptMethod), Decimal(l.heartBeat), c);
  }

  /** The payload of a frame and what ends it. */
  lemma PayloadParts(s: seq<byte>, head: seq<byte>, payload: seq<byte>, width: nat) returns (begin: nat, p: nat, q: nat)
    requires Stands(s, 0, Frame(head + payload, width))
    ensures begin == |Front(|head + payload|, width)| && p == begin + |head| && q == p + |payload|
    ensures q == |Unsummed(head + payload, width)|
    ensures Stands(s, begin, head) && Stands(s, p, payload)
    ensures Stands(s, q, Trailer(Checksum(Unsummed(head + payload, width))))
  {
    var p0, trailer;
    p0, begin, trailer := FrameParts(s, head + payload, width);
    p := Parts(s, begin, head, payload);
    q := p + |payload|;
  }

  /** A frame with its header parsed, the payload at `p` starting with some other field. */
  lemma HeaderDelivered(s: seq<byte>, start: nat, m: Sent, w34: nat, time: seq<byte>, payload: seq<byte>,
                        body: seq<byte>, w9: nat, was: Header, tag: nat, v: seq<byte>, p: nat)
    requires Sendable(m) && Plain(time) && |time| < 40 && Plain(v) && !HeaderTag(tag)
    requires body == HeaderText(m, w34, time) + payload && Stands(s, 0, Frame(body, w9))
    requires p == |Front(|body|, w9)| + |HeaderText(m, w34, time)| && Stands(s, p, Field(tag, v))
    ensures ParseHeader(s, was, start)
            == if Checksum(Unsummed(body, w9)) >= 10 || |s| > |Frame(body, w9)|
               then Parsed(Success, Received(m, Instant(time), |Frame(body, w9)|), p) else Parsed(NotComplete, was, 0)
  {
    var begin := HeaderBegins(s, start, body, w9, was);
    var p' := Parts(s, begin, HeaderText(m, w34, time), payload);
    var q := HeaderFilled(s, begin, m, w34, time, Reset(was, |Frame(body, w9)|), tag, v);
  }

  lemma LogonHeader(s: seq<byte>, start: nat, m: Sent, l: Logon, w34: nat, w9: nat, time: seq<byte>, was: Header,
                    body: seq<byte>, p: nat)
    requires Sendable(m) && Plain(time) && |time| < 40
    requires body == HeaderText(m, w34, time) + LogonText(l) && Stands(s, 0, Frame(body, w9))
    requires p == |Front(|body|, w9)| + |HeaderText(m, w34, time)| && Stands(s, p, LogonText(l))
    ensures ParseHeader(s, was, start)
            == if Checksum(Unsummed(body, w9)) >= 10 || |s| > |Frame(body, w9)|
               then Parsed(Success, Received(m, Instant(time), |Frame(body, w9)|), p) else Parsed(NotComplete, was, 0)
  {
    var p2, p3 := LogonParts(s, p, l, p + |LogonText(l)|);
    HeaderDelivered(s, start, m, w34, time, LogonText(l), body, w9, was, 141, [FlagByte(l.resetSeqNum)], p);
  }

  /** A Logon frame, at any place in a ring of bytes and whatever follows it, gives back its header and
      its body; or else the parser asks for more bytes: exactly when the checksum has one digit and no
      byte follows. */
  lemma LogonRoundTrip(s: seq<byte>, start: nat, m: Sent, l: Logon, w34: nat, w9: nat, time: seq<byte>, was: Header,
                       body: seq<byte>) returns (p: nat)
    requires Sendable(m) && Plain(time) && |time| < 40
    requires body == HeaderText(m, w34, time) + LogonText(l) && Stands(s, 0, Frame(body, w9))
    ensures ParseHeader(s, was, start)
            == if Checksum(Unsummed(body, w9)) >= 10 || |s| > |Frame(body, w9)|
               then Parsed(Success, Received(m, Instant(time), |Frame(body, w9)|), p) else Parsed(NotComplete, was, 0)
    ensures p <= |s| && LogonTags(s, p, NO_LOGON) == Parsed(Success, LogonReceived(l), |Unsummed(body, w9)|)
  {
    var begin, q;
    begin, p, q := PayloadParts(s, HeaderText(m, w34, time), LogonText(l), w9);
    LogonHeader(s, start, m, l, w34, w9, time, was, body, p);
    LogonTagsRead(s, p, l, Checksum(Unsummed(body, w9)), q);
  }

  // ---------------------------------------------------------------- HeartBeat

  /** The answer to a test request, or nothing. */
  function HeartBeatText(testId: seq<byte>): seq<byte> { if testId == [] then [] else Field(112, testId) }

  lemma HeartBeatGoesOn(s: seq<byte>, p: nat, was: seq<byte>, testId: seq<byte>, next: nat)
    requires p <= |s| && HeartBeatTurn(s, p, was) == More(testId, next)
    ensures next <= |s| && HeartBeatTags(s, p, was) == HeartBeatTags(s, next, testId)
  {
  }

  lemma TestIdStep(s: seq<byte>, p: nat, was: seq<byte>, testId: seq<byte>, next: nat)
    requires Stands(s, p, Field(112, testId)) && Plain(testId) && |testId| < 30 && next == p + |Field(112, testId)|
    ensures next <= |s| && HeartBeatTags(s, p, was) == HeartBeatTags(s, next, testId)
  {
    var q := TextField(s, p, 112, testId, 30);
    HeartBeatGoesOn(s, p, was, testId, next);
  }

  lemma HeartBeatStops(s: seq<byte>, p: nat, testId: seq<byte>, c: nat)
    requires Stands(s, p, Trailer(c))
    ensures HeartBeatTags(s, p, testId) == Parsed(Success, testId, p)
  {
    var q, e := FieldAt(s, p, 10, Decimal(c));
  }

  lemma HeartBeatTagsRead(s: seq<byte>, p: nat, testId: seq<byte>, c: nat, q: nat)
    requires Plain(testId) && |testId| < 30
    requires Stands(s, p, HeartBeatText(testId)) && q == p + |HeartBeatText(testId)| && Stands(s, q, Trailer(c))
    ensures HeartBeatTags(s, p, []) == Parsed(Success, testId, q)
  {
    if testId != [] { TestIdStep(s, p, [], testId, q); }
    HeartBeatStops(s, q, testId, c);
  }

  /** The same for a HeartBeat frame. */
  lemma HeartBeatRoundTrip(s: seq<byte>, start: nat, m: Sent, testId: seq<byte>, w34: nat, w9: nat, time: seq<byte>,
                           was: Header, body: seq<byte>) returns (p: nat)
    requires Sendable(m) && Plain(time) && |time| < 40 && Plain(testId) && |testId| < 30
    requires body == HeaderText(m, w34, time) + HeartBeatText(testId) && Stands(s, 0, Frame(body, w9))
    ensures ParseHeader(s, was, start)
            == if Checksum(Unsummed(body, w9)) >= 10 || |s| > |Frame(body, w9)|
               then Parsed(Success, Received(m, Instant(time), |Frame(body, w9)|), p) else Parsed(NotComplete, was, 0)
    ensures p <= |s| && HeartBeatTags(s, p, []) == Parsed(Success, testId, |Unsummed(body, w9)|)
  {
    var begin, q;
    var c := Checksum(Unsummed(body, w9));
    begin, p, q := PayloadParts(s, HeaderText(m, w34, time), HeartBeatText(testId), w9);
    if testId == [] {
      HeaderDelivered(s, start, m, w34, time, [], body, w9, was, 10, Decimal(c), p);
    } else {
      HeaderDelivered(s, start, m, w34, time, Field(112, testId), body, w9, was, 112, testId, p);
    }
    HeartBeatTagsRead(s, p, testId, c, q);
  }

  // ---------------------------------------------------------------- sending time

  function TimeText(now: nat, acc: Accuracy): (text: seq<byte>)
    requires now < TWO_TO_63
    ensures Calendar.DateOf(now / NS_PER_DAY).year >= 0 && text == Text(Split(now, acc), acc)
    ensures |text| == 18 + acc.Places()
  {
    PrintThenParse(now, acc);
    Text(Split(now, acc), acc)
  }

  /** A text that fits the time field and is read as `instant`. */
  predicate Tells(time: seq<byte>, instant: nat) { Plain(time) && |time| < 40 && Instant(time) == instant }

  /** The clock reading in whole units. */
  function Cut(now: nat, acc: Accuracy): nat { now - now % acc.Unit() }

  /** The text of the clock tells the clock reading in whole units. */
  lemma ClockTells(now: nat, acc: Accuracy)
    requires now < TWO_TO_63
    ensures Tells(TimeText(now, acc), Cut(now, acc))
  {
    PrintThenParse(now, acc);
    var c := Split(now, acc);
    AssembledIsPlain(Decimal(c.date.year), Padded(c.date.month, 2), Padded(c.date.day, 2), Padded(c.hour, 2),
                     Padded(c.minute, 2), Padded(c.second, 2), Padded(c.sub, acc.Places()));
  }

  lemma AssembledIsPlain(y: seq<byte>, mo: seq<byte>, d: seq<byte>, h: seq<byte>, mi: seq<byte>, s: seq<byte>,
                         f: seq<byte>)
    requires AllDigits(y) && AllDigits(mo) && AllDigits(d)
    requires AllDigits(h) && AllDigits(mi) && AllDigits(s) && AllDigits(f)
    ensures Plain(Assemble(y, mo, d, h, mi, s, f))
  {
  }
}
