/** From one end to the other: a message is built and finalized, its bytes come to stand anywhere in
    the receiver's ring, and the parser reads it back. */
module FixDelivery {
  import opened Common
  import opened Digits
  import opened FixText
  import opened FixFrames
  import opened FixRoundTrip
  import opened FixArrival
  import opened FixBuilder
  import opened FixReader
  import opened FixParser
  import opened Timestamp
  import Bits

  /** The body that is sent. */
  function BodyOf(names: Sent, p: Payload, seqNum: nat, now: nat, w34: nat, acc: Accuracy): seq<byte>
    requires now < TWO_TO_63
  {
    HeaderText(names.(seqNum := seqNum), w34, TimeText(now, acc)) + p.Text()
  }

  /** What the parser's arrays hold. */
  predicate Readable(p: Payload) { p.HeartBeatPayload? ==> Plain(p.testId) && |p.testId| < 30 }

  lemma BlankBodyLength(names: Sent, p: Payload, seqNum: nat, now: nat, w34: nat, acc: Accuracy)
    requires now < TWO_TO_63 && |Decimal(seqNum)| < w34
    ensures |BlankBody(names, w34, acc, p.Text())| == |BodyOf(names, p, seqNum, now, w34, acc)|
  {
  }

  /** A trailer is longer than the byte a number leaves unused. */
  lemma FrameIsLonger(names: Sent, p: Payload, seqNum: nat, now: nat, w34: nat, acc: Accuracy, w9: nat)
    requires now < TWO_TO_63 && |Decimal(seqNum)| < w34
    requires |Decimal(|BlankBody(names, w34, acc, p.Text())|)| < w9
    ensures |BlankFront(w9)| + |BlankBody(names, w34, acc, p.Text())| + p.Spare()
            < |Frame(BodyOf(names, p, seqNum, now, w34, acc), w9)|
  {
    var body := BodyOf(names, p, seqNum, now, w34, acc);
    BlankBodyLength(names, p, seqNum, now, w34, acc);
    FrontLength(|body|, w9);
    TrailerLength(Checksum(Unsummed(body, w9)));
  }

  /** Builds and finalizes a message, which succeeds exactly when the length and the sequence number
      have fewer digits than their fields and the frame leaves a byte of the buffer free. */
  method Send(b: MessageBuilder, m: OutMessage, names: Sent, p: Payload, seqNum: nat, now: nat) returns (ok: bool)
    requires m.Valid() && m.dataSize == 0 && names.kind == p.Kind() && now < TWO_TO_63
    requires b.bodyLengthWidth > 0 && b.seqNumWidth > 0
    modifies m, m.buffer
    ensures m.Valid()
    ensures var body := BodyOf(names, p, seqNum, now, b.seqNumWidth, b.accuracy);
            && ok == (|Decimal(|body|)| < b.bodyLengthWidth && |Decimal(seqNum)| < b.seqNumWidth
                      && |Frame(body, b.bodyLengthWidth)| < m.buffer.Length)
            && (ok ==> m.Data() == Frame(body, b.bodyLengthWidth))
  {
    if |Decimal(seqNum)| < b.seqNumWidth {
      BlankBodyLength(names, p, seqNum, now, b.seqNumWidth, b.accuracy);
      if |Decimal(|BlankBody(names, b.seqNumWidth, b.accuracy, p.Text())|)| < b.bodyLengthWidth {
        FrameIsLonger(names, p, seqNum, now, b.seqNumWidth, b.accuracy, b.bodyLengthWidth);
      }
    }
    ok := b.AddDataToOutMsg(m, names, p);
    if !ok { return; }
    ok := b.FinalizeOutMessage(m, seqNum, now, names, p.Text());
  }

  /** `s` stands in the ring from `start` on, wrapped or not. */
  ghost predicate Arrived(ring: seq<byte>, start: nat, s: seq<byte>) {
    |s| <= |ring| && forall i :: 0 <= i < |s| ==> ring[Cell(start + i, |ring|)] == s[i]
  }

  lemma OneMoreArrives(ring: seq<byte>, start: nat, s: seq<byte>, b: byte)
    requires Arrived(ring, start, s) && |s| < |ring|
    ensures Arrived(ring[Cell(start + |s|, |ring|) := b], start, s + [b])
  {
    var more := ring[Cell(start + |s|, |ring|) := b];
    forall i | 0 <= i < |s| ensures more[Cell(start + i, |ring|)] == s[i] {
      CellsDistinct(start + i, start + |s|, |ring|);
    }
  }

  /** The bytes come to stand in the ring from a running index on. */
  method Receive(m: OutMessage, ring: array<byte>, start: nat, mask: nat)
    requires m.Valid() && ring != m.buffer && Bits.IsPow2(ring.Length) && mask == ring.Length - 1
    requires m.dataSize <= ring.Length
    modifies ring
    ensures Arrived(ring[..], start, m.Data())
  {
    for n := 0 to m.dataSize
      invariant Arrived(ring[..], start, m.buffer[..n])
    {
      OneMoreArrives(ring[..], start, m.buffer[..n], m.buffer[n]);
      assert m.buffer[..n + 1] == m.buffer[..n] + [m.buffer[n]];
      Bits.MaskIsMod(start + n, ring.Length);
      ring[Bits.And(start + n, mask)] := m.buffer[n];
    }
  }

  /** What the receiver should find. */
  function HeaderSent(names: Sent, p: Payload, seqNum: nat, now: nat, acc: Accuracy, total: nat): Header {
    Header(if p.LogonPayload? then Kind.Logon else HeartBeat, names.sender, names.target, seqNum, Cut(now, acc), total)
  }

  /** The body the parser holds is the one that was sent. */
  ghost predicate Holds(parser: MessageParser, p: Payload)
    reads parser
  {
    match p
    case LogonPayload(l) =>
      parser.logon == LogonBody(if l.resetSeqNum then Yes else No, l.heartBeat, 0, l.encryptMethod)
    case HeartBeatPayload(testId) => parser.testId == testId
  }

  lemma ArrivedInRing(r: TagValueReader, frame: seq<byte>)
    requires r.Ring() && |frame| <= r.end - r.start && Arrived(r.buffer[..], r.start, frame)
    ensures Stands(r.View(), 0, frame)
  {
    forall i | 0 <= i < |frame| ensures r.View()[i] == frame[i] {
      assert r.buffer[..][Cell(r.start + i, r.buffer.Length)] == frame[i];
    }
  }

  /** What both parsers will say of these bytes: the header is found or the parser waits, and the body
      follows at `at`. */
  ghost predicate Foretold(s: seq<byte>, start: nat, was: Header, enough: bool, h: Header, p: Payload, at: nat) {
    && at <= |s|
    && FixText.ParseHeader(s, was, start) == (if enough then Parsed(Success, h, at) else Parsed(NotComplete, was, 0))
    && match p
       case LogonPayload(l) => exists q :: LogonTags(s, at, NO_LOGON) == Parsed(Success, LogonReceived(l), q)
       case HeartBeatPayload(testId) => exists q :: HeartBeatTags(s, at, []) == Parsed(Success, testId, q)
  }

  lemma SentIsReceived(names: Sent, p: Payload, seqNum: nat, now: nat, acc: Accuracy, total: nat)
    requires now < TWO_TO_63 && names.kind == p.Kind()
    ensures Plain(TimeText(now, acc)) && |TimeText(now, acc)| < 40
    ensures HeaderSent(names, p, seqNum, now, acc, total)
            == Received(names.(seqNum := seqNum), Instant(TimeText(now, acc)), total)
  {
    ClockTells(now, acc);
  }

  lemma ForetellLogon(s: seq<byte>, start: nat, was: Header, names: Sent, l: Logon, seqNum: nat, now: nat, w34: nat,
                      acc: Accuracy, w9: nat) returns (at: nat)
    requires now < TWO_TO_63 && Sendable(names) && names.kind == LOGON
    requires Stands(s, 0, Frame(BodyOf(names, LogonPayload(l), seqNum, now, w34, acc), w9))
    ensures var (p, body) := (LogonPayload(l), BodyOf(names, LogonPayload(l), seqNum, now, w34, acc));
            var total := |Frame(body, w9)|;
            Foretold(s, start, was, Enough(body, w9, |s| - total), HeaderSent(names, p, seqNum, now, acc, total), p, at)
  {
    var body := BodyOf(names, LogonPayload(l), seqNum, now, w34, acc);
    SentIsReceived(names, LogonPayload(l), seqNum, now, acc, |Frame(body, w9)|);
    at := LogonRoundTrip(s, start, names.(seqNum := seqNum), l, w34, w9, TimeText(now, acc), was, body);
  }

  lemma ForetellHeartBeat(s: seq<byte>, start: nat, was: Header, names: Sent, testId: seq<byte>, seqNum: nat, now: nat,
                          w34: nat, acc: Accuracy, w9: nat) returns (at: nat)
    requires now < TWO_TO_63 && Sendable(names) && names.kind == HEART_BEAT && Readable(HeartBeatPayload(testId))
    requires Stands(s, 0, Frame(BodyOf(names, HeartBeatPayload(testId), seqNum, now, w34, acc), w9))
    ensures var (p, body) := (HeartBeatPayload(testId), BodyOf(names, HeartBeatPayload(testId), seqNum, now, w34, acc));
            var total := |Frame(body, w9)|;
            Foretold(s, start, was, Enough(body, w9, |s| - total), HeaderSent(names, p, seqNum, now, acc, total), p, at)
  {
    var body := BodyOf(names, HeartBeatPayload(testId), seqNum, now, w34, acc);
    SentIsReceived(names, HeartBeatPayload(testId), seqNum, now, acc, |Frame(body, w9)|);
    at := HeartBeatRoundTrip(s, start, names.(seqNum := seqNum), testId, w34, w9, TimeText(now, acc), was, body);
  }

  lemma Foretell(s: seq<byte>, start: nat, was: Header, names: Sent, p: Payload, seqNum: nat, now: nat, w34: nat,
                 acc: Accuracy, w9: nat) returns (at: nat)
    requires now < TWO_TO_63 && Sendable(names) && names.kind == p.Kind() && Readable(p)
    requires Stands(s, 0, Frame(BodyOf(names, p, seqNum, now, w34, acc), w9))
    ensures var body := BodyOf(names, p, seqNum, now, w34, acc);
            var total := |Frame(body, w9)|;
            Foretold(s, start, was, Enough(body, w9, |s| - total), HeaderSent(names, p, seqNum, now, acc, total), p, at)
  {
    match p
    case LogonPayload(l) => at := ForetellLogon(s, start, was, names, l, seqNum, now, w34, acc, w9);
    case HeartBeatPayload(testId) =>
      at := ForetellHeartBeat(s, start, was, names, testId, seqNum, now, w34, acc, w9);
  }

  lemma LogonIsKeptIffPositive(l: Logon)
    ensures LogonReceived(l) == LogonBody(if l.resetSeqNum then Yes else No, l.heartBeat, 0, l.encryptMethod)
            <==> l.encryptMethod >= 0
  {
    SignedReads(l.encryptMethod);
  }

  /** Parses the frame that stands at `start`, with what else there is up to `end`. */
  method Understand(parser: MessageParser, ring: array<byte>, start: nat, end: nat, mask: nat, ghost names: Sent,
                    ghost p: Payload, ghost seqNum: nat, ghost now: nat, ghost w34: nat, ghost acc: Accuracy,
                    ghost w9: nat) returns (status: Status, bodyStatus: Status)
    requires Bits.IsPow2(ring.Length) && mask == ring.Length - 1 && start <= end <= start + ring.Length
    requires now < TWO_TO_63 && Sendable(names) && names.kind == p.Kind() && Readable(p)
    requires var frame := Frame(BodyOf(names, p, seqNum, now, w34, acc), w9);
             start + |frame| <= end && Arrived(ring[..], start, frame)
    modifies parser
    ensures var body := BodyOf(names, p, seqNum, now, w34, acc);
            var total := |Frame(body, w9)|;
            var enough := Enough(body, w9, end - start - total);
            Reads(parser, old(parser.header), enough, HeaderSent(names, p, seqNum, now, acc, total), p, status,
                  bodyStatus)
  {
    ghost var body := BodyOf(names, p, seqNum, now, w34, acc);
    ghost var frame, was := Frame(body, w9), parser.header;
    status := parser.ParseHeader(ring, start, end, mask);
    var r := parser.reader;
    ArrivedInRing(r, frame);
    ghost var at := Foretell(r.View(), start, was, names, p, seqNum, now, w34, acc, w9);
    bodyStatus := ReadBody(parser, r, was, Enough(body, w9, end - start - |frame|),
                           HeaderSent(names, p, seqNum, now, acc, |frame|), p, at, status);
  }

  /** Whether parser and verdicts are as they should be. */
  ghost predicate Reads(parser: MessageParser, was: Header, enough: bool, h: Header, p: Payload, status: Status,
                        bodyStatus: Status)
    reads parser
  {
    && status == (if enough then Success else NotComplete)
    && parser.header == (if enough then h else was)
    && (enough ==> bodyStatus == Success)
    && (enough ==> (Holds(parser, p) <==> p.LogonPayload? ==> p.logon.encryptMethod >= 0))
  }

  /** Reads the body that the header announces. */
  method ReadBody(parser: MessageParser, r: TagValueReader, ghost was: Header, ghost enough: bool, ghost h: Header,
                  ghost p: Payload, ghost at: nat, status: Status) returns (bodyStatus: Status)
    requires r.Valid() && Foretold(r.View(), r.start, was, enough, h, p, at)
    requires h.kind == if p.LogonPayload? then Kind.Logon else HeartBeat
    requires var found := FixText.ParseHeader(r.View(), was, r.start);
             status == found.status && parser.header == found.value && (status == Success ==> r.Pos() == found.next)
    modifies parser, r
    ensures Reads(parser, was, enough, h, p, status, bodyStatus)
  {
    bodyStatus := status;
    if status != Success { return; }
    if p.LogonPayload? { LogonIsKeptIffPositive(p.logon); }
    var read := parser.ParseBody(r);
    bodyStatus := read.value;
  }

  /** A message sent is the message read, wherever its bytes come to stand in a ring that holds them
      and `extra` more: unless it could not be built, or the parser waits for a byte that need not
      come, or a Logon asks for a negative encryption method. */
  method Deliver(b: MessageBuilder, m: OutMessage, names: Sent, p: Payload, seqNum: nat, now: nat,
                 ring: array<byte>, start: nat, extra: nat, mask: nat, parser: MessageParser)
      returns (sent: bool, status: Status, bodyStatus: Status)
    requires m.Valid() && m.dataSize == 0 && names.kind == p.Kind() && now < TWO_TO_63
    requires b.bodyLengthWidth > 0 && b.seqNumWidth > 0 && Sendable(names) && Readable(p)
    requires Bits.IsPow2(ring.Length) && mask == ring.Length - 1 && ring != m.buffer
    requires m.buffer.Length + extra <= ring.Length
    modifies m, m.buffer, ring, parser
    ensures var body := BodyOf(names, p, seqNum, now, b.seqNumWidth, b.accuracy);
            var total := |Frame(body, b.bodyLengthWidth)|;
            && sent == (|Decimal(|body|)| < b.bodyLengthWidth && |Decimal(seqNum)| < b.seqNumWidth
                        && total < m.buffer.Length)
            && (sent ==> Reads(parser, old(parser.header), Enough(body, b.bodyLengthWidth, extra),
                               HeaderSent(names, p, seqNum, now, b.accuracy, total), p, status, bodyStatus))
  {
    status, bodyStatus := NotComplete, NotComplete;
    sent := Send(b, m, names, p, seqNum, now);
    if !sent { return; }
    Receive(m, ring, start, mask);
    status, bodyStatus := Understand(parser, ring, start, start + m.dataSize + extra, mask, names, p, seqNum, now,
                                     b.seqNumWidth, b.accuracy, b.bodyLengthWidth);
  }
}
