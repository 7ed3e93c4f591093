/** The message builder, writing fields into a fixed buffer and patching them afterwards. */
module FixBuilder {
  import opened Common
  import opened Digits
  import opened Buffers
  import opened FixText
  import opened FixFrames
  import opened FixPrices
  import opened FixRoundTrip
  import opened Timestamp

  datatype MessageStatus = Initial | DataFilled | Finalized | Invalid

  class OutMessage {
    const buffer: array<byte>
    var dataSize: nat
    var status: MessageStatus
    var msgLenPos: nat
    var seqNumPos: nat
    var timeStampPos: nat

    ghost predicate Valid()
      reads this
    {
      dataSize <= buffer.Length
    }

    ghost function Data(): (s: seq<byte>)
      requires Valid()
      reads this, buffer
      ensures |s| == dataSize
    {
      buffer[..dataSize]
    }

    constructor (size: nat)
      ensures Valid() && Data() == [] && buffer.Length == size && fresh(buffer) && status == Initial
    {
      buffer := new byte[size](_ => 0);
      dataSize, status := 0, Initial;
    }

    method Append(s: seq<byte>)
      requires Valid() && dataSize + |s| <= buffer.Length
      modifies this`dataSize, buffer
      ensures Valid() && Data() == old(Data()) + s
    {
      Copy(buffer, dataSize, s);
      dataSize := dataSize + |s|;
    }

    /** A text field, if it fits. */
    method AddText(tag: nat, value: seq<byte>) returns (ok: bool)
      requires Valid()
      modifies this`dataSize, this`status, buffer
      ensures Valid() && ok == (old(dataSize) + |Field(tag, value)| <= buffer.Length)
      ensures ok ==> Data() == old(Data()) + Field(tag, value) && status == old(status)
      ensures !ok ==> buffer[..] == old(buffer[..]) && dataSize == old(dataSize) && status == Invalid
    {
      if buffer.Length < dataSize + |Decimal(tag)| + |value| + 2 {
        status := Invalid;
        return false;
      }
      Append(Decimal(tag));
      Append([EQUALS]);
      Append(value);
      Append([SOH]);
      return true;
    }

    method AddChar(tag: nat, value: byte) returns (ok: bool)
      requires Valid()
      modifies this`dataSize, this`status, buffer
      ensures Valid() && ok == (old(dataSize) + |Field(tag, [value])| <= buffer.Length)
      ensures ok ==> Data() == old(Data()) + Field(tag, [value]) && status == old(status)
      ensures !ok ==> buffer[..] == old(buffer[..]) && dataSize == old(dataSize) && status == Invalid
    {
      if buffer.Length < dataSize + |Decimal(tag)| + 3 {
        status := Invalid;
        return false;
      }
      Append(Decimal(tag));
      Append([EQUALS]);
      Append([value]);
      Append([SOH]);
      return true;
    }

    /** A number needs one byte more than its field takes; when it has not got it, the tag may stay. */
    method AddInt(tag: nat, n: int) returns (ok: bool)
      requires Valid()
      modifies this`dataSize, this`status, buffer
      ensures Valid() && ok == (old(dataSize) + |Field(tag, Signed(n))| < buffer.Length)
      ensures ok ==> Data() == old(Data()) + Field(tag, Signed(n)) && status == old(status)
      ensures !ok ==> status == Invalid
      ensures !ok ==> Data() == old(Data()) + (if dataSize == old(dataSize) then [] else Decimal(tag) + [EQUALS])
    {
      if buffer.Length < dataSize + |Decimal(tag)| + 1 {
        status := Invalid;
        return false;
      }
      FieldJoined(Data(), tag, Signed(n));
      Append(Decimal(tag));
      Append([EQUALS]);
      ok := AppendNumber(n);
    }

    /** A price: its raw value, into which a point is moved afterwards. */
    method AddPrice(tag: nat, raw: int) returns (ok: bool)
      requires Valid() && |Decimal(tag)| >= 2
      modifies this`dataSize, this`status, buffer
      ensures Valid() && ok == (old(dataSize) + |PriceField(tag, raw)| <= buffer.Length)
      ensures ok ==> Data() == old(Data()) + PriceField(tag, raw) && status == old(status)
      ensures !ok ==> status == Invalid
      ensures !ok ==> Data() == old(Data()) + (if dataSize == old(dataSize) then [] else Decimal(tag) + [EQUALS])
    {
      if buffer.Length < dataSize + |Decimal(tag)| + 1 {
        status := Invalid;
        return false;
      }
      ghost var pre := Data();
      Append(Decimal(tag));
      Append([EQUALS]);
      assert Data() == pre + (Decimal(tag) + [EQUALS]);
      ok := AppendPointed(raw, pre, Decimal(tag) + [EQUALS]);
    }

    /** The digits, the point and the separator after what `pre` and `lead` have put there. */
    method AppendPointed(raw: int, ghost pre: seq<byte>, ghost lead: seq<byte>) returns (ok: bool)
      requires Valid() && |lead| >= 3 && Data() == pre + lead
      modifies this`dataSize, this`status, buffer
      ensures Valid() && ok == (old(dataSize) + |Signed(raw)| + 2 <= buffer.Length)
      ensures ok ==> Data() == pre + (Pointed(lead + Signed(raw)) + [SOH]) && status == old(status)
      ensures !ok ==> status == Invalid && Data() == old(Data())
    {
      ghost var was, start := buffer[..], dataSize;
      var next;
      ok, next := SignedToChars(buffer, dataSize, raw);
      if ok {
        PatchAppends(was, start, Signed(raw));
        PatchAfter(was, start, Signed(raw));
      }
      if !ok || next > buffer.Length - 2 {
        ok, status := false, Invalid;
        return;
      }
      assert buffer[..next] == pre + (lead + Signed(raw));
      InsertPoint(next, pre, lead + Signed(raw));
      dataSize := next + 1;
      Append([SOH]);
    }

    /** Moves the last four bytes before `next` one on, and puts a point in the gap. */
    method InsertPoint(next: nat, ghost pre: seq<byte>, ghost text: seq<byte>)
      requires PLACES <= |text| && |pre| + |text| == next < buffer.Length && buffer[..next] == pre + text
      modifies buffer
      ensures buffer[..next + 1] == pre + Pointed(text)
    {
      var at := next - PLACES;
      ghost var was := buffer[..];
      ghost var tail := text[|text| - PLACES..];
      assert was[at..next] == tail by { assert was[at..next] == was[..next][at..]; }
      Copy(buffer, at + 1, buffer[at..next]);
      buffer[at] := FixPrices.DOT;
      assert buffer[..next + 1] == was[..at] + [FixPrices.DOT] + tail;
      assert was[..at] == pre + text[..|text| - PLACES] by { assert was[..at] == was[..next][..at]; }
    }

    /** The digits and the separator, unless they would reach the last byte. */
    method AppendNumber(n: int) returns (ok: bool)
      requires Valid()
      modifies this`dataSize, this`status, buffer
      ensures Valid() && ok == (old(dataSize) + |Signed(n)| + 1 < buffer.Length)
      ensures ok ==> Data() == old(Data()) + Signed(n) + [SOH] && status == old(status)
      ensures !ok ==> status == Invalid && Data() == old(Data())
    {
      ghost var was, at := buffer[..], dataSize;
      var next;
      ok, next := SignedToChars(buffer, dataSize, n);
      if ok {
        PatchAppends(was, at, Signed(n));
        PatchAfter(was, at, Signed(n));
      }
      if !ok || next + 1 >= buffer.Length {
        ok, status := false, Invalid;
        return;
      }
      dataSize := next;
      Append([SOH]);
    }
  }

  lemma FieldJoined(pre: seq<byte>, tag: nat, v: seq<byte>)
    ensures pre + Decimal(tag) + [EQUALS] + v + [SOH] == pre + Field(tag, v)
    ensures pre + Decimal(tag) + [EQUALS] == pre + (Decimal(tag) + [EQUALS])
  {
  }

  lemma PatchAppends(b: seq<byte>, n: nat, f: seq<byte>)
    requires n + |f| <= |b|
    ensures Patched(b, n, f)[..n + |f|] == b[..n] + f
  {
  }

  lemma PatchAfter(b: seq<byte>, n: nat, f: seq<byte>)
    requires n + |f| <= |b|
    ensures Patched(b, n, f)[..n] == b[..n]
  {
  }

  /** `std::to_chars` from `at` to the end of the buffer. */
  method SignedToChars(buffer: array<byte>, at: nat, n: int) returns (ok: bool, next: nat)
    requires at <= buffer.Length
    modifies buffer
    ensures ok == (at + |Signed(n)| <= buffer.Length)
    ensures ok ==> next == at + |Signed(n)| && buffer[..] == Patched(old(buffer[..]), at, Signed(n))
    ensures !ok ==> buffer[..] == old(buffer[..])
  {
    ok, next := at + |Signed(n)| <= buffer.Length, buffer.Length;
    if ok {
      Copy(buffer, at, Signed(n));
      next := at + |Signed(n)|;
    }
  }

  // ---------------------------------------------------------------- messages

  datatype Payload = LogonPayload(logon: Logon) | HeartBeatPayload(testId: seq<byte>) {
    function Kind(): byte { if LogonPayload? then LOGON else HEART_BEAT }

    function Text(): seq<byte> { if LogonPayload? then LogonText(logon) else HeartBeatText(testId) }

    /** The byte that a number leaves unused after it. */
    function Spare(): nat { if LogonPayload? then 1 else 0 }
  }

  function BlankFront(width: nat): seq<byte> { Field(8, VERSION) + Field(9, Zeros(width)) }

  /** The header as it is first written: no sequence number, no time. */
  function BlankNumbers(width: nat, acc: Accuracy): seq<byte> {
    Field(34, Zeros(width)) + Field(52, Zeros(18 + acc.Places()))
  }

  function BlankBody(names: Sent, width: nat, acc: Accuracy, payload: seq<byte>): seq<byte> {
    Names(names) + BlankNumbers(width, acc) + payload
  }

  class MessageBuilder {
    const bodyLengthWidth: nat
    const seqNumWidth: nat
    const accuracy: Accuracy

    constructor (bodyLength: nat, maxSeqNum: nat, acc: Accuracy)
      ensures bodyLengthWidth == |Decimal(bodyLength)| && seqNumWidth == |Decimal(maxSeqNum)| && accuracy == acc
    {
      var length := NumDigits(bodyLength);
      var seqNum := NumDigits(maxSeqNum);
      bodyLengthWidth := length;
      seqNumWidth := seqNum;
      accuracy := acc;
    }

    method AddFront(m: OutMessage) returns (ok: bool)
      requires m.Valid()
      modifies m`dataSize, m`status, m`msgLenPos, m.buffer
      ensures m.Valid()
      ensures ok == (old(m.dataSize) + |BlankFront(bodyLengthWidth)| <= m.buffer.Length)
      ensures ok ==> m.Data() == old(m.Data()) + BlankFront(bodyLengthWidth)
      ensures ok ==> m.status == old(m.status) && m.msgLenPos == old(m.dataSize) + |Field(8, VERSION)|
      ensures !ok ==> m.status == Invalid
    {
      ok := m.AddText(8, VERSION);
      if ok {
        m.msgLenPos := m.dataSize;
        ok := m.AddText(9, Zeros(bodyLengthWidth));
      }
    }

    method AddNames(m: OutMessage, names: Sent) returns (ok: bool)
      requires m.Valid()
      modifies m`dataSize, m`status, m.buffer
      ensures m.Valid() && ok == (old(m.dataSize) + |Names(names)| <= m.buffer.Length)
      ensures ok ==> m.Data() == old(m.Data()) + Names(names) && m.status == old(m.status)
      ensures !ok ==> m.status == Invalid
    {
      Joined(m.Data(), Field(35, [names.kind]), Field(49, names.sender), Field(56, names.target));
      ok := m.AddChar(35, names.kind);
      if !ok { return; }
      ok := m.AddText(49, names.sender);
      if !ok { return; }
      ok := m.AddText(56, names.target);
    }

    method AddNumbers(m: OutMessage) returns (ok: bool)
      requires m.Valid()
      modifies m`dataSize, m`status, m`seqNumPos, m`timeStampPos, m.buffer
      ensures m.Valid() && ok == (old(m.dataSize) + |BlankNumbers(seqNumWidth, accuracy)| <= m.buffer.Length)
      ensures ok ==> m.Data() == old(m.Data()) + BlankNumbers(seqNumWidth, accuracy) && m.status == old(m.status)
      ensures ok ==> m.seqNumPos == old(m.dataSize)
      ensures ok ==> m.timeStampPos == old(m.dataSize) + |Field(34, Zeros(seqNumWidth))|
      ensures !ok ==> m.status == Invalid
    {
      m.seqNumPos := m.dataSize;
      ok := m.AddText(34, Zeros(seqNumWidth));
      if ok {
        m.timeStampPos := m.dataSize;
        ok := m.AddText(52, Zeros(18 + accuracy.Places()));
      }
    }

    method AddLogon(m: OutMessage, l: Logon) returns (ok: bool)
      requires m.Valid()
      modifies m`dataSize, m`status, m.buffer
      ensures m.Valid() && ok == (old(m.dataSize) + |LogonText(l)| < m.buffer.Length)
      ensures ok ==> m.Data() == old(m.Data()) + LogonText(l) && m.status == old(m.status)
      ensures !ok ==> m.status == Invalid
    {
      Joined(m.Data(), Field(141, [FlagByte(l.resetSeqNum)]), Field(98, Signed(l.encryptMethod)),
             Field(108, Signed(l.heartBeat)));
      ok := m.AddChar(141, FlagByte(l.resetSeqNum));
      if !ok { return; }
      ok := m.AddInt(98, l.encryptMethod);
      if !ok { return; }
      ok := m.AddInt(108, l.heartBeat);
    }

    method AddHeartBeat(m: OutMessage, testId: seq<byte>) returns (ok: bool)
      requires m.Valid()
      modifies m`dataSize, m`status, m.buffer
      ensures m.Valid() && ok == (old(m.dataSize) + |HeartBeatText(testId)| <= m.buffer.Length)
      ensures ok ==> m.Data() == old(m.Data()) + HeartBeatText(testId) && m.status == old(m.status)
      ensures !ok ==> m.status == Invalid
    {
      ok := true;
      if |testId| > 0 { ok := m.AddText(112, testId); }
    }

    method AddPayload(m: OutMessage, p: Payload) returns (ok: bool)
      requires m.Valid()
      modifies m`dataSize, m`status, m.buffer
      ensures m.Valid() && ok == (old(m.dataSize) + |p.Text()| + p.Spare() <= m.buffer.Length)
      ensures ok ==> m.Data() == old(m.Data()) + p.Text() && m.status == old(m.status)
      ensures !ok ==> m.status == Invalid
    {
      match p {
        case LogonPayload(l) => ok := AddLogon(m, l);
        case HeartBeatPayload(testId) => ok := AddHeartBeat(m, testId);
      }
    }

    /** Header and payload, with sequence number and time blank. */
    method AddBody(m: OutMessage, names: Sent, p: Payload) returns (ok: bool)
      requires m.Valid()
      modifies m`dataSize, m`status, m`seqNumPos, m`timeStampPos, m.buffer
      ensures m.Valid()
      ensures ok == (old(m.dataSize) + |BlankBody(names, seqNumWidth, accuracy, p.Text())| + p.Spare()
                     <= m.buffer.Length)
      ensures ok ==> m.Data() == old(m.Data()) + BlankBody(names, seqNumWidth, accuracy, p.Text())
      ensures ok ==> m.status == old(m.status) && m.seqNumPos == old(m.dataSize) + |Names(names)|
      ensures ok ==> m.timeStampPos == m.seqNumPos + |Field(34, Zeros(seqNumWidth))|
      ensures !ok ==> m.status == Invalid
    {
      Joined(m.Data(), Names(names), BlankNumbers(seqNumWidth, accuracy), p.Text());
      ok := AddNames(m, names);
      if !ok { return; }
      ok := AddNumbers(m);
      if !ok { return; }
      ok := AddPayload(m, p);
    }

    /** Everything before the trailer, with the body length blank too. */
    method AddAll(m: OutMessage, names: Sent, p: Payload) returns (ok: bool, bodyStart: nat)
      requires m.Valid() && m.dataSize == 0
      modifies m, m.buffer
      ensures m.Valid()
      ensures ok == (|BlankFront(bodyLengthWidth)| + |BlankBody(names, seqNumWidth, accuracy, p.Text())| + p.Spare()
                     <= m.buffer.Length)
      ensures ok ==> m.Data() == BlankFront(bodyLengthWidth) + BlankBody(names, seqNumWidth, accuracy, p.Text())
      ensures ok ==> m.status == old(m.status) && Positions(m, names) && bodyStart == |BlankFront(bodyLengthWidth)|
      ensures !ok ==> m.status == Invalid
    {
      ghost var front := BlankFront(bodyLengthWidth);
      assert m.Data() == [] && [] + front == front;
      ok := AddFront(m);
      bodyStart := m.dataSize;
      if !ok { return; }
      assert bodyStart == |front|;
      ok := AddBody(m, names, p);
    }

    /** Where the three blanks are. */
    ghost predicate Positions(m: OutMessage, names: Sent)
      reads m
    {
      && m.msgLenPos == |Field(8, VERSION)| && m.seqNumPos == |BlankFront(bodyLengthWidth)| + |Names(names)|
      && m.timeStampPos == m.seqNumPos + |Field(34, Zeros(seqNumWidth))|
    }

    /** A message that only lacks sequence number, time and trailer. */
    ghost predicate Ready(m: OutMessage, names: Sent, payload: seq<byte>)
      reads m, m.buffer
    {
      var body := BlankBody(names, seqNumWidth, accuracy, payload);
      && m.Valid() && Positions(m, names) && |Decimal(|body|)| < bodyLengthWidth
      && m.Data() == Front(|body|, bodyLengthWidth) + body
    }

    /** Builds a message, which succeeds exactly when it fits and its length has fewer digits than its
        field. */
    method AddDataToOutMsg(m: OutMessage, names: Sent, p: Payload) returns (ok: bool)
      requires m.Valid() && m.dataSize == 0 && bodyLengthWidth > 0 && names.kind == p.Kind()
      modifies m, m.buffer
      ensures m.Valid()
      ensures var body := BlankBody(names, seqNumWidth, accuracy, p.Text());
              ok == (|BlankFront(bodyLengthWidth)| + |body| + p.Spare() <= m.buffer.Length
                     && |Decimal(|body|)| < bodyLengthWidth)
      ensures ok ==> Ready(m, names, p.Text())
    {
      var bodyStart;
      ok, bodyStart := AddAll(m, names, p);
      if !ok { return; }
      ok := PatchLength(m, m.dataSize - bodyStart, BlankBody(names, seqNumWidth, accuracy, p.Text()));
    }

    /** Writes the body length over the right end of its blank. */
    method PatchLength(m: OutMessage, bodyLength: nat, ghost body: seq<byte>) returns (ok: bool)
      requires m.Valid() && bodyLengthWidth > 0 && bodyLength == |body|
      requires m.msgLenPos == |Field(8, VERSION)| && m.Data() == BlankFront(bodyLengthWidth) + body
      modifies m.buffer
      ensures ok == (|Decimal(bodyLength)| < bodyLengthWidth)
      ensures ok ==> m.Data() == Front(|body|, bodyLengthWidth) + body
    {
      var digits := new byte[bodyLengthWidth];
      var numDigits;
      ok, numDigits := ToChars(digits, 0, bodyLengthWidth - 1, bodyLength);
      if !ok { return; }
      assert digits[..numDigits] == Decimal(bodyLength);
      var at := m.msgLenPos + 1 + 1 + bodyLengthWidth - numDigits;
      PatchInside(m.buffer[..], m.dataSize, at, digits[..numDigits]);
      LengthPatched(bodyLengthWidth, body, at);
      Copy(m.buffer, at, digits[..numDigits]);
    }

    method PatchSeqNum(m: OutMessage, seqNum: nat, ghost pre: seq<byte>, ghost post: seq<byte>) returns (ok: bool)
      requires m.Valid() && seqNumWidth > 0
      requires m.seqNumPos == |pre| && m.Data() == pre + Field(34, Zeros(seqNumWidth)) + post
      modifies m.buffer
      ensures ok == (|Decimal(seqNum)| < seqNumWidth)
      ensures ok ==> m.Data() == pre + Field(34, Padded(seqNum, seqNumWidth)) + post
      ensures !ok ==> m.Data() == old(m.Data())
    {
      var digits := new byte[seqNumWidth];
      var numLength;
      ok, numLength := ToChars(digits, 0, seqNumWidth - 1, seqNum);
      if !ok { return; }
      assert digits[..numLength] == Decimal(seqNum);
      var at := m.seqNumPos + 2 + 1 + seqNumWidth - numLength;
      PatchInside(m.buffer[..], m.dataSize, at, digits[..numLength]);
      SeqNumPatched(seqNumWidth, seqNum, pre, post, at);
      Copy(m.buffer, at, digits[..numLength]);
    }

    method PatchTime(m: OutMessage, now: nat, ghost pre: seq<byte>, ghost post: seq<byte>)
      requires m.Valid() && now < TWO_TO_63
      requires m.timeStampPos == |pre| && m.Data() == pre + Field(52, Zeros(18 + accuracy.Places())) + post
      modifies m.buffer
      ensures m.Data() == pre + Field(52, TimeText(now, accuracy)) + post
    {
      var at := m.timeStampPos + 2 + 1;
      ghost var text := TimeText(now, accuracy);
      PatchInside(m.buffer[..], m.dataSize, at, text);
      PatchField(pre, 52, |text|, text, post, at);
      assert Zeros(0) + text == text;
      var l := ToFixFormat(now, m.buffer, at, 18 + accuracy.Places(), accuracy);
    }

    method PatchNumbers(m: OutMessage, seqNum: nat, now: nat, ghost names: Sent, ghost payload: seq<byte>,
                        ghost front: seq<byte>) returns (ok: bool)
      requires m.Valid() && now < TWO_TO_63 && seqNumWidth > 0
      requires m.Data() == front + BlankBody(names, seqNumWidth, accuracy, payload)
      requires m.seqNumPos == |front| + |Names(names)|
      requires m.timeStampPos == m.seqNumPos + |Field(34, Zeros(seqNumWidth))|
      modifies m.buffer
      ensures ok == (|Decimal(seqNum)| < seqNumWidth)
      ensures ok ==> m.Data() == front + (Names(names) + (Field(34, Padded(seqNum, seqNumWidth))
                                                          + Field(52, TimeText(now, accuracy))) + payload)
    {
      ghost var f34, f52 := Field(34, Zeros(seqNumWidth)), Field(52, Zeros(18 + accuracy.Places()));
      Regroup(front, Names(names), f34, f52, payload);
      ok := PatchSeqNum(m, seqNum, front + Names(names), f52 + payload);
      if !ok { return; }
      f34 := Field(34, Padded(seqNum, seqNumWidth));
      Regroup(front, Names(names), f34, f52, payload);
      PatchTime(m, now, front + Names(names) + f34, payload);
      Regroup(front, Names(names), f34, Field(52, TimeText(now, accuracy)), payload);
    }

    /** The byte sum of the whole message, as its last field. */
    method AddChecksum(m: OutMessage) returns (ok: bool)
      requires m.Valid()
      modifies m`dataSize, m`status, m.buffer
      ensures m.Valid()
      ensures ok == (old(m.dataSize) + |Trailer(Checksum(old(m.Data())))| < m.buffer.Length)
      ensures ok ==> m.Data() == old(m.Data()) + Trailer(Checksum(old(m.Data()))) && m.status == Finalized
    {
      var checksum: nat := 0;
      for i := 0 to m.dataSize
        invariant checksum == ByteSum(m.buffer[..i])
      {
        assert m.buffer[..i + 1][..i] == m.buffer[..i];
        checksum := checksum + m.buffer[i];
      }
      ok := m.AddInt(10, checksum % 256);
      if ok { m.status := Finalized; }
    }

    /** Puts in sequence number, time and checksum, which makes a frame. */
    method FinalizeOutMessage(m: OutMessage, seqNum: nat, now: nat, ghost names: Sent, ghost payload: seq<byte>)
        returns (ok: bool)
      requires Ready(m, names, payload) && now < TWO_TO_63 && seqNumWidth > 0
      modifies m, m.buffer
      ensures m.Valid()
      ensures var body := HeaderText(names.(seqNum := seqNum), seqNumWidth, TimeText(now, accuracy)) + payload;
              var frame := Frame(body, bodyLengthWidth);
              && ok == (|Decimal(seqNum)| < seqNumWidth && |frame| < m.buffer.Length)
              && (ok ==> m.Data() == frame && m.status == Finalized)
    {
      ghost var blank := BlankBody(names, seqNumWidth, accuracy, payload);
      FrontLength(|blank|, bodyLengthWidth);
      ok := PatchNumbers(m, seqNum, now, names, payload, Front(|blank|, bodyLengthWidth));
      if !ok { return; }
      FilledBody(names, seqNumWidth, accuracy, payload, seqNum, TimeText(now, accuracy), bodyLengthWidth);
      ok := AddChecksum(m);
    }
  }

  lemma SeqNumPatched(width: nat, n: nat, pre: seq<byte>, post: seq<byte>, at: nat)
    requires |Decimal(n)| < width && at == |pre| + 3 + width - |Decimal(n)|
    ensures at + |Decimal(n)| <= |pre + Field(34, Zeros(width)) + post|
    ensures Patched(pre + Field(34, Zeros(width)) + post, at, Decimal(n)) == pre + Field(34, Padded(n, width)) + post
  {
    assert |Decimal(34)| == 2;
    PatchField(pre, 34, width, Decimal(n), post, at);
  }

  /** Filling the blanks keeps the length, so that the body length stays right. */
  lemma FilledBody(names: Sent, width: nat, acc: Accuracy, payload: seq<byte>, n: nat, time: seq<byte>, w9: nat)
    requires |Decimal(n)| < width && |time| == 18 + acc.Places()
    ensures var blank := BlankBody(names, width, acc, payload);
            Front(|blank|, w9) + (Names(names) + (Field(34, Padded(n, width)) + Field(52, time)) + payload)
            == Unsummed(HeaderText(names.(seqNum := n), width, time) + payload, w9)
  {
    var blank := BlankBody(names, width, acc, payload);
    assert |HeaderText(names.(seqNum := n), width, time) + payload| == |blank|;
  }

  lemma FrontLength(n: nat, width: nat)
    requires |Decimal(n)| <= width
    ensures |Front(n, width)| == |BlankFront(width)|
  {
  }

  lemma LengthPatched(width: nat, body: seq<byte>, at: nat)
    requires |Decimal(|body|)| < width && at == |Field(8, VERSION)| + 2 + width - |Decimal(|body|)|
    ensures at + |Decimal(|body|)| <= |BlankFront(width) + body|
    ensures Patched(BlankFront(width) + body, at, Decimal(|body|)) == Front(|body|, width) + body
  {
    PatchField(Field(8, VERSION), 9, width, Decimal(|body|), body, at);
  }

  lemma Regroup(front: seq<byte>, names: seq<byte>, a: seq<byte>, b: seq<byte>, payload: seq<byte>)
    ensures front + (names + (a + b) + payload) == (front + names) + a + (b + payload)
    ensures front + (names + (a + b) + payload) == (front + names + a) + b + payload
  {
  }

  lemma Joined(pre: seq<byte>, a: seq<byte>, b: seq<byte>, c: seq<byte>)
    ensures pre + a + b + c == pre + (a + b + c)
  {
  }

  /** A value written over the right end of a blank field. */
  lemma PatchField(pre: seq<byte>, tag: nat, width: nat, v: seq<byte>, post: seq<byte>, at: nat)
    requires |v| <= width && at == |pre| + |Decimal(tag)| + 1 + width - |v|
    ensures at + |v| <= |pre + Field(tag, Zeros(width)) + post|
    ensures Patched(pre + Field(tag, Zeros(width)) + post, at, v) == pre + Field(tag, Zeros(width - |v|) + v) + post
  {
    var t := Decimal(tag) + [EQUALS];
    assert Field(tag, Zeros(width)) == t + Zeros(width - |v|) + Zeros(|v|) + [SOH];
    assert Field(tag, Zeros(width - |v|) + v) == t + Zeros(width - |v|) + v + [SOH];
  }

  lemma PatchInside(b: seq<byte>, n: nat, at: nat, v: seq<byte>)
    requires at + |v| <= n <= |b|
    ensures Patched(b, at, v)[..n] == Patched(b[..n], at, v)
  {
  }

  method NumDigits(number: nat) returns (ans: nat)
    ensures ans == |Decimal(number)|
  {
    ans := 1;
    var n: nat := number / 10;
    while n != 0
      invariant |Decimal(number)| == ans + (if n == 0 then 0 else |Decimal(n)|)
      decreases n
    {
      ans := ans + 1;
      n := n / 10;
    }
  }
}
