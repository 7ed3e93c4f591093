/** Frames as they arrive from the network: whole, or only their first bytes. */
module FixArrival {
  import opened Common
  import opened Digits
  import opened FixText
  import opened FixFrames
  import opened FixRoundTrip
  import opened Timestamp

  // ---------------------------------------------------------------- whole frames

  /** The parser has all it wants of a whole frame with `extra` bytes behind it: six bytes of trailer,
      or one of what follows. */
  predicate Enough(body: seq<byte>, width: nat, extra: int) { Checksum(Unsummed(body, width)) >= 10 || extra > 0 }

  /** A Logon frame is understood as it was sent exactly when the parser has `Enough` and the encryption
      method is not negative. */
  lemma LogonArrives(s: seq<byte>, start: nat, m: Sent, l: Logon, w34: nat, w9: nat, time: seq<byte>, instant: nat,
                     was: Header, body: seq<byte>) returns (p: nat)
    requires Sendable(m) && m.kind == LOGON && Tells(time, instant)
    requires body == HeaderText(m, w34, time) + LogonText(l) && Stands(s, 0, Frame(body, w9))
    ensures p <= |s|
    ensures var total := |Frame(body, w9)|;
            ParseHeader(s, was, start)
            == if Enough(body, w9, |s| - total)
               then Parsed(Success, Header(Kind.Logon, m.sender, m.target, m.seqNum, instant, total), p)
               else Parsed(NotComplete, was, 0)
    ensures LogonTags(s, p, NO_LOGON)
            == Parsed(Success, LogonBody(if l.resetSeqNum then Yes else No, l.heartBeat, 0, l.encryptMethod),
                      |Unsummed(body, w9)|)
            <==> l.encryptMethod >= 0
  {
    SignedReads(l.encryptMethod);
    p := LogonRoundTrip(s, start, m, l, w34, w9, time, was, body);
  }

  /** A HeartBeat frame is, exactly when the parser has `Enough`. */
  lemma HeartBeatArrives(s: seq<byte>, start: nat, m: Sent, testId: seq<byte>, w34: nat, w9: nat, time: seq<byte>,
                         instant: nat, was: Header, body: seq<byte>) returns (p: nat)
    requires Sendable(m) && m.kind == HEART_BEAT && Tells(time, instant) && Plain(testId) && |testId| < 30
    requires body == HeaderText(m, w34, time) + HeartBeatText(testId) && Stands(s, 0, Frame(body, w9))
    ensures p <= |s|
    ensures var total := |Frame(body, w9)|;
            ParseHeader(s, was, start)
            == if Enough(body, w9, |s| - total)
               then Parsed(Success, Header(HeartBeat, m.sender, m.target, m.seqNum, instant, total), p)
               else Parsed(NotComplete, was, 0)
    ensures HeartBeatTags(s, p, []) == Parsed(Success, testId, |Unsummed(body, w9)|)
  {
    p := HeartBeatRoundTrip(s, start, m, testId, w34, w9, time, was, body);
  }

  /** A frame of any kind, its body starting with no header field, announces that kind to the parser,
      once it has `Enough`. */
  lemma KindArrives(s: seq<byte>, start: nat, m: Sent, w34: nat, w9: nat, time: seq<byte>, was: Header,
                    body: seq<byte>, payload: seq<byte>, tag: nat, v: seq<byte>)
    requires Sendable(m) && Plain(time) && |time| < 40 && Plain(v) && !HeaderTag(tag)
    requires body == HeaderText(m, w34, time) + payload && Stands(s, 0, Frame(body, w9))
    requires Stands(s, |Front(|body|, w9)| + |HeaderText(m, w34, time)|, Field(tag, v))
    requires Enough(body, w9, |s| - |Frame(body, w9)|)
    ensures var h := ParseHeader(s, was, start);
            && h.status == Success
            && (h.value.kind == HeartBeat <==> m.kind as char == '0')
            && (h.value.kind == Kind.Logon <==> m.kind as char == 'A')
            && (h.value.kind == Logout <==> m.kind as char == '5')
            && (h.value.kind == MarketDataRequest <==> m.kind as char == 'V')
            && (h.value.kind == MarketData <==> m.kind as char == 'X')
            && (h.value.kind == Snapshot <==> m.kind as char == 'W')
            && (h.value.kind == ExecutionReport <==> m.kind as char == '8')
            && (h.value.kind == CancelReject <==> m.kind as char == '9')
  {
    HeaderDelivered(s, start, m, w34, time, payload, body, w9, was, tag, v,
                    |Front(|body|, w9)| + |HeaderText(m, w34, time)|);
    KindTable(m.kind);
  }

  lemma KindTable(b: byte)
    ensures var k := KindOf(Some(b));
            && (k == HeartBeat <==> b as char == '0') && (k == Kind.Logon <==> b as char == 'A')
            && (k == Logout <==> b as char == '5') && (k == MarketDataRequest <==> b as char == 'V')
            && (k == MarketData <==> b as char == 'X') && (k == Snapshot <==> b as char == 'W')
            && (k == ExecutionReport <==> b as char == '8') && (k == CancelReject <==> b as char == '9')
  {
    assert '0' as int == 48 && 'A' as int == 65 && '5' as int == 53 && 'V' as int == 86;
    assert 'X' as int == 88 && 'W' as int == 87 && '8' as int == 56 && '9' as int == 57;
  }

  // ---------------------------------------------------------------- first bytes

  lemma PrefixStands(t: seq<byte>, n: nat, p: nat, f: seq<byte>)
    requires n <= |t| && Stands(t, p, f) && p + |f| <= n
    ensures Stands(t[..n], p, f)
  {
  }

  /** A number whose separator has not come yet. */
  lemma OpenNumber(t: seq<byte>, n: nat, p: nat, tag: nat, v: seq<byte>) returns (q: nat)
    requires Stands(t, p, Field(tag, v)) && Plain(v) && p + |Decimal(tag)| + 1 <= n < p + |Field(tag, v)|
    ensures n <= |t| && GetTag(t[..n], p) == Some(Got(tag, q)) && GetInt(t[..n], q) == None
  {
    var d := Decimal(tag);
    var e := Parts(t, p, d + [EQUALS] + v, [SOH]);
    q := Parts(t, p, d + [EQUALS], v);
    var k := Parts(t, p, d, [EQUALS]);
    var s := t[..n];
    PrefixStands(t, n, p, d);
    PrefixStands(t, n, k, [EQUALS]);
    TagAt(s, p, tag, k);
    forall i | q <= i < n ensures s[i] != SOH {
      assert s[i] == t[q..e][i - q];
    }
    FindIs(s, q, SOH, n);
  }

  lemma LengthCut(t: seq<byte>, n: nat, p: nat, length: nat, width: nat, start: nat)
    requires Stands(t, p, Field(9, Padded(length, width))) && p + 2 <= n < p + |Field(9, Padded(length, width))|
    ensures n <= |t| && ReadLength(t[..n], p, start) == Bad(TagValueReadError(9))
  {
    var q := OpenNumber(t, n, p, 9, Padded(length, width));
  }

  lemma TrailerCut(t: seq<byte>, n: nat, begin: nat, length: nat, trailer: nat, c: nat, start: nat)
    requires trailer == begin + length && Stands(t, trailer, Trailer(c)) && trailer + 3 <= n < trailer + |Trailer(c)|
    ensures n <= |t| && ReadTrailer(t[..n], length, begin, start) == Bad(TagValueReadError(10))
  {
    assert |Decimal(10)| == 2;
    var q := OpenNumber(t, n, trailer, 10, Decimal(c));
  }

  /** What the parser says of the first `n` bytes of a frame. */
  function VerdictOnPrefix(n: nat, body: seq<byte>, width: nat): Status {
    if n < 16 then NotComplete
    else if n < |Front(|body|, width)| then TagValueReadError(9)
    else if n < |Unsummed(body, width)| + 6 then NotComplete
    else TagValueReadError(10)
  }

  lemma PrefixOfFront(t: seq<byte>, n: nat, body: seq<byte>, width: nat, start: nat)
    requires t == Frame(body, width) && n < |Front(|body|, width)|
    ensures n <= |t| && ReadEnvelope(t[..n], start) == Bad(VerdictOnPrefix(n, body, width))
  {
    var p, begin, trailer := FrameParts(t, body, width);
    if n >= 16 {
      PrefixStands(t, n, 0, Field(8, VERSION));
      var q := VersionRead(t[..n], start);
      LengthCut(t, n, p, |body|, width, start);
    }
  }

  lemma PrefixOfRest(t: seq<byte>, n: nat, body: seq<byte>, width: nat, start: nat)
    requires t == Frame(body, width) && |Front(|body|, width)| <= n < |t|
    ensures ReadEnvelope(t[..n], start) == Bad(VerdictOnPrefix(n, body, width))
  {
    var c := Checksum(Unsummed(body, width));
    var p, begin, trailer := FrameParts(t, body, width);
    TrailerLength(c);
    if n >= 16 {
      PrefixStands(t, n, 0, Field(8, VERSION));
      PrefixStands(t, n, p, Field(9, Padded(|body|, width)));
      var q := VersionRead(t[..n], start);
      LengthRead(t[..n], p, |body|, width, begin, start);
      if n >= trailer + 6 { TrailerCut(t, n, begin, |body|, trailer, c, start); }
    }
  }

  /** Any proper prefix of a frame is refused, but not always as incomplete: cut inside the length
      field after the sixteenth byte, or just before the last byte of a three-digit checksum, it is
      an error, upon which the session closes the connection. */
  lemma PrefixIsNoFrame(t: seq<byte>, n: nat, body: seq<byte>, width: nat, was: Header, start: nat)
    requires t == Frame(body, width) && n < |t|
    ensures ParseHeader(t[..n], was, start) == Parsed(VerdictOnPrefix(n, body, width), was, 0)
  {
    assert t[..|t|] == t;
    if n < |Front(|body|, width)| {
      PrefixOfFront(t, n, body, width, start);
    } else {
      PrefixOfRest(t, n, body, width, start);
    }
  }

  lemma {:induction false} ByteSumOf(a: seq<byte>, b: seq<byte>)
    ensures ByteSum(a + b) == ByteSum(a) + ByteSum(b)
    decreases |b|
  {
    if b == [] {
      assert a + b == a;
    } else {
      ByteSumOf(a, b[..|b| - 1]);
      assert (a + b)[..|a + b| - 1] == a + b[..|b| - 1];
    }
  }

  lemma FourBytes(a: byte, b: byte, c: byte, d: byte)
    ensures ByteSum([a, b, c, d]) == a + b + c + d
  {
    assert [a, b, c, d][..3] == [a, b, c] && [a, b, c][..2] == [a, b] && [a, b][..1] == [a];
    assert ByteSum([a]) == a;
    assert ByteSum([a, b]) == a + b;
    assert ByteSum([a, b, c]) == a + b + c;
  }

  const SHORT_BODY: seq<byte> := Field(35, [HEART_BEAT])

  lemma ShortFrame()
    ensures |SHORT_BODY| == 5 && |Front(5, 6)| == 19 && |Frame(SHORT_BODY, 6)| == 31
  {
    assert Decimal(35) == [51, 53] && Decimal(9) == [57] && Decimal(8) == [56] && Decimal(5) == [53];
    assert Unsummed(SHORT_BODY, 6) == [56, EQUALS, 70, 73] + [88, 46, 52, 46] + [52, SOH, 57, EQUALS]
                                      + [48, 48, 48, 48] + [48, 53, SOH, 51] + [53, EQUALS, 48, SOH];
    ByteSumOf([56, EQUALS, 70, 73] + [88, 46, 52, 46] + [52, SOH, 57, EQUALS] + [48, 48, 48, 48] + [48, 53, SOH, 51],
              [53, EQUALS, 48, SOH]);
    ByteSumOf([56, EQUALS, 70, 73] + [88, 46, 52, 46] + [52, SOH, 57, EQUALS] + [48, 48, 48, 48], [48, 53, SOH, 51]);
    ByteSumOf([56, EQUALS, 70, 73] + [88, 46, 52, 46] + [52, SOH, 57, EQUALS], [48, 48, 48, 48]);
    ByteSumOf([56, EQUALS, 70, 73] + [88, 46, 52, 46], [52, SOH, 57, EQUALS]);
    ByteSumOf([56, EQUALS, 70, 73], [88, 46, 52, 46]);
    FourBytes(56, EQUALS, 70, 73);
    FourBytes(88, 46, 52, 46);
    FourBytes(52, SOH, 57, EQUALS);
    FourBytes(48, 48, 48, 48);
    FourBytes(48, 53, SOH, 51);
    FourBytes(53, EQUALS, 48, SOH);
    TrailerLength(Checksum(Unsummed(SHORT_BODY, 6)));
  }

  /** The frame 8=FIX.4.4 9=000005 35=0 10=147, cut after sixteen bytes and before its last one. */
  lemma CutShortFrameIsAnError(was: Header, start: nat)
    ensures var t := Frame(SHORT_BODY, 6);
            && |t| == 31
            && ParseHeader(t[..16], was, start) == Parsed(TagValueReadError(9), was, 0)
            && ParseHeader(t[..29], was, start) == Parsed(NotComplete, was, 0)
            && ParseHeader(t[..30], was, start) == Parsed(TagValueReadError(10), was, 0)
  {
    ShortFrame();
    var t := Frame(SHORT_BODY, 6);
    PrefixIsNoFrame(t, 16, SHORT_BODY, 6, was, start);
    PrefixIsNoFrame(t, 29, SHORT_BODY, 6, was, start);
    PrefixIsNoFrame(t, 30, SHORT_BODY, 6, was, start);
  }
}
