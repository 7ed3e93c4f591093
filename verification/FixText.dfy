/** FIX 4.4 frames as text: what a finished frame is, what the tag and value readers make of any
    bytes, and what the header and body parsers answer (FIX Session Protocol, Standard Message
    Header, Standard Message Trailer, CheckSum Calculation). */
module FixText {
  import opened Common
  import opened Digits
  import Timestamp

  const EQUALS: byte := 61
  /** FIX.4.4 */
  const VERSION: seq<byte> := [70, 73, 88, 46, 52, 46, 52]

  // ---------------------------------------------------------------- fields

  function Field(tag: nat, value: seq<byte>): (f: seq<byte>)
    ensures |f| == |Decimal(tag)| + |value| + 2
  {
    Decimal(tag) + [EQUALS] + value + [SOH]
  }

  /** `f` stands at `p`. */
  predicate Stands(s: seq<byte>, p: nat, f: seq<byte>) { p + |f| <= |s| && s[p..p + |f|] == f }

  /** The first `b` from `p` on, or the end. */
  function Find(s: seq<byte>, p: nat, b: byte): (k: nat)
    requires p <= |s|
    ensures p <= k <= |s| && (k < |s| ==> s[k] == b)
    decreases |s| - p
  {
    if p == |s| || s[p] == b then p else Find(s, p + 1, b)
  }

  lemma {:induction false} FindIs(s: seq<byte>, p: nat, b: byte, k: nat)
    requires p <= k <= |s| && (k < |s| ==> s[k] == b) && forall i :: p <= i < k ==> s[i] != b
    ensures Find(s, p, b) == k
    decreases k - p
  {
    if p < k { FindIs(s, p + 1, b, k); }
  }

  lemma {:induction false} FindSkips(s: seq<byte>, p: nat, b: byte)
    requires p <= |s|
    ensures forall i :: p <= i < Find(s, p, b) ==> s[i] != b
    decreases |s| - p
  {
    if p < |s| && s[p] != b { FindSkips(s, p + 1, b); }
  }

  // ---------------------------------------------------------------- the readers

  /** A value read, and where reading goes on. */
  datatype Got<T> = Got(value: T, next: nat)

  function GetTag(s: seq<byte>, p: nat): (r: Option<Got<int>>)
    requires p <= |s|
    ensures r.Some? ==> p < r.value.next <= |s|
  {
    var k := Find(s, p, EQUALS);
    if k < |s| then Some(Got(Value(s[p..k]), k + 1)) else None
  }

  function GetInt(s: seq<byte>, p: nat): (r: Option<Got<int>>)
    requires p <= |s|
    ensures r.Some? ==> p < r.value.next <= |s|
  {
    var k := Find(s, p, SOH);
    if k < |s| then Some(Got(Value(s[p..k]), k + 1)) else None
  }

  /** The last character before the separator; an empty field leaves the variable as it was. */
  function GetChar(s: seq<byte>, p: nat): (r: Option<Got<Option<byte>>>)
    requires p <= |s|
    ensures r.Some? ==> p < r.value.next <= |s|
  {
    var k := Find(s, p, SOH);
    if k == |s| then None else Some(Got(if k > p then Some(s[k - 1]) else None, k + 1))
  }

  /** A text as the C string it is kept in. */
  function CString(t: seq<byte>): seq<byte> { t[..Find(t, 0, 0)] }

  /** Text into an array of `length` bytes: none if it does not fit with its terminator or there
      is none; unterminated text that fits is taken, but not passed. */
  function GetText(s: seq<byte>, p: nat, length: nat): (r: Option<Got<seq<byte>>>)
    requires p <= |s|
    ensures r.Some? ==> p <= r.value.next <= |s|
  {
    var k := Find(s, p, SOH);
    if k < |s| then (if k - p + 1 <= length then Some(Got(CString(s[p..k]), k + 1)) else None)
    else if 0 < k - p <= length then Some(Got(CString(s[p..k]), p))
    else None
  }

  /** `moveReadPosTo`: the offset counts from the first byte, but it is compared with where the
      bytes end in the ring, `start` further on. A negative offset is huge as a `size_t`. */
  function MoveTo(s: seq<byte>, p: nat, offset: int, start: nat): (q: nat)
    requires p <= |s| && offset <= |s|
    ensures q <= |s|
  {
    if 0 <= offset < start + |s| then offset else p
  }

  function NextTag(s: seq<byte>, p: nat): (q: nat)
    requires p <= |s|
    ensures p <= q <= |s|
  {
    var k := Find(s, p, SOH);
    if k < |s| then k + 1 else p
  }

  // ---------------------------------------------------------------- the parsers

  datatype Status =
    Success | NotComplete | TagReadError(tag: int) | TagValueReadError(tag: int) | IncorrectTagValue(tag: int)

  /** Message types as the parser tells them apart. */
  datatype Kind =
    HeartBeat | Logon | Logout | MarketDataRequest | MarketData | Snapshot | ExecutionReport | CancelReject | Undefined

  const HEART_BEAT: byte := 48   // '0'
  const LOGON: byte := 65        // 'A'

  function KindOf(c: Option<byte>): Kind {
    match c
    case None => Undefined
    case Some(b) =>
      if b == HEART_BEAT then HeartBeat
      else if b == LOGON then Logon
      else if b == 53 then Logout                // '5'
      else if b == 86 then MarketDataRequest     // 'V'
      else if b == 88 then MarketData            // 'X'
      else if b == 87 then Snapshot              // 'W'
      else if b == 56 then ExecutionReport       // '8'
      else if b == 57 then CancelReject          // '9'
      else Undefined
  }

  /** Bodies that are read by parsers this model does not have. */
  predicate ReadElsewhere(k: Kind) { k.MarketData? || k.Snapshot? || k.ExecutionReport? || k.CancelReject? }

  datatype Header = Header(kind: Kind, sender: seq<byte>, target: seq<byte>, seqNum: int, time: nat, total: nat)

  /** What `reset` leaves: everything but the type. */
  function Reset(h: Header, total: nat): Header { Header(h.kind, [], [], 0, 0, total) }

  /** A record as parsing leaves it, with the verdict and where reading stopped. */
  datatype Parsed<H> = Parsed(status: Status, value: H, next: nat)

  /** One turn of a parsing loop: it goes on, or it is over. */
  datatype Turn<H> = More(value: H, next: nat) | Over(result: Parsed<H>)

  predicate Skipped(tag: int) { tag == 43 || tag == 97 || tag == 369 || tag == 50 || tag == 57 || tag == 122 }

  function HeaderTurn(s: seq<byte>, p: nat, h: Header): (r: Turn<Header>)
    requires p <= |s|
    ensures match r case More(_, next) => p < next <= |s| case Over(result) => result.next <= |s|
  {
    match GetTag(s, p)
    case None => Over(Parsed(TagReadError(Value(s[p..])), h, p))
    case Some(Got(tag, q)) =>
      if tag == 35 then
        match GetChar(s, q)
        case None => Over(Parsed(TagValueReadError(tag), h, q))
        case Some(Got(c, next)) => More(h.(kind := KindOf(c)), next)
      else if tag == 52 then
        match GetText(s, q, 40)
        case None => Over(Parsed(TagValueReadError(tag), h, q))
        case Some(Got(t, next)) => More(h.(time := Timestamp.Instant(t)), next)
      else if tag == 49 then
        match GetText(s, q, 30)
        case None => Over(Parsed(TagValueReadError(tag), h, q))
        case Some(Got(t, next)) => More(h.(sender := t), next)
      else if tag == 56 then
        match GetText(s, q, 30)
        case None => Over(Parsed(TagValueReadError(tag), h, q))
        case Some(Got(t, next)) => More(h.(target := t), next)
      else if tag == 34 then
        match GetInt(s, q)
        case None => Over(Parsed(TagValueReadError(tag), h, q))
        case Some(Got(n, next)) => More(h.(seqNum := n), next)
      else if Skipped(tag) then More(h, NextTag(s, q))
      else Over(Parsed(Success, h, p))
  }

  function HeaderTags(s: seq<byte>, p: nat, h: Header): (r: Parsed<Header>)
    requires p <= |s|
    ensures r.next <= |s|
    decreases |s| - p
  {
    match HeaderTurn(s, p, h)
    case More(h', next) => HeaderTags(s, next, h')
    case Over(result) => result
  }

  function ByteSum(s: seq<byte>): nat {
    if s == [] then 0 else ByteSum(s[..|s| - 1]) + s[|s| - 1]
  }

  /** Where the version, the body length, the body and the trailer of a frame were found. */
  datatype Envelope = Envelope(bodyLength: int, begin: nat, trailer: nat, checksum: int, total: nat)

  datatype EnvelopeResult = Bad(status: Status) | Good(envelope: Envelope)

  function ReadEnvelope(s: seq<byte>, start: nat): (r: EnvelopeResult)
    ensures r.Good? ==> r.envelope.begin <= |s| && r.envelope.trailer <= |s| && r.envelope.total <= |s|
  {
    if |s| < 16 then Bad(NotComplete)
    else
      match GetTag(s, 0)
      case None => Bad(TagReadError(8))
      case Some(Got(tag8, p)) =>
        if tag8 != 8 then Bad(TagReadError(8))
        else
          match GetText(s, p, 20)
          case None => Bad(TagValueReadError(8))
          case Some(Got(version, q)) =>
            if version != VERSION then Bad(IncorrectTagValue(8)) else ReadLength(s, q, start)
  }

  function ReadLength(s: seq<byte>, p: nat, start: nat): (r: EnvelopeResult)
    requires p <= |s|
    ensures r.Good? ==> r.envelope.begin <= |s| && r.envelope.trailer <= |s| && r.envelope.total <= |s|
  {
    match GetTag(s, p)
    case None => Bad(TagReadError(9))
    case Some(Got(tag9, q)) =>
      if tag9 != 9 then Bad(TagReadError(9))
      else
        match GetInt(s, q)
        case None => Bad(TagValueReadError(9))
        case Some(Got(bodyLength, begin)) =>
          // compared as unsigned: a length below -6 is huge
          if bodyLength + 6 < 0 || bodyLength + 6 > |s| - begin then Bad(NotComplete)
          else ReadTrailer(s, bodyLength, begin, start)
  }

  function ReadTrailer(s: seq<byte>, bodyLength: int, begin: nat, start: nat): (r: EnvelopeResult)
    requires begin <= |s| && begin + bodyLength <= |s|
    ensures r.Good? ==> r.envelope.begin <= |s| && r.envelope.trailer <= |s| && r.envelope.total <= |s|
  {
    var trailer := MoveTo(s, begin, begin + bodyLength, start);
    match GetTag(s, trailer)
    case None => Bad(TagReadError(10))
    case Some(Got(tag10, q)) =>
      if tag10 != 10 then Bad(TagReadError(10))
      else
        match GetInt(s, q)
        case None => Bad(TagValueReadError(10))
        case Some(Got(checksum, total)) =>
          if ByteSum(s[..trailer]) % 256 != checksum then Bad(IncorrectTagValue(10))
          else Good(Envelope(bodyLength, begin, trailer, checksum, total))
  }

  /** `start` is where the first byte stands in the ring. */
  function ParseHeader(s: seq<byte>, was: Header, start: nat): (r: Parsed<Header>)
    ensures r.next <= |s|
  {
    match ReadEnvelope(s, start)
    case Bad(status) => Parsed(status, was, 0)
    case Good(e) => HeaderTags(s, MoveTo(s, e.total, e.begin, start), Reset(was, e.total))
  }

  datatype Flag = No | Yes | Unknown

  function FlagOf(c: Option<byte>): Flag {
    if c == Some(78) then No else if c == Some(89) then Yes else Unknown
  }

  datatype LogonBody = LogonBody(resetSeqNum: Flag, heartBeat: int, nextExpected: int, encryptMethod: int)

  function LogonTurn(s: seq<byte>, p: nat, l: LogonBody): (r: Turn<LogonBody>)
    requires p <= |s|
    ensures match r case More(_, next) => p < next <= |s| case Over(result) => result.next <= |s|
  {
    match GetTag(s, p)
    case None => Over(Parsed(TagValueReadError(Value(s[p..])), l, p))
    case Some(Got(tag, q)) =>
      if tag == 141 then
        match GetChar(s, q)
        case None => Over(Parsed(TagValueReadError(tag), l, q))
        case Some(Got(c, next)) => More(l.(resetSeqNum := FlagOf(c)), next)
      else if tag == 108 || tag == 789 || tag == 98 then
        match GetInt(s, q)
        case None => Over(Parsed(TagValueReadError(tag), l, q))
        case Some(Got(n, next)) =>
          More(if tag == 108 then l.(heartBeat := n) else if tag == 789 then l.(nextExpected := n)
               else l.(encryptMethod := n), next)
      else Over(Parsed(Success, l, p))
  }

  function LogonTags(s: seq<byte>, p: nat, l: LogonBody): (r: Parsed<LogonBody>)
    requires p <= |s|
    ensures r.next <= |s|
    decreases |s| - p
  {
    match LogonTurn(s, p, l)
    case More(l', next) => LogonTags(s, next, l')
    case Over(result) => result
  }

  const NO_LOGON := LogonBody(Unknown, 0, 0, 0)

  function HeartBeatTurn(s: seq<byte>, p: nat, testId: seq<byte>): (r: Turn<seq<byte>>)
    requires p <= |s|
    ensures match r case More(_, next) => p < next <= |s| case Over(result) => result.next <= |s|
  {
    match GetTag(s, p)
    case None => Over(Parsed(TagValueReadError(Value(s[p..])), testId, p))
    case Some(Got(tag, q)) =>
      if tag == 112 then
        match GetText(s, q, 30)
        case None => Over(Parsed(TagValueReadError(tag), testId, q))
        case Some(Got(t, next)) => More(t, next)
      else Over(Parsed(Success, testId, p))
  }

  function HeartBeatTags(s: seq<byte>, p: nat, testId: seq<byte>): (r: Parsed<seq<byte>>)
    requires p <= |s|
    ensures r.next <= |s|
    decreases |s| - p
  {
    match HeartBeatTurn(s, p, testId)
    case More(t, next) => HeartBeatTags(s, next, t)
    case Over(result) => result
  }
}
