/** The message parser, filling its header and body records from a reader. */
module FixParser {
  import opened Common
  import opened Digits
  import opened FixText
  import opened FixReader
  import Bits
  import Timestamp

  class MessageParser {
    var header: Header
    var logon: LogonBody
    var testId: seq<byte>
    var reader: TagValueReader?

    constructor ()
      ensures header == Header(Undefined, [], [], 0, 0, 0)
    {
      header := Header(Undefined, [], [], 0, 0, 0);
      logon := NO_LOGON;
      testId := [];
      reader := null;
    }

    /** The header of the bytes from `start` to `end`. */
    method ParseHeader(buffer: array<byte>, start: nat, end: nat, mask: nat) returns (status: Status)
      requires Bits.IsPow2(buffer.Length) && mask == buffer.Length - 1 && start <= end <= start + buffer.Length
      modifies this`header, this`reader
      ensures reader != null && fresh(reader) && reader.Valid()
      ensures reader.buffer == buffer && reader.start == start && reader.end == end
      ensures var r := FixText.ParseHeader(reader.View(), old(header), start);
              status == r.status && header == r.value && (status == Success ==> reader.Pos() == r.next)
    {
      var r := new TagValueReader(buffer, start, end, mask);
      reader := r;
      var found := FindEnvelope(r);
      if found.Bad? { return found.status; }
      var moved := r.MoveReadPosTo(found.envelope.begin);
      header := Reset(header, found.envelope.total);
      status := ParseHeaderTags(r);
    }

    /** One tag of the header with its value. */
    method ReadHeaderTag(r: TagValueReader) returns (more: bool, status: Status)
      requires r.Valid()
      modifies this`header, r
      ensures r.Valid()
      ensures HeaderTurn(r.View(), old(r.Pos()), old(header))
              == if more then More(header, r.Pos()) else Over(Parsed(status, header, r.Pos()))
    {
      var known, tag := r.ReadTag();
      if !known { return false, TagReadError(tag); }
      match tag {
        case 35 => more := ReadKind(r);
        case 52 => more := ReadTime(r);
        case 49 =>
          var text;
          more, text := ReadName(r);
          if more { header := header.(sender := text); }
        case 56 =>
          var text;
          more, text := ReadName(r);
          if more { header := header.(target := text); }
        case 34 => more := ReadSeqNum(r);
        case _ =>
          if Skipped(tag) {
            var moved := r.MoveToNextTag();
            more := true;
          } else {
            var back := r.LastTagPos();
            var moved := r.MoveReadPosTo(back);
            return false, Success;
          }
      }
      status := if more then Success else TagValueReadError(tag);
    }

    method ReadKind(r: TagValueReader) returns (ok: bool)
      requires r.Valid()
      modifies this`header, r
      ensures r.Valid() && ok == GetChar(r.View(), old(r.Pos())).Some? && r.lastTagPos == old(r.lastTagPos)
      ensures ok ==> GetChar(r.View(), old(r.Pos())).value.next == r.Pos()
      ensures ok ==> header == old(header).(kind := KindOf(GetChar(r.View(), old(r.Pos())).value.value))
      ensures !ok ==> header == old(header) && r.Pos() == old(r.Pos())
    {
      var value;
      ok, value := r.ReadChar();
      if ok { header := header.(kind := KindOf(value)); }
    }

    method ReadSeqNum(r: TagValueReader) returns (ok: bool)
      requires r.Valid()
      modifies this`header, r
      ensures r.Valid() && ok == GetInt(r.View(), old(r.Pos())).Some?
      ensures ok ==> GetInt(r.View(), old(r.Pos())) == Some(Got(header.seqNum, r.Pos()))
      ensures ok ==> header == old(header).(seqNum := header.seqNum)
      ensures !ok ==> header == old(header) && r.Pos() == old(r.Pos())
    {
      var value;
      ok, value := r.ReadInt();
      if ok { header := header.(seqNum := value); }
    }

    method ReadTime(r: TagValueReader) returns (ok: bool)
      requires r.Valid()
      modifies this`header, r
      ensures r.Valid() && ok == GetText(r.View(), old(r.Pos()), 40).Some?
      ensures ok ==> GetText(r.View(), old(r.Pos()), 40).value.next == r.Pos()
      ensures ok ==> header == old(header).(time := Timestamp.Instant(GetText(r.View(), old(r.Pos()), 40).value.value))
      ensures !ok ==> header == old(header) && r.Pos() == old(r.Pos())
    {
      var time := new byte[40];
      var n := r.ReadText(time, 40);
      ok := n > 0;
      if ok {
        var instant := Timestamp.FixTimestampToNs(CString(time[..n]));
        header := header.(time := instant);
      }
    }

    method ReadName(r: TagValueReader) returns (ok: bool, text: seq<byte>)
      requires r.Valid()
      modifies r
      ensures r.Valid() && ok == GetText(r.View(), old(r.Pos()), 30).Some?
      ensures ok ==> GetText(r.View(), old(r.Pos()), 30) == Some(Got(text, r.Pos()))
      ensures !ok ==> r.Pos() == old(r.Pos())
    {
      var name := new byte[30];
      var n := r.ReadText(name, 30);
      ok, text := n > 0, CString(name[..n]);
    }

    method ParseHeaderTags(r: TagValueReader) returns (status: Status)
      requires r.Valid()
      modifies this`header, r
      ensures r.Valid() && HeaderTags(r.View(), old(r.Pos()), old(header)) == Parsed(status, header, r.Pos())
    {
      ghost var s := r.View();
      while true
        invariant r.Valid() && r.View() == s
        invariant HeaderTags(s, r.Pos(), header) == HeaderTags(s, old(r.Pos()), old(header))
        decreases |s| - r.Pos()
      {
        var more;
        more, status := ReadHeaderTag(r);
        if !more { return; }
      }
    }

    method ReadLogonTag(r: TagValueReader) returns (more: bool, status: Status)
      requires r.Valid()
      modifies this`logon, r
      ensures r.Valid()
      ensures LogonTurn(r.View(), old(r.Pos()), old(logon))
              == if more then More(logon, r.Pos()) else Over(Parsed(status, logon, r.Pos()))
    {
      var known, tag := r.ReadTag();
      if !known { return false, TagValueReadError(tag); }
      if tag == 141 {
        var flag;
        more, flag := r.ReadChar();
        if more { logon := logon.(resetSeqNum := FlagOf(flag)); }
      } else if tag == 108 || tag == 789 || tag == 98 {
        var value;
        more, value := r.ReadInt();
        if more {
          match tag {
            case 108 => logon := logon.(heartBeat := value);
            case 789 => logon := logon.(nextExpected := value);
            case _ => logon := logon.(encryptMethod := value);
          }
        }
      } else {
        var back := r.LastTagPos();
        var moved := r.MoveReadPosTo(back);
        return false, Success;
      }
      status := if more then Success else TagValueReadError(tag);
    }

    method ParseLoginSuccess(r: TagValueReader) returns (status: Status)
      requires r.Valid()
      modifies this`logon, r
      ensures r.Valid() && LogonTags(r.View(), old(r.Pos()), NO_LOGON) == Parsed(status, logon, r.Pos())
    {
      logon := NO_LOGON;
      ghost var s := r.View();
      while true
        invariant r.Valid() && r.View() == s
        invariant LogonTags(s, r.Pos(), logon) == LogonTags(s, old(r.Pos()), NO_LOGON)
        decreases |s| - r.Pos()
      {
        var more;
        more, status := ReadLogonTag(r);
        if !more { return; }
      }
    }

    method ReadHeartBeatTag(r: TagValueReader) returns (more: bool, status: Status)
      requires r.Valid()
      modifies this`testId, r
      ensures r.Valid()
      ensures HeartBeatTurn(r.View(), old(r.Pos()), old(testId))
              == if more then More(testId, r.Pos()) else Over(Parsed(status, testId, r.Pos()))
    {
      var known, tag := r.ReadTag();
      if !known { return false, TagValueReadError(tag); }
      if tag != 112 {
        var back := r.LastTagPos();
        var moved := r.MoveReadPosTo(back);
        return false, Success;
      }
      var text;
      more, text := ReadName(r);
      if more { testId := text; }
      status := if more then Success else TagValueReadError(tag);
    }

    method ParseHeartBeat(r: TagValueReader) returns (status: Status)
      requires r.Valid()
      modifies this`testId, r
      ensures r.Valid() && HeartBeatTags(r.View(), old(r.Pos()), []) == Parsed(status, testId, r.Pos())
    {
      testId := [];
      ghost var s := r.View();
      while true
        invariant r.Valid() && r.View() == s
        invariant HeartBeatTags(s, r.Pos(), testId) == HeartBeatTags(s, old(r.Pos()), [])
        decreases |s| - r.Pos()
      {
        var more;
        more, status := ReadHeartBeatTag(r);
        if !more { return; }
      }
    }

    /** The body of the kind the header announces; none if that has a parser of its own. */
    method ParseBody(r: TagValueReader) returns (status: Option<Status>)
      requires r.Valid()
      modifies this`logon, this`testId, r
      ensures r.Valid() && (status.None? <==> ReadElsewhere(header.kind))
      ensures match header.kind
              case Logon =>
                testId == old(testId) && status.Some?
                && LogonTags(r.View(), old(r.Pos()), NO_LOGON) == Parsed(status.value, logon, r.Pos())
              case HeartBeat =>
                logon == old(logon) && status.Some?
                && HeartBeatTags(r.View(), old(r.Pos()), []) == Parsed(status.value, testId, r.Pos())
              case _ =>
                logon == old(logon) && testId == old(testId) && r.Pos() == old(r.Pos())
                && (status.Some? ==> status.value == IncorrectTagValue(35))
    {
      var read;
      match header.kind {
        case Logon => read := ParseLoginSuccess(r);
        case HeartBeat => read := ParseHeartBeat(r);
        case _ =>
          if ReadElsewhere(header.kind) { return None; }
          read := IncorrectTagValue(35);
      }
      return Some(read);
    }
  }

  /** Version, body length and trailer, which must agree with the bytes. */
  method FindEnvelope(r: TagValueReader) returns (e: EnvelopeResult)
    requires r.Valid() && r.Pos() == 0
    modifies r
    ensures r.Valid() && e == ReadEnvelope(r.View(), r.start)
    ensures e.Good? ==> r.Pos() == e.envelope.total
  {
    var remain := r.RemainBytes();
    if remain < 16 { return Bad(NotComplete); }
    var ok, tag := r.ReadTag();
    if !ok || tag != 8 { return Bad(TagReadError(8)); }
    var version := new byte[20];
    var n := r.ReadText(version, 20);
    if n == 0 { return Bad(TagValueReadError(8)); }
    if CString(version[..n]) != VERSION { return Bad(IncorrectTagValue(8)); }
    e := FindLength(r);
  }

  method FindLength(r: TagValueReader) returns (e: EnvelopeResult)
    requires r.Valid()
    modifies r
    ensures r.Valid() && e == ReadLength(r.View(), old(r.Pos()), r.start)
    ensures e.Good? ==> r.Pos() == e.envelope.total
  {
    var ok, tag := r.ReadTag();
    if !ok || tag != 9 { return Bad(TagReadError(9)); }
    var bodyLength;
    ok, bodyLength := r.ReadInt();
    if !ok { return Bad(TagValueReadError(9)); }
    var remain := r.RemainBytes();
    // compared as unsigned
    if bodyLength + 6 < 0 || bodyLength + 6 > remain { return Bad(NotComplete); }
    e := FindTrailer(r, bodyLength);
  }

  method FindTrailer(r: TagValueReader, bodyLength: int) returns (e: EnvelopeResult)
    requires r.Valid() && r.Pos() + bodyLength <= |r.View()|
    modifies r
    ensures r.Valid() && e == ReadTrailer(r.View(), bodyLength, old(r.Pos()), r.start)
    ensures e.Good? ==> r.Pos() == e.envelope.total
  {
    var begin := r.ParseBytes();
    var moved := r.MoveReadPosTo(begin + bodyLength);
    var trailer := r.ParseBytes();
    var status, checksum := FindChecksum(r);
    if status != Success { return Bad(status); }
    var total := r.ParseBytes();
    var sum := SumBytes(r, trailer);
    if sum % 256 != checksum { return Bad(IncorrectTagValue(10)); }
    return Good(Envelope(bodyLength, begin, trailer, checksum, total));
  }

  /** The trailer's tag and number. */
  method FindChecksum(r: TagValueReader) returns (status: Status, checksum: int)
    requires r.Valid()
    modifies r
    ensures r.Valid()
    ensures match GetTag(r.View(), old(r.Pos()))
            case None => status == TagReadError(10)
            case Some(Got(tag, q)) =>
              if tag != 10 then status == TagReadError(10)
              else match GetInt(r.View(), q)
                   case None => status == TagValueReadError(10)
                   case Some(got) => status == Success && got == Got(checksum, r.Pos())
  {
    var ok, tag := r.ReadTag();
    checksum := 0;
    if !ok || tag != 10 { return TagReadError(10), 0; }
    ok, checksum := r.ReadInt();
    status := if ok then Success else TagValueReadError(10);
  }

  method SumBytes(r: TagValueReader, n: nat) returns (sum: nat)
    requires r.Valid() && n <= |r.View()|
    ensures sum == ByteSum(r.View()[..n])
  {
    sum := 0;
    for i := 0 to n
      invariant sum == ByteSum(r.View()[..i])
    {
      var val := r.ByteAt(i + r.start);
      assert r.View()[..i + 1][..i] == r.View()[..i];
      sum := sum + val;
    }
  }
}
