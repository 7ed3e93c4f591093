/** What an accepted header says about the bytes, and that a changed byte of the body is noticed. */
module FixDamage {
  import opened Common
  import opened Digits
  import opened FixText

  /** The body starts after a separator and ends, after as many bytes as the length field says, where a
      trailer stands whose number is the byte sum of all before it, modulo 256. */
  predicate Sound(s: seq<byte>, e: Envelope) {
    && 0 < e.begin <= e.trailer + 6 <= |s| && s[e.begin - 1] == SOH
    && e.trailer == e.begin + e.bodyLength
    && e.trailer < e.total <= |s| && s[e.total - 1] == SOH
    && GetTag(s, e.trailer).Some? && GetTag(s, e.trailer).value.value == 10
    && GetTag(s, e.trailer).value.next <= e.total - 1
    && Value(s[GetTag(s, e.trailer).value.next..e.total - 1]) == ByteSum(s[..e.trailer]) % 256 == e.checksum
  }

  lemma LengthIsSound(s: seq<byte>, p: nat, start: nat)
    requires 6 <= p <= |s| && ReadLength(s, p, start).Good?
    ensures Sound(s, ReadLength(s, p, start).envelope)
  {
  }

  lemma NoSeparatorNoLength(s: seq<byte>, p: nat, start: nat)
    requires p <= |s| && Find(s, p, SOH) == |s|
    ensures ReadLength(s, p, start).Bad?
  {
    var k := Find(s, p, EQUALS);
    if k < |s| {
      FindSkips(s, p, SOH);
      FindIs(s, k + 1, SOH, |s|);
    }
  }

  /** An envelope is found only behind a version field closed by a separator. */
  lemma VersionIsClosed(s: seq<byte>, start: nat) returns (p: nat, q: nat)
    requires ReadEnvelope(s, start).Good?
    ensures GetTag(s, 0) == Some(Got(8, p)) && GetText(s, p, 20) == Some(Got(VERSION, q))
    ensures Find(s, p, SOH) == q - 1 < |s| && 8 <= q && ReadEnvelope(s, start) == ReadLength(s, q, start)
  {
    p := GetTag(s, 0).value.next;
    q := GetText(s, p, 20).value.next;
    if Find(s, p, SOH) == |s| { NoSeparatorNoLength(s, p, start); }
  }

  /** Only bytes in which BodyLength and CheckSum hold are accepted. */
  lemma AcceptedIsSound(s: seq<byte>, was: Header, start: nat)
    requires ParseHeader(s, was, start).status == Success
    ensures ReadEnvelope(s, start).Good? && Sound(s, ReadEnvelope(s, start).envelope)
  {
    var p, q := VersionIsClosed(s, start);
    LengthIsSound(s, q, start);
  }

  /** Header fields never change the size found for the message. */
  lemma {:induction false} SizeIsKept(s: seq<byte>, p: nat, h: Header)
    requires p <= |s|
    ensures HeaderTags(s, p, h).value.total == h.total
    decreases |s| - p
  {
    match HeaderTurn(s, p, h) {
      case More(h', next) => SizeIsKept(s, next, h');
      case Over(_) =>
    }
  }

  // ---------------------------------------------------------------- a changed byte

  /** The same bytes from `p` up to `q`. */
  predicate Agree(s: seq<byte>, t: seq<byte>, p: nat, q: nat) {
    q <= |s| == |t| && forall i :: p <= i < q ==> s[i] == t[i]
  }

  lemma FindSame(s: seq<byte>, t: seq<byte>, p: nat, b: byte)
    requires p <= |s| == |t| && Find(s, p, b) < |s| && Agree(s, t, p, Find(s, p, b) + 1)
    ensures Find(t, p, b) == Find(s, p, b) && s[p..Find(s, p, b)] == t[p..Find(s, p, b)]
  {
    FindSkips(s, p, b);
    FindIs(t, p, b, Find(s, p, b));
  }

  lemma TagSame(s: seq<byte>, t: seq<byte>, p: nat)
    requires p <= |s| == |t| && GetTag(s, p).Some? && Agree(s, t, p, GetTag(s, p).value.next)
    ensures GetTag(t, p) == GetTag(s, p)
  {
    FindSame(s, t, p, EQUALS);
  }

  lemma IntSame(s: seq<byte>, t: seq<byte>, p: nat)
    requires p <= |s| == |t| && GetInt(s, p).Some? && Agree(s, t, p, GetInt(s, p).value.next)
    ensures GetInt(t, p) == GetInt(s, p)
  {
    FindSame(s, t, p, SOH);
  }

  lemma TextSame(s: seq<byte>, t: seq<byte>, p: nat, length: nat)
    requires p <= |s| == |t| && Find(s, p, SOH) < |s| && Agree(s, t, p, Find(s, p, SOH) + 1)
    ensures GetText(t, p, length) == GetText(s, p, length)
  {
    FindSame(s, t, p, SOH);
  }

  /** `t` is `s` with another byte at `i`. */
  predicate Changed(s: seq<byte>, t: seq<byte>, i: nat) {
    i < |s| == |t| && s[i] != t[i] && forall j :: 0 <= j < |s| && j != i ==> s[j] == t[j]
  }

  lemma {:induction false} SumOfChanged(s: seq<byte>, t: seq<byte>, i: nat)
    requires Changed(s, t, i)
    ensures ByteSum(t) == ByteSum(s) + t[i] - s[i]
  {
    var n := |s| - 1;
    if i == n {
      assert s[..n] == t[..n];
    } else {
      SumOfChanged(s[..n], t[..n], i);
    }
  }

  lemma OtherRemainder(a: nat, b: nat)
    requires a != b && -256 < a - b < 256
    ensures a % 256 != b % 256
  {
  }

  lemma TrailerRefused(s: seq<byte>, t: seq<byte>, n: int, begin: nat, i: nat, start: nat)
    requires begin <= |s| && begin + n < |s| && ReadTrailer(s, n, begin, start).Good? && begin <= i < begin + n
    requires Changed(s, t, i)
    ensures ReadTrailer(t, n, begin, start) == Bad(IncorrectTagValue(10))
  {
    var trailer := MoveTo(s, begin, begin + n, start);
    TagSame(s, t, trailer);
    IntSame(s, t, GetTag(s, trailer).value.next);
    SumOfChanged(s[..trailer], t[..trailer], i);
    OtherRemainder(ByteSum(s[..trailer]), ByteSum(t[..trailer]));
  }

  lemma LengthSame(s: seq<byte>, t: seq<byte>, p: nat, i: nat, start: nat)
    requires p <= |s| && ReadLength(s, p, start).Good? && Changed(s, t, i)
    requires var e := ReadLength(s, p, start).envelope; e.begin <= i < e.begin + e.bodyLength
    ensures ReadLength(t, p, start) == Bad(IncorrectTagValue(10))
  {
    var e := ReadLength(s, p, start).envelope;
    TagSame(s, t, p);
    IntSame(s, t, GetTag(s, p).value.next);
    TrailerRefused(s, t, e.bodyLength, e.begin, i, start);
  }

  /** Changing any one byte of the body of an accepted message makes its checksum wrong. */
  lemma OneByteChangeIsNoticed(s: seq<byte>, t: seq<byte>, i: nat, was: Header, start: nat)
    requires ParseHeader(s, was, start).status == Success && Changed(s, t, i)
    requires var e := ReadEnvelope(s, start).envelope; e.begin <= i < e.begin + e.bodyLength
    ensures ParseHeader(t, was, start) == Parsed(IncorrectTagValue(10), was, 0)
  {
    var p, q := VersionIsClosed(s, start);
    assert q <= ReadEnvelope(s, start).envelope.begin;
    TagSame(s, t, 0);
    TextSame(s, t, p, 20);
    LengthSame(s, t, q, i, start);
  }

  // ---------------------------------------------------------------- a changed byte anywhere before the trailer

  /** From the right of the changed byte on, tags and numbers are read as before. */
  lemma SameBehind(s: seq<byte>, t: seq<byte>, i: nat, p: nat, b: byte)
    requires Changed(s, t, i) && i < p <= |s|
    ensures Find(t, p, b) == Find(s, p, b) && s[p..Find(s, p, b)] == t[p..Find(s, p, b)]
  {
    FindSkips(s, p, b);
    FindIs(t, p, b, Find(s, p, b));
  }

  lemma TrailerSame(s: seq<byte>, t: seq<byte>, i: nat, p: nat)
    requires Changed(s, t, i) && i < p <= |s| && GetTag(s, p).Some?
    ensures GetTag(t, p) == GetTag(s, p) && GetInt(t, GetTag(s, p).value.next) == GetInt(s, GetTag(s, p).value.next)
  {
    SameBehind(s, t, i, p, EQUALS);
    SameBehind(s, t, i, GetTag(s, p).value.next, SOH);
  }

  /** Where the trailer was found, and what it says of the bytes before it. */
  predicate SaysSum(s: seq<byte>, e: Envelope) {
    && e.trailer <= |s| && GetTag(s, e.trailer).Some? && GetTag(s, e.trailer).value.value == 10
    && GetInt(s, GetTag(s, e.trailer).value.next) == Some(Got(ByteSum(s[..e.trailer]) % 256, e.total))
  }

  lemma AcceptedSaysSum(s: seq<byte>, start: nat)
    requires ReadEnvelope(s, start).Good?
    ensures SaysSum(s, ReadEnvelope(s, start).envelope)
  {
    var p, q := VersionIsClosed(s, start);
    LengthSaysSum(s, q, start);
  }

  lemma LengthSaysSum(s: seq<byte>, p: nat, start: nat)
    requires p <= |s| && ReadLength(s, p, start).Good?
    ensures SaysSum(s, ReadLength(s, p, start).envelope)
  {
  }

  lemma SumsDiffer(s: seq<byte>, t: seq<byte>, i: nat, p: nat)
    requires Changed(s, t, i) && i < p <= |s|
    ensures ByteSum(s[..p]) % 256 != ByteSum(t[..p]) % 256
  {
    SumOfChanged(s[..p], t[..p], i);
    OtherRemainder(ByteSum(s[..p]), ByteSum(t[..p]));
  }

  /** Changing any one byte before the trailer, in version, length or body, either makes the message
      refused or makes it end at another trailer, one that happens to stand and to fit there. */
  lemma RefusedOrEndsElsewhere(s: seq<byte>, t: seq<byte>, i: nat, start: nat)
    requires ReadEnvelope(s, start).Good? && Changed(s, t, i) && i < ReadEnvelope(s, start).envelope.trailer
    ensures ReadEnvelope(t, start).Good? ==>
              ReadEnvelope(t, start).envelope.trailer != ReadEnvelope(s, start).envelope.trailer
  {
    if ReadEnvelope(t, start).Good? {
      AcceptedSaysSum(s, start);
      AcceptedSaysSum(t, start);
      var p := ReadEnvelope(s, start).envelope.trailer;
      TrailerSame(s, t, i, p);
      SumsDiffer(s, t, i, p);
    }
  }
}
