/** What the parser answers to any message made of a version, a length, a body and a trailer, right or
    wrong. */
module FixVerdicts {
  import opened Common
  import opened Digits
  import opened FixText
  import opened FixFrames

  /** The bytes spell the text. */
  predicate Spells(v: seq<byte>, t: string) {
    |v| == |t| && forall i :: 0 <= i < |v| ==> v[i] as char == t[i]
  }

  lemma VersionSpells(v: seq<byte>)
    ensures v == VERSION <==> Spells(v, "FIX.4.4")
  {
    var t := "FIX.4.4";
    assert 'F' as int == 70 && 'I' as int == 73 && 'X' as int == 88 && '.' as int == 46 && '4' as int == 52;
    assert |t| == 7 && t[0] == 'F' && t[1] == 'I' && t[2] == 'X';
    assert t[3] == '.' && t[4] == '4' && t[5] == '.' && t[6] == '4';
    if Spells(v, t) { assert v == VERSION; }
  }

  /** The first two fields, whatever they are; `begin` is where they end. */
  predicate Opens(s: seq<byte>, tag8: nat, version: seq<byte>, tag9: nat, length: seq<byte>, begin: nat) {
    && Plain(version) && Plain(length)
    && Stands(s, 0, Field(tag8, version)) && Stands(s, |Field(tag8, version)|, Field(tag9, length))
    && begin == |Field(tag8, version)| + |Field(tag9, length)| <= |s|
  }

  /** What is said of the first field; nothing if it is the right one. */
  function FirstVerdict(tag8: nat, version: seq<byte>): Option<Status> {
    if tag8 != 8 then Some(TagReadError(8))
    else if |version| >= 20 then Some(TagValueReadError(8))
    else if !Spells(version, "FIX.4.4") then Some(IncorrectTagValue(8))
    else None
  }

  lemma FirstRead(s: seq<byte>, start: nat, tag8: nat, version: seq<byte>)
    requires |s| >= 16 && Stands(s, 0, Field(tag8, version)) && Plain(version)
    ensures ReadEnvelope(s, start)
            == match FirstVerdict(tag8, version)
               case Some(status) => Bad(status)
               case None => ReadLength(s, |Field(tag8, version)|, start)
  {
    VersionSpells(version);
    if tag8 == 8 && |version| < 20 {
      var q := TextField(s, 0, 8, version, 20);
    } else {
      var q, e := FieldAt(s, 0, tag8, version);
    }
  }

  lemma LengthSays(s: seq<byte>, start: nat, p: nat, q: nat, tag9: nat, n: int, begin: nat)
    requires p < q < begin <= |s| && GetTag(s, p) == Some(Got(tag9, q)) && GetInt(s, q) == Some(Got(n, begin))
    ensures ReadLength(s, p, start)
            == if tag9 != 9 then Bad(TagReadError(9))
               else if n < -6 || n > |s| - begin - 6 then Bad(NotComplete)
               else ReadTrailer(s, n, begin, start)
  {
  }

  /** The length, of any sign, against the bytes there are: six more than it says. */
  lemma SecondRead(s: seq<byte>, start: nat, p: nat, tag9: nat, length: seq<byte>, begin: nat)
    requires Stands(s, p, Field(tag9, length)) && Plain(length) && begin == p + |Field(tag9, length)| <= |s|
    ensures ReadLength(s, p, start)
            == if tag9 != 9 then Bad(TagReadError(9))
               else if Value(length) < -6 || Value(length) > |s| - begin - 6 then Bad(NotComplete)
               else ReadTrailer(s, Value(length), begin, start)
  {
    var q := NumberField(s, p, tag9, length);
    LengthSays(s, start, p, q, tag9, Value(length), begin);
  }

  /** The trailer found at `at`. */
  lemma TrailerFound(s: seq<byte>, start: nat, n: nat, begin: nat, at: nat, tag10: nat, sum: seq<byte>)
    requires at == begin + n && Stands(s, at, Field(tag10, sum)) && Plain(sum)
    ensures ReadTrailer(s, n, begin, start)
            == if tag10 != 10 then Bad(TagReadError(10))
               else if Value(sum) != ByteSum(s[..at]) % 256 then Bad(IncorrectTagValue(10))
               else Good(Envelope(n, begin, at, Value(sum), at + |Field(tag10, sum)|))
  {
    var q := NumberField(s, at, tag10, sum);
  }

  /** A message of a version, a length, a body of that length and a trailer is accepted exactly if their
      tags are 8, 9 and 10, the version is FIX.4.4, the trailer's number is the byte sum, modulo 256, and
      six bytes of the trailer, or of what follows, are there; and what is wrong first is what is said. */
  lemma MessageVerdict(s: seq<byte>, start: nat, tag8: nat, version: seq<byte>, tag9: nat, length: seq<byte>,
                       body: seq<byte>, tag10: nat, sum: seq<byte>, begin: nat, at: nat)
    requires |s| >= 16 && Opens(s, tag8, version, tag9, length, begin)
    requires Value(length) == |body| && at == begin + |body|
    requires Stands(s, begin, body) && Stands(s, at, Field(tag10, sum)) && Plain(sum)
    ensures ReadEnvelope(s, start)
            == match FirstVerdict(tag8, version)
               case Some(status) => Bad(status)
               case None =>
                 if tag9 != 9 then Bad(TagReadError(9))
                 else if |s| < at + 6 then Bad(NotComplete)
                 else if tag10 != 10 then Bad(TagReadError(10))
                 else if Value(sum) != ByteSum(s[..at]) % 256 then Bad(IncorrectTagValue(10))
                 else Good(Envelope(|body|, begin, at, Value(sum), at + |Field(tag10, sum)|))
  {
    FirstRead(s, start, tag8, version);
    SecondRead(s, start, |Field(tag8, version)|, tag9, length, begin);
    TrailerFound(s, start, |body|, begin, at, tag10, sum);
  }

  /** Fewer than sixteen bytes are waited for, and so is a length that says more than there is, or says
      less than -6. */
  lemma WaitsForMore(s: seq<byte>, start: nat, tag8: nat, version: seq<byte>, tag9: nat, length: seq<byte>, begin: nat)
    requires Opens(s, tag8, version, tag9, length, begin)
    requires |s| >= 16 ==> FirstVerdict(tag8, version) == None && tag9 == 9
    ensures |s| < 16 || Value(length) < -6 || Value(length) > |s| - begin - 6 ==>
              ReadEnvelope(s, start) == Bad(NotComplete)
  {
    if |s| >= 16 {
      FirstRead(s, start, tag8, version);
      SecondRead(s, start, |Field(tag8, version)|, tag9, length, begin);
    }
  }

  /** The first field's tag is there, and more than a version has room for, but no separator. */
  predicate OpenVersion(s: seq<byte>) {
    |s| > 22 && s[0] == 56 && s[1] == EQUALS && SOH !in s[2..]
  }

  /** Bytes without the sign that ends a tag, or without the separator that ends the version. */
  lemma UnreadableStart(s: seq<byte>, start: nat)
    requires |s| >= 16
    ensures EQUALS !in s ==> ReadEnvelope(s, start) == Bad(TagReadError(8))
    ensures OpenVersion(s) ==> ReadEnvelope(s, start) == Bad(TagValueReadError(8))
  {
    if EQUALS !in s {
      forall i | 0 <= i < |s| ensures s[i] != EQUALS { assert s[i] in s; }
      FindIs(s, 0, EQUALS, |s|);
    }
    if OpenVersion(s) {
      assert Decimal(8) == [56];
      assert s[0] == 56 && s[1] == EQUALS;
      FindIs(s, 0, EQUALS, 1);
      assert s[0..1] == [56];
      ValueSnoc([], 56);
      assert [] + [56] == [56];
      FindIs(s, 2, SOH, |s|);
    }
  }
}
