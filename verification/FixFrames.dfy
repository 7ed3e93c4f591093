/** What the message builder finishes, and that the parsers read it back. */
module FixFrames {
  import opened Common
  import opened Digits
  import opened FixText
  import opened Timestamp

  /** A byte that ends no field and no C string. */
  predicate Plain(s: seq<byte>) { forall i :: 0 <= i < |s| ==> s[i] != SOH && s[i] != 0 }

  /** `a` and then `b` stand at `p`; `q` is where `b` does. */
  lemma Parts(s: seq<byte>, p: nat, a: seq<byte>, b: seq<byte>) returns (q: nat)
    requires Stands(s, p, a + b)
    ensures q == p + |a| && Stands(s, p, a) && Stands(s, q, b)
  {
    q := p + |a|;
    var t := s[p..p + |a + b|];
    assert s[p..q] == t[..|a|] && s[q..q + |b|] == t[|a|..];
  }

  /** A run without `b`, then `b`. */
  lemma FindAfter(s: seq<byte>, p: nat, v: seq<byte>, q: nat, b: byte)
    requires Stands(s, p, v) && q == p + |v| && Stands(s, q, [b]) && forall i :: 0 <= i < |v| ==> v[i] != b
    ensures Find(s, p, b) == q < |s|
  {
    forall i | p <= i < q ensures s[i] != b {
      assert s[i] == s[p..q][i - p];
    }
    assert s[q] == s[q..q + 1][0];
    FindIs(s, p, b, q);
  }

  // ---------------------------------------------------------------- reading one field

  /** A field at `p` gives its tag, and its value up to the separator at `e`. */
  lemma FieldAt(s: seq<byte>, p: nat, tag: nat, v: seq<byte>) returns (q: nat, e: nat)
    requires Stands(s, p, Field(tag, v)) && Plain(v)
    ensures p < q == e - |v| && e + 1 == p + |Field(tag, v)|
    ensures GetTag(s, p) == Some(Got(tag, q))
    ensures Find(s, q, SOH) == e < |s| && s[q..e] == v
  {
    var t := Decimal(tag);
    e := Parts(s, p, t + [EQUALS] + v, [SOH]);
    q := Parts(s, p, t + [EQUALS], v);
    var k := Parts(s, p, t, [EQUALS]);
    TagAt(s, p, tag, k);
    FindAfter(s, q, v, e, SOH);
  }

  /** What a field looks like: digits, an equals sign, the value and byte 1. */
  lemma FieldLooks(tag: nat, v: seq<byte>)
    ensures var (f, n) := (Field(tag, v), |Decimal(tag)|);
            && |f| == n + |v| + 2 && f[..n] == Decimal(tag) && f[n] as char == '=' && f[n + 1..|f| - 1] == v
            && f[|f| - 1] == 1
  {
    assert '=' as int == 61;
  }

  lemma TagAt(s: seq<byte>, p: nat, tag: nat, k: nat)
    requires Stands(s, p, Decimal(tag)) && k == p + |Decimal(tag)| && Stands(s, k, [EQUALS])
    ensures GetTag(s, p) == Some(Got(tag, k + 1))
  {
    FindAfter(s, p, Decimal(tag), k, EQUALS);
    ValueOfDecimal(tag);
  }

  lemma NumberField(s: seq<byte>, p: nat, tag: nat, v: seq<byte>) returns (q: nat)
    requires Stands(s, p, Field(tag, v)) && Plain(v)
    ensures p < q && GetTag(s, p) == Some(Got(tag, q))
    ensures GetInt(s, q) == Some(Got(Value(v), p + |Field(tag, v)|))
  {
    var e;
    q, e := FieldAt(s, p, tag, v);
  }

  lemma IntField(s: seq<byte>, p: nat, tag: nat, n: nat, width: nat) returns (q: nat)
    requires Stands(s, p, Field(tag, Padded(n, width)))
    ensures p < q && GetTag(s, p) == Some(Got(tag, q))
    ensures GetInt(s, q) == Some(Got(n, p + |Field(tag, Padded(n, width))|))
  {
    q := NumberField(s, p, tag, Padded(n, width));
    ValueOfPadded(n, width);
  }

  lemma CharField(s: seq<byte>, p: nat, tag: nat, c: byte) returns (q: nat)
    requires Stands(s, p, Field(tag, [c])) && c != SOH && c != 0
    ensures p < q && GetTag(s, p) == Some(Got(tag, q))
    ensures GetChar(s, q) == Some(Got(Some(c), p + |Field(tag, [c])|))
  {
    var e;
    q, e := FieldAt(s, p, tag, [c]);
    assert s[q] == s[q..e][0];
  }

  lemma TextField(s: seq<byte>, p: nat, tag: nat, v: seq<byte>, length: nat) returns (q: nat)
    requires Stands(s, p, Field(tag, v)) && Plain(v) && |v| < length
    ensures p < q && GetTag(s, p) == Some(Got(tag, q))
    ensures GetText(s, q, length) == Some(Got(v, p + |Field(tag, v)|))
  {
    var e;
    q, e := FieldAt(s, p, tag, v);
    FindIs(v, 0, 0, |v|);
    assert CString(v) == v;
  }

  // ---------------------------------------------------------------- header fields

  datatype Sent = Sent(kind: byte, sender: seq<byte>, target: seq<byte>, seqNum: nat)

  /** What the builder accepts and the parser's arrays hold. */
  predicate Sendable(m: Sent) {
    && m.kind != SOH && m.kind != 0
    && Plain(m.sender) && Plain(m.target) && |m.sender| < 30 && |m.target| < 30
  }

  function Names(m: Sent): seq<byte> { Field(35, [m.kind]) + Field(49, m.sender) + Field(56, m.target) }

  function Numbers(m: Sent, width: nat, time: seq<byte>): seq<byte> {
    Field(34, Padded(m.seqNum, width)) + Field(52, time)
  }

  /** The header fields, with `time` as their text of the sending time. */
  function HeaderText(m: Sent, width: nat, time: seq<byte>): seq<byte> { Names(m) + Numbers(m, width, time) }

  /** What the parser is to make of them. */
  function Received(m: Sent, time: nat, total: nat): Header {
    Header(KindOf(Some(m.kind)), m.sender, m.target, m.seqNum, time, total)
  }

  lemma HeaderGoesOn(s: seq<byte>, p: nat, h: Header, h': Header, next: nat)
    requires p <= |s| && HeaderTurn(s, p, h) == More(h', next)
    ensures next <= |s| && HeaderTags(s, p, h) == HeaderTags(s, next, h')
  {
  }

  lemma KindStep(s: seq<byte>, p: nat, c: byte, h: Header, next: nat)
    requires Stands(s, p, Field(35, [c])) && c != SOH && c != 0 && next == p + |Field(35, [c])|
    ensures next <= |s| && HeaderTags(s, p, h) == HeaderTags(s, next, h.(kind := KindOf(Some(c))))
  {
    var q := CharField(s, p, 35, c);
    HeaderGoesOn(s, p, h, h.(kind := KindOf(Some(c))), next);
  }

  lemma SenderStep(s: seq<byte>, p: nat, v: seq<byte>, h: Header, next: nat)
    requires Stands(s, p, Field(49, v)) && Plain(v) && |v| < 30 && next == p + |Field(49, v)|
    ensures next <= |s| && HeaderTags(s, p, h) == HeaderTags(s, next, h.(sender := v))
  {
    var q := TextField(s, p, 49, v, 30);
    HeaderGoesOn(s, p, h, h.(sender := v), next);
  }

  lemma TargetStep(s: seq<byte>, p: nat, v: seq<byte>, h: Header, next: nat)
    requires Stands(s, p, Field(56, v)) && Plain(v) && |v| < 30 && next == p + |Field(56, v)|
    ensures next <= |s| && HeaderTags(s, p, h) == HeaderTags(s, next, h.(target := v))
  {
    var q := TextField(s, p, 56, v, 30);
    HeaderGoesOn(s, p, h, h.(target := v), next);
  }

  lemma SeqNumStep(s: seq<byte>, p: nat, n: nat, width: nat, h: Header, next: nat)
    requires Stands(s, p, Field(34, Padded(n, width))) && next == p + |Field(34, Padded(n, width))|
    ensures next <= |s| && HeaderTags(s, p, h) == HeaderTags(s, next, h.(seqNum := n))
  {
    var q := IntField(s, p, 34, n, width);
    HeaderGoesOn(s, p, h, h.(seqNum := n), next);
  }

  lemma TimeStep(s: seq<byte>, p: nat, v: seq<byte>, h: Header, next: nat)
    requires Stands(s, p, Field(52, v)) && Plain(v) && |v| < 40 && next == p + |Field(52, v)|
    ensures next <= |s| && HeaderTags(s, p, h) == HeaderTags(s, next, h.(time := Instant(v)))
  {
    var q := TextField(s, p, 52, v, 40);
    HeaderGoesOn(s, p, h, h.(time := Instant(v)), next);
  }

  lemma NamesRead(s: seq<byte>, p: nat, m: Sent, h: Header) returns (q: nat)
    requires Sendable(m) && Stands(s, p, Names(m))
    ensures q == p + |Names(m)| <= |s|
    ensures HeaderTags(s, p, h)
            == HeaderTags(s, q, Header(KindOf(Some(m.kind)), m.sender, m.target, h.seqNum, h.time, h.total))
  {
    var (f1, f2, f3) := (Field(35, [m.kind]), Field(49, m.sender), Field(56, m.target));
    var p3 := Parts(s, p, f1 + f2, f3);
    var p2 := Parts(s, p, f1, f2);
    q := p + |f1 + f2 + f3|;
    var h1 := h.(kind := KindOf(Some(m.kind)));
    KindStep(s, p, m.kind, h, p2);
    SenderStep(s, p2, m.sender, h1, p3);
    TargetStep(s, p3, m.target, h1.(sender := m.sender), q);
  }

  lemma NumbersRead(s: seq<byte>, p: nat, m: Sent, width: nat, time: seq<byte>, h: Header) returns (q: nat)
    requires Plain(time) && |time| < 40 && Stands(s, p, Numbers(m, width, time))
    ensures q == p + |Numbers(m, width, time)| <= |s|
    ensures HeaderTags(s, p, h) == HeaderTags(s, q, h.(seqNum := m.seqNum, time := Instant(time)))
  {
    var (f4, f5) := (Field(34, Padded(m.seqNum, width)), Field(52, time));
    var p5 := Parts(s, p, f4, f5);
    q := p + |f4 + f5|;
    SeqNumStep(s, p, m.seqNum, width, h, p5);
    TimeStep(s, p5, time, h.(seqNum := m.seqNum), q);
  }

  lemma HeaderParts(s: seq<byte>, p: nat, m: Sent, width: nat, time: seq<byte>) returns (q: nat)
    requires Stands(s, p, HeaderText(m, width, time))
    ensures q == p + |Names(m)| && Stands(s, p, Names(m)) && Stands(s, q, Numbers(m, width, time))
    ensures |HeaderText(m, width, time)| == |Names(m)| + |Numbers(m, width, time)|
  {
    q := Parts(s, p, Names(m), Numbers(m, width, time));
  }

  lemma NamesThenNumbers(s: seq<byte>, p: nat, p1: nat, m: Sent, width: nat, time: seq<byte>, h: Header)
      returns (q: nat)
    requires Sendable(m) && Plain(time) && |time| < 40
    requires p1 == p + |Names(m)| && Stands(s, p, Names(m)) && Stands(s, p1, Numbers(m, width, time))
    ensures q == p1 + |Numbers(m, width, time)| <= |s|
    ensures HeaderTags(s, p, h) == HeaderTags(s, q, Received(m, Instant(time), h.total))
  {
    var p2 := NamesRead(s, p, m, h);
    var h1 := Header(KindOf(Some(m.kind)), m.sender, m.target, h.seqNum, h.time, h.total);
    q := NumbersRead(s, p2, m, width, time, h1);
    assert h1.(seqNum := m.seqNum, time := Instant(time)) == Received(m, Instant(time), h.total);
  }

  /** The five header fields in a row fill the header. */
  lemma HeaderTagsRead(s: seq<byte>, p: nat, m: Sent, width: nat, time: seq<byte>, h: Header) returns (q: nat)
    requires Sendable(m) && Plain(time) && |time| < 40 && Stands(s, p, HeaderText(m, width, time))
    ensures q == p + |HeaderText(m, width, time)| <= |s|
    ensures HeaderTags(s, p, h) == HeaderTags(s, q, Received(m, Instant(time), h.total))
  {
    var p1 := HeaderParts(s, p, m, width, time);
    q := NamesThenNumbers(s, p, p1, m, width, time, h);
  }
}
