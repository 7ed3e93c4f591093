/** Fields in any order and any number: what the header and body parsers make of them, and what they
    answer to the first field they cannot take. */
module FixFields {
  import opened Common
  import opened Digits
  import opened FixText
  import opened FixFrames
  import opened FixRoundTrip
  import opened Timestamp

  datatype Item = Item(tag: nat, value: seq<byte>)

  function Bytes(items: seq<Item>): seq<byte> {
    if items == [] then [] else Field(items[0].tag, items[0].value) + Bytes(items[1..])
  }

  /** The value of the last item with this tag. */
  function LastOf(items: seq<Item>, tag: nat): Option<seq<byte>> {
    if items == [] then None
    else if items[|items| - 1].tag == tag then Some(items[|items| - 1].value)
    else LastOf(items[..|items| - 1], tag)
  }

  lemma {:induction false} LastOfFront(i: Item, rest: seq<Item>, tag: nat)
    ensures LastOf([i] + rest, tag)
            == if LastOf(rest, tag).Some? then LastOf(rest, tag) else if i.tag == tag then Some(i.value) else None
    decreases |rest|
  {
    if rest == [] {
      assert [i] + rest == [i] && [i][..0] == [];
    } else {
      var n := |rest| - 1;
      assert ([i] + rest)[..|[i] + rest| - 1] == [i] + rest[..n];
      LastOfFront(i, rest[..n], tag);
    }
  }

  lemma ItemsStand(s: seq<byte>, p: nat, items: seq<Item>) returns (q: nat)
    requires items != [] && Stands(s, p, Bytes(items))
    ensures q == p + |Field(items[0].tag, items[0].value)|
    ensures Stands(s, p, Field(items[0].tag, items[0].value)) && Stands(s, q, Bytes(items[1..]))
    ensures p + |Bytes(items)| == q + |Bytes(items[1..])|
  {
    q := Parts(s, p, Field(items[0].tag, items[0].value), Bytes(items[1..]));
  }

  function LastByte(v: seq<byte>): Option<byte> { if v == [] then None else Some(v[|v| - 1]) }

  // ---------------------------------------------------------------- the header

  /** PossDupFlag, PossResend, LastMsgSeqNumProcessed, SenderSubID, TargetSubID and OrigSendingTime. */
  predicate PassedOver(tag: nat) { tag in {43, 97, 369, 50, 57, 122} }

  /** A header field whose value fits. */
  predicate HeaderItem(i: Item) {
    && Plain(i.value)
    && (i.tag == 35 || i.tag == 34 || PassedOver(i.tag) || (i.tag in {49, 56} && |i.value| < 30)
        || (i.tag == 52 && |i.value| < 40))
  }

  /** The header after one more item. */
  function Taken(h: Header, i: Item): Header {
    match i.tag
    case 35 => h.(kind := KindOf(LastByte(i.value)))
    case 34 => h.(seqNum := Value(i.value))
    case 49 => h.(sender := i.value)
    case 56 => h.(target := i.value)
    case 52 => h.(time := Instant(i.value))
    case _ => h
  }

  function AllTaken(h: Header, items: seq<Item>): Header
    decreases |items|
  {
    if items == [] then h else AllTaken(Taken(h, items[0]), items[1..])
  }

  /** Of each field the last one counts; those passed over leave nothing. */
  function Filled(h: Header, items: seq<Item>): Header {
    Header(match LastOf(items, 35) case None => h.kind case Some(v) => KindOf(LastByte(v)),
           match LastOf(items, 49) case None => h.sender case Some(v) => v,
           match LastOf(items, 56) case None => h.target case Some(v) => v,
           match LastOf(items, 34) case None => h.seqNum case Some(v) => Value(v),
           match LastOf(items, 52) case None => h.time case Some(v) => Instant(v), h.total)
  }

  lemma {:induction false} TakenIsFilled(h: Header, items: seq<Item>)
    ensures AllTaken(h, items) == Filled(h, items)
    decreases |items|
  {
    if items != [] {
      var i, rest := items[0], items[1..];
      assert items == [i] + rest;
      TakenIsFilled(Taken(h, i), rest);
      LastOfFront(i, rest, 35);
      LastOfFront(i, rest, 49);
      LastOfFront(i, rest, 56);
      LastOfFront(i, rest, 34);
      LastOfFront(i, rest, 52);
    }
  }

  lemma KindTaken(s: seq<byte>, p: nat, v: seq<byte>, h: Header, next: nat)
    requires Stands(s, p, Field(35, v)) && Plain(v) && next == p + |Field(35, v)|
    ensures next <= |s| && HeaderTags(s, p, h) == HeaderTags(s, next, h.(kind := KindOf(LastByte(v))))
  {
    var q, e := FieldAt(s, p, 35, v);
    if v != [] { assert s[e - 1] == s[q..e][|v| - 1]; }
    HeaderGoesOn(s, p, h, h.(kind := KindOf(LastByte(v))), next);
  }

  lemma NumberTaken(s: seq<byte>, p: nat, v: seq<byte>, h: Header, next: nat)
    requires Stands(s, p, Field(34, v)) && Plain(v) && next == p + |Field(34, v)|
    ensures next <= |s| && HeaderTags(s, p, h) == HeaderTags(s, next, h.(seqNum := Value(v)))
  {
    var q := NumberField(s, p, 34, v);
    HeaderGoesOn(s, p, h, h.(seqNum := Value(v)), next);
  }

  lemma PassedOverTaken(s: seq<byte>, p: nat, i: Item, h: Header, next: nat)
    requires Stands(s, p, Field(i.tag, i.value)) && Plain(i.value) && PassedOver(i.tag)
    requires next == p + |Field(i.tag, i.value)|
    ensures next <= |s| && HeaderTags(s, p, h) == HeaderTags(s, next, h)
  {
    var q, e := FieldAt(s, p, i.tag, i.value);
    HeaderGoesOn(s, p, h, h, next);
  }

  lemma ItemTaken(s: seq<byte>, p: nat, i: Item, h: Header, next: nat)
    requires Stands(s, p, Field(i.tag, i.value)) && HeaderItem(i) && next == p + |Field(i.tag, i.value)|
    ensures next <= |s| && HeaderTags(s, p, h) == HeaderTags(s, next, Taken(h, i))
  {
    match i.tag
    case 35 => KindTaken(s, p, i.value, h, next);
    case 34 => NumberTaken(s, p, i.value, h, next);
    case 49 => SenderStep(s, p, i.value, h, next);
    case 56 => TargetStep(s, p, i.value, h, next);
    case 52 => TimeStep(s, p, i.value, h, next);
    case _ => PassedOverTaken(s, p, i, h, next);
  }

  lemma {:induction false} ItemsTaken(s: seq<byte>, p: nat, items: seq<Item>, h: Header, e: nat)
    requires Stands(s, p, Bytes(items)) && e == p + |Bytes(items)|
    requires forall j :: 0 <= j < |items| ==> HeaderItem(items[j])
    ensures HeaderTags(s, p, h) == HeaderTags(s, e, AllTaken(h, items))
    decreases |items|
  {
    if items != [] {
      var h', rest := Taken(h, items[0]), items[1..];
      var q := ItemsStand(s, p, items);
      ItemTaken(s, p, items[0], h, q);
      ItemsTaken(s, q, rest, h', e);
    }
  }

  lemma ItemsFill(s: seq<byte>, p: nat, items: seq<Item>, h: Header, e: nat)
    requires Stands(s, p, Bytes(items)) && e == p + |Bytes(items)|
    requires forall j :: 0 <= j < |items| ==> HeaderItem(items[j])
    ensures HeaderTags(s, p, h) == HeaderTags(s, e, Filled(h, items))
  {
    ItemsTaken(s, p, items, h, e);
    TakenIsFilled(h, items);
  }

  /** Header fields in any order, any number of times each, fill the header with the last of each; the
      first field that is none of them, wherever it comes, ends it there. */
  lemma HeaderInAnyOrder(s: seq<byte>, p: nat, items: seq<Item>, end: Item, h: Header)
    requires Stands(s, p, Bytes(items)) && forall j :: 0 <= j < |items| ==> HeaderItem(items[j])
    requires Stands(s, p + |Bytes(items)|, Field(end.tag, end.value)) && Plain(end.value)
    requires end.tag !in {35, 34, 49, 56, 52} && !PassedOver(end.tag)
    ensures HeaderTags(s, p, h) == Parsed(Success, Filled(h, items), p + |Bytes(items)|)
  {
    var at, filled := p + |Bytes(items)|, Filled(h, items);
    calc {
      HeaderTags(s, p, h);
    == { ItemsFill(s, p, items, h, at); }
      HeaderTags(s, at, filled);
    == { HeaderStops(s, at, end.tag, end.value, filled); }
      Parsed(Success, filled, at);
    }
  }

  predicate TooLong(i: Item) { (i.tag in {49, 56} && |i.value| >= 30) || (i.tag == 52 && |i.value| >= 40) }

  lemma LongStops(s: seq<byte>, p: nat, long: Item, h: Header)
    requires Stands(s, p, Field(long.tag, long.value)) && Plain(long.value) && TooLong(long)
    ensures HeaderTags(s, p, h) == Parsed(TagValueReadError(long.tag), h, p + |Decimal(long.tag)| + 1)
  {
    var q, e := FieldAt(s, p, long.tag, long.value);
  }

  /** A name of 30 bytes or more, or a time of 40, does not fit, and its tag is what is reported. */
  lemma LongValueStops(s: seq<byte>, p: nat, items: seq<Item>, long: Item, h: Header)
    requires Stands(s, p, Bytes(items)) && forall j :: 0 <= j < |items| ==> HeaderItem(items[j])
    requires Stands(s, p + |Bytes(items)|, Field(long.tag, long.value)) && Plain(long.value)
    requires TooLong(long)
    ensures HeaderTags(s, p, h)
            == Parsed(TagValueReadError(long.tag), Filled(h, items), p + |Bytes(items)| + |Decimal(long.tag)| + 1)
  {
    var at, filled := p + |Bytes(items)|, Filled(h, items);
    calc {
      HeaderTags(s, p, h);
    == { ItemsFill(s, p, items, h, at); }
      HeaderTags(s, at, filled);
    == { LongStops(s, at, long, filled); }
      Parsed(TagValueReadError(long.tag), filled, at + |Decimal(long.tag)| + 1);
    }
  }

  /** `tag=v` at the end of the bytes, its separator still to come. */
  predicate Unclosed(s: seq<byte>, p: nat, tag: nat, v: seq<byte>) {
    Stands(s, p, Decimal(tag) + [EQUALS] + v) && p + |Decimal(tag)| + 1 + |v| == |s| && Plain(v) && EQUALS !in v
  }

  lemma UnclosedAt(s: seq<byte>, p: nat, tag: nat, v: seq<byte>) returns (q: nat)
    requires Unclosed(s, p, tag, v)
    ensures p < q == |s| - |v| && s[q..] == v && GetTag(s, p) == Some(Got(tag, q))
    ensures Find(s, q, SOH) == |s| && GetTag(s, q) == None && NextTag(s, q) == q
  {
    q := Parts(s, p, Decimal(tag) + [EQUALS], v);
    var k := Parts(s, p, Decimal(tag), [EQUALS]);
    TagAt(s, p, tag, k);
    assert s[q..] == s[q..q + |v|];
    forall i | q <= i < |s| ensures s[i] != SOH && s[i] != EQUALS {
      assert s[i] == s[q..q + |v|][i - q] && v[i - q] in v;
    }
    FindIs(s, q, SOH, |s|);
    FindIs(s, q, EQUALS, |s|);
  }

  /** Without its separator a text may be as long as its array. */
  predicate Fits(tag: nat, v: seq<byte>) {
    |v| > 0 && ((tag in {49, 56} && |v| <= 30) || (tag == 52 && |v| <= 40))
  }

  lemma BreaksOff(s: seq<byte>, p: nat, tag: nat, v: seq<byte>, h: Header)
    requires Unclosed(s, p, tag, v) && (tag in {35, 34, 49, 56, 52} || PassedOver(tag))
    ensures HeaderTags(s, p, h).status
            == if Fits(tag, v) || PassedOver(tag) then TagReadError(Value(v)) else TagValueReadError(tag)
  {
    var q := UnclosedAt(s, p, tag, v);
  }

  /** A header that breaks off in a field: a type, a number, or a text that is empty or does not fit,
      cannot be read; what else is there is taken, but then read again as a tag, which it is not. */
  lemma UnclosedStops(s: seq<byte>, p: nat, items: seq<Item>, tag: nat, v: seq<byte>, h: Header)
    requires Stands(s, p, Bytes(items)) && forall j :: 0 <= j < |items| ==> HeaderItem(items[j])
    requires Unclosed(s, p + |Bytes(items)|, tag, v)
    requires tag in {35, 34, 49, 56, 52} || PassedOver(tag)
    ensures HeaderTags(s, p, h).status
            == if Fits(tag, v) || PassedOver(tag) then TagReadError(Value(v)) else TagValueReadError(tag)
  {
    var at, filled := p + |Bytes(items)|, Filled(h, items);
    calc {
      HeaderTags(s, p, h).status;
    == { ItemsFill(s, p, items, h, at); }
      HeaderTags(s, at, filled).status;
    == { BreaksOff(s, at, tag, v, filled); }
      if Fits(tag, v) || PassedOver(tag) then TagReadError(Value(v)) else TagValueReadError(tag);
    }
  }

  /** Bytes in which no tag ends. */
  lemma NoTagStops(s: seq<byte>, p: nat, items: seq<Item>, h: Header)
    requires Stands(s, p, Bytes(items)) && forall j :: 0 <= j < |items| ==> HeaderItem(items[j])
    requires EQUALS !in s[p + |Bytes(items)|..]
    ensures var q := p + |Bytes(items)|;
            HeaderTags(s, p, h) == Parsed(TagReadError(Value(s[q..])), Filled(h, items), q)
  {
    ItemsFill(s, p, items, h, p + |Bytes(items)|);
    NoTag(s, p + |Bytes(items)|);
  }

  lemma NoTag(s: seq<byte>, q: nat)
    requires q <= |s| && EQUALS !in s[q..]
    ensures GetTag(s, q) == None
  {
    forall i | q <= i < |s| ensures s[i] != EQUALS { assert s[q..][i - q] in s[q..]; }
    FindIs(s, q, EQUALS, |s|);
  }

  /** A value is kept as a C string: what follows a zero byte in it is lost. */
  lemma CutAtZero(s: seq<byte>, q: nat, v: seq<byte>, rest: seq<byte>, length: nat)
    requires Stands(s, q, v + [0] + rest + [SOH]) && Plain(v) && SOH !in rest && |v| + |rest| + 2 <= length
    ensures GetText(s, q, length) == Some(Got(v, q + |v| + |rest| + 2))
  {
    var t := v + [0] + rest;
    var e := Parts(s, q, t, [SOH]);
    forall i | 0 <= i < |t| ensures t[i] != SOH {
      if i > |v| { assert t[i] == rest[i - |v| - 1] && t[i] in rest; }
    }
    FindAfter(s, q, t, e, SOH);
    FindIs(t, 0, 0, |v|);
    assert t[..|v|] == v;
  }

  // ---------------------------------------------------------------- a Logon's body

  predicate LogonItem(i: Item) { Plain(i.value) && i.tag in {141, 108, 789, 98} }

  /** 'Y' is yes and 'N' no; any other last byte is neither. */
  function FlagIn(v: seq<byte>): Flag {
    if v == [] then Unknown else if v[|v| - 1] == 89 then Yes else if v[|v| - 1] == 78 then No else Unknown
  }

  function LogonTaken(l: LogonBody, i: Item): LogonBody {
    match i.tag
    case 141 => l.(resetSeqNum := FlagIn(i.value))
    case 108 => l.(heartBeat := Value(i.value))
    case 789 => l.(nextExpected := Value(i.value))
    case 98 => l.(encryptMethod := Value(i.value))
    case _ => l
  }

  function AllLogonTaken(l: LogonBody, items: seq<Item>): LogonBody
    decreases |items|
  {
    if items == [] then l else AllLogonTaken(LogonTaken(l, items[0]), items[1..])
  }

  function LogonFilled(l: LogonBody, items: seq<Item>): LogonBody {
    LogonBody(match LastOf(items, 141) case None => l.resetSeqNum case Some(v) => FlagIn(v),
              match LastOf(items, 108) case None => l.heartBeat case Some(v) => Value(v),
              match LastOf(items, 789) case None => l.nextExpected case Some(v) => Value(v),
              match LastOf(items, 98) case None => l.encryptMethod case Some(v) => Value(v))
  }

  lemma {:induction false} LogonTakenIsFilled(l: LogonBody, items: seq<Item>)
    ensures AllLogonTaken(l, items) == LogonFilled(l, items)
    decreases |items|
  {
    if items != [] {
      var i, rest := items[0], items[1..];
      assert items == [i] + rest;
      LogonTakenIsFilled(LogonTaken(l, i), rest);
      LastOfFront(i, rest, 141);
      LastOfFront(i, rest, 108);
      LastOfFront(i, rest, 789);
      LastOfFront(i, rest, 98);
    }
  }

  lemma LogonItemTaken(s: seq<byte>, p: nat, i: Item, l: LogonBody, next: nat)
    requires Stands(s, p, Field(i.tag, i.value)) && LogonItem(i) && next == p + |Field(i.tag, i.value)|
    ensures next <= |s| && LogonTags(s, p, l) == LogonTags(s, next, LogonTaken(l, i))
  {
    var q, e := FieldAt(s, p, i.tag, i.value);
    if i.value != [] { assert s[e - 1] == s[q..e][|i.value| - 1]; }
    LogonGoesOn(s, p, l, LogonTaken(l, i), next);
  }

  lemma {:induction false} LogonItemsTaken(s: seq<byte>, p: nat, items: seq<Item>, l: LogonBody, e: nat)
    requires Stands(s, p, Bytes(items)) && e == p + |Bytes(items)|
    requires forall j :: 0 <= j < |items| ==> LogonItem(items[j])
    ensures LogonTags(s, p, l) == LogonTags(s, e, AllLogonTaken(l, items))
    decreases |items|
  {
    if items != [] {
      var l', rest := LogonTaken(l, items[0]), items[1..];
      var q := ItemsStand(s, p, items);
      LogonItemTaken(s, p, items[0], l, q);
      LogonItemsTaken(s, q, rest, l', e);
    }
  }

  lemma LogonItemsFill(s: seq<byte>, p: nat, items: seq<Item>, l: LogonBody, e: nat)
    requires Stands(s, p, Bytes(items)) && e == p + |Bytes(items)|
    requires forall j :: 0 <= j < |items| ==> LogonItem(items[j])
    ensures LogonTags(s, p, l) == LogonTags(s, e, LogonFilled(l, items))
  {
    LogonItemsTaken(s, p, items, l, e);
    LogonTakenIsFilled(l, items);
  }

  lemma LogonEnds(s: seq<byte>, p: nat, end: Item, l: LogonBody)
    requires Stands(s, p, Field(end.tag, end.value)) && Plain(end.value) && end.tag !in {141, 108, 789, 98}
    ensures LogonTags(s, p, l) == Parsed(Success, l, p)
  {
    var q, e := FieldAt(s, p, end.tag, end.value);
  }

  /** A Logon's fields in any order and number, ended by any other field. */
  lemma LogonInAnyOrder(s: seq<byte>, p: nat, items: seq<Item>, end: Item)
    requires Stands(s, p, Bytes(items)) && forall j :: 0 <= j < |items| ==> LogonItem(items[j])
    requires Stands(s, p + |Bytes(items)|, Field(end.tag, end.value)) && Plain(end.value)
    requires end.tag !in {141, 108, 789, 98}
    ensures LogonTags(s, p, NO_LOGON)
            == Parsed(Success, LogonFilled(LogonBody(Unknown, 0, 0, 0), items), p + |Bytes(items)|)
  {
    var at, filled := p + |Bytes(items)|, LogonFilled(NO_LOGON, items);
    calc {
      LogonTags(s, p, NO_LOGON);
    == { LogonItemsFill(s, p, items, NO_LOGON, at); }
      LogonTags(s, at, filled);
    == { LogonEnds(s, at, end, filled); }
      Parsed(Success, filled, at);
    }
  }

  /** One that breaks off reports the tag, or what stands there in place of one. */
  lemma LogonBreaksOff(s: seq<byte>, p: nat, items: seq<Item>, tag: nat, v: seq<byte>)
    requires Stands(s, p, Bytes(items)) && forall j :: 0 <= j < |items| ==> LogonItem(items[j])
    ensures Unclosed(s, p + |Bytes(items)|, tag, v) && tag in {141, 108, 789, 98} ==>
              LogonTags(s, p, NO_LOGON).status == TagValueReadError(tag)
    ensures EQUALS !in s[p + |Bytes(items)|..] ==>
              LogonTags(s, p, NO_LOGON).status == TagValueReadError(Value(s[p + |Bytes(items)|..]))
  {
    var at := p + |Bytes(items)|;
    LogonItemsFill(s, p, items, NO_LOGON, at);
    if Unclosed(s, at, tag, v) { var q := UnclosedAt(s, at, tag, v); }
    if EQUALS !in s[at..] { NoTag(s, at); }
  }

  // ---------------------------------------------------------------- a HeartBeat's body

  lemma TestIdsEnd(s: seq<byte>, p: nat, was: seq<byte>, end: Item)
    requires Stands(s, p, Field(end.tag, end.value)) && Plain(end.value) && (end.tag != 112 || |end.value| >= 30)
    ensures var r := HeartBeatTags(s, p, was);
            && r.value == was
            && (if end.tag == 112 then r.status == TagValueReadError(112) else r.status == Success && r.next == p)
  {
    var q, e := FieldAt(s, p, end.tag, end.value);
  }

  function LastId(ids: seq<seq<byte>>, was: seq<byte>): seq<byte> { if ids == [] then was else ids[|ids| - 1] }

  lemma LastIdOfRest(ids: seq<seq<byte>>, was: seq<byte>)
    requires ids != []
    ensures LastId(ids, was) == LastId(ids[1..], ids[0])
  {
  }

  lemma TestIdsStand(s: seq<byte>, p: nat, ids: seq<seq<byte>>) returns (q: nat)
    requires ids != [] && Stands(s, p, Bytes(TestIds(ids)))
    ensures q == p + |Field(112, ids[0])| && Stands(s, p, Field(112, ids[0]))
    ensures Stands(s, q, Bytes(TestIds(ids[1..])))
    ensures p + |Bytes(TestIds(ids))| == q + |Bytes(TestIds(ids[1..]))|
  {
    assert TestIds(ids)[1..] == TestIds(ids[1..]);
    q := ItemsStand(s, p, TestIds(ids));
  }

  lemma {:induction false} TestIdsTaken(s: seq<byte>, p: nat, ids: seq<seq<byte>>, was: seq<byte>, e: nat)
    requires forall j :: 0 <= j < |ids| ==> Plain(ids[j]) && |ids[j]| < 30
    requires Stands(s, p, Bytes(TestIds(ids))) && e == p + |Bytes(TestIds(ids))|
    ensures HeartBeatTags(s, p, was) == HeartBeatTags(s, e, LastId(ids, was))
    decreases |ids|
  {
    if ids != [] {
      var first, rest := ids[0], ids[1..];
      var q := TestIdsStand(s, p, ids);
      calc {
        HeartBeatTags(s, p, was);
      == { TestIdStep(s, p, was, first, q); }
        HeartBeatTags(s, q, first);
      == { TestIdsTaken(s, q, rest, first, e); }
        HeartBeatTags(s, e, LastId(rest, first));
      == { LastIdOfRest(ids, was); }
        HeartBeatTags(s, e, LastId(ids, was));
      }
    }
  }

  /** Test ids may repeat, and the last counts; any other field ends them, and one of 30 bytes or more is
      reported by its tag. */
  lemma TestIdsRead(s: seq<byte>, p: nat, ids: seq<seq<byte>>, was: seq<byte>, end: Item)
    requires forall j :: 0 <= j < |ids| ==> Plain(ids[j]) && |ids[j]| < 30
    requires Stands(s, p, Bytes(TestIds(ids)))
    requires Stands(s, p + |Bytes(TestIds(ids))|, Field(end.tag, end.value)) && Plain(end.value)
    requires end.tag != 112 || |end.value| >= 30
    ensures var r := HeartBeatTags(s, p, was);
            && r.value == LastId(ids, was)
            && (if end.tag == 112 then r.status == TagValueReadError(112)
                else r.status == Success && r.next == p + |Bytes(TestIds(ids))|)
  {
    var e := p + |Bytes(TestIds(ids))|;
    TestIdsTaken(s, p, ids, was, e);
    TestIdsEnd(s, e, LastId(ids, was), end);
  }

  function TestIds(ids: seq<seq<byte>>): (items: seq<Item>)
    ensures |items| == |ids|
  {
    seq(|ids|, j requires 0 <= j < |ids| => Item(112, ids[j]))
  }

  lemma HeartBeatBreaksOff(s: seq<byte>, p: nat, v: seq<byte>, was: seq<byte>)
    requires p <= |s|
    ensures Unclosed(s, p, 112, v) ==>
              HeartBeatTags(s, p, was).status == TagValueReadError(if 0 < |v| <= 30 then Value(v) else 112)
    ensures EQUALS !in s[p..] ==> HeartBeatTags(s, p, was).status == TagValueReadError(Value(s[p..]))
  {
    if Unclosed(s, p, 112, v) { var q := UnclosedAt(s, p, 112, v); }
    if EQUALS !in s[p..] { NoTag(s, p); }
  }
}
