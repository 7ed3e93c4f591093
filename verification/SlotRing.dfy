/** The multi-writer multi-reader slot ring, as a state machine.

    One step is one atomic load, compare-and-swap or store of the ring, or one store to or
    load from the payload of a slot a thread holds; steps of any number of threads
    interleave in any order.  The fields of `Log` record what happened and never influence
    a step.  A thread that holds several slots at once is several threads of this model,
    since all that the ring knows of a holder is the slot. */
module SlotRing {
  import opened Common
  import Arith

  datatype Status = NoData | DataValid | DataWriting | DataReading

  /** Where a thread is inside a call, or which slot it holds between calls. */
  datatype Pc<T> =
    | Idle
    | WriteStart                      // at the top of getWriteSlot's loop
    | WriteLoaded(slot: nat)          // writeIndex_ loaded
    | WriteFree(slot: nat)            // the slot's status was NO_DATA
    | WriteClaimed(slot: nat)         // CAS won, writeIndex_ not yet stored
    | WriteHolding(slot: nat, stored: T)
    | ReadStart
    | ReadLoaded(slot: nat)
    | ReadReady(slot: nat)
    | ReadClaimed(slot: nat)
    | ReadHolding(slot: nat)

  /** What a thread does where it has a choice. */
  datatype Choice<T> = CallWrite | CallRead | Store(value: T) | Look | Finish

  /** A publication: its value, the slot it went to, and its place in claim order once claimed. */
  datatype Publication<T> = Publication(value: T, slot: nat, claimedAt: Option<nat>)
  datatype Claim = Claim(index: nat, reader: nat)
  datatype Sight<T> = Sight(claim: nat, reader: nat, value: T)

  /** `published`: all publications in order; `tag`: the publication each slot last received;
      `owner`: the thread that last claimed each slot; `claims`: the claimed publications in
      claim order; `seen`: what readers loaded; `done`: the number of completed reads. */
  datatype Log<T> = Log(published: seq<Publication<T>>, tag: seq<nat>, owner: seq<nat>,
                        claims: seq<Claim>, seen: seq<Sight<T>>, done: nat)

  datatype Ring<T> = Ring(status: seq<Status>, data: seq<T>, writeIndex: nat, readIndex: nat,
                          pcs: seq<Pc<T>>, log: Log<T>)

  function Init<T>(size: nat, threads: nat, fill: T): Ring<T> {
    Ring(seq(size, _ => NoData), seq(size, _ => fill), 0, 0, seq(threads, _ => Idle),
         Log([], seq(size, _ => 0), seq(size, _ => 0), [], [], 0))
  }

  predicate Shape<T>(r: Ring<T>) {
    && |r.status| == |r.data| == |r.log.tag| == |r.log.owner| > 0
    && r.writeIndex < |r.status| && r.readIndex < |r.status|
    && (forall t :: 0 <= t < |r.pcs| ==> InRange(r.pcs[t], |r.status|))
  }

  predicate InRange<T>(p: Pc<T>, size: nat) {
    HasSlot(p) ==> p.slot < size
  }

  function Goto<T>(r: Ring<T>, t: nat, p: Pc<T>): Ring<T>
    requires t < |r.pcs|
  {
    r.(pcs := r.pcs[t := p])
  }

  function LogClaim<T>(log: Log<T>, i: nat, t: nat): Log<T>
    requires i < |log.tag| == |log.owner|
  {
    var k := log.tag[i];
    if k >= |log.published| then log
    else log.(claims := log.claims + [Claim(k, t)], owner := log.owner[i := t],
              published := log.published[k := log.published[k].(claimedAt := Some(|log.claims|))])
  }

  function LogSight<T>(log: Log<T>, i: nat, t: nat, v: T): Log<T>
    requires i < |log.tag|
  {
    var k := log.tag[i];
    if k >= |log.published| || log.published[k].claimedAt.None? then log
    else log.(seen := log.seen + [Sight(log.published[k].claimedAt.value, t, v)])
  }

  /** One step of thread `t`.  A choice that does not fit the thread's place changes nothing. */
  function Step<T>(r: Ring<T>, t: nat, c: Choice<T>): (r': Ring<T>)
    requires Shape(r) && t < |r.pcs|
    ensures Shape(r') && |r'.pcs| == |r.pcs| && |r'.status| == |r.status|
  {
    var size := |r.status|;
    match r.pcs[t]
    case Idle =>
      if c.CallWrite? then Goto(r, t, WriteStart)
      else if c.CallRead? then Goto(r, t, ReadStart)
      else r
    case WriteStart => Goto(r, t, WriteLoaded(r.writeIndex))
    case WriteLoaded(i) =>
      if r.status[i] == DataWriting then Goto(r, t, WriteStart)
      else if r.status[i] != NoData then Goto(r, t, Idle)      // nullptr
      else Goto(r, t, WriteFree(i))
    case WriteFree(i) =>
      if r.status[i] != NoData then Goto(r, t, WriteStart)
      else
        Goto(r.(status := r.status[i := DataWriting], log := r.log.(owner := r.log.owner[i := t])), t, WriteClaimed(i))
    case WriteClaimed(i) =>
      Goto(r.(writeIndex := (i + 1) % size), t, WriteHolding(i, r.data[i]))
    case WriteHolding(i, v) =>
      if c.Store? then Goto(r.(data := r.data[i := c.value]), t, WriteHolding(i, c.value))
      else if c.Finish? then
        var log := r.log.(published := r.log.published + [Publication(v, i, None)],
                          tag := r.log.tag[i := |r.log.published|]);
        Goto(r.(status := r.status[i := DataValid], log := log), t, Idle)
      else r
    case ReadStart => Goto(r, t, ReadLoaded(r.readIndex))
    case ReadLoaded(i) =>
      if r.status[i] == DataReading then Goto(r, t, ReadStart)
      else if r.status[i] != DataValid then Goto(r, t, Idle)   // nullptr
      else Goto(r, t, ReadReady(i))
    case ReadReady(i) =>
      if r.status[i] != DataValid then Goto(r, t, ReadStart)
      else
        Goto(r.(status := r.status[i := DataReading], log := LogClaim(r.log, i, t)), t, ReadClaimed(i))
    case ReadClaimed(i) =>
      Goto(r.(readIndex := (i + 1) % size), t, ReadHolding(i))
    case ReadHolding(i) =>
      if c.Look? then
        r.(log := LogSight(r.log, i, t, r.data[i]))
      else if c.Finish? then
        Goto(r.(status := r.status[i := NoData], log := r.log.(done := r.log.done + 1)), t, Idle)
      else r
  }

  datatype Move<T> = Move(thread: nat, choice: Choice<T>)

  /** The state after a schedule; moves of threads that do not exist are skipped. */
  function Exec<T>(r: Ring<T>, moves: seq<Move<T>>): (r': Ring<T>)
    requires Shape(r)
    ensures Shape(r') && |r'.pcs| == |r.pcs| && |r'.status| == |r.status|
    decreases |moves|
  {
    if moves == [] then r
    else
      var before := Exec(r, moves[..|moves| - 1]);
      var m := moves[|moves| - 1];
      if m.thread < |before.pcs| then Step(before, m.thread, m.choice) else before
  }

  // ---------------------------------------------------------------- the invariant

  predicate Writes<T>(p: Pc<T>, i: nat) {
    (p.WriteClaimed? || p.WriteHolding?) && p.slot == i
  }

  predicate Reads<T>(p: Pc<T>, i: nat) {
    (p.ReadClaimed? || p.ReadHolding?) && p.slot == i
  }

  predicate Holds<T>(p: Pc<T>, i: nat) { Writes(p, i) || Reads(p, i) }

  ghost predicate ThreadOk<T>(r: Ring<T>, t: nat)
    requires Shape(r) && t < |r.pcs|
  {
    match r.pcs[t]
    case WriteClaimed(i) => r.status[i] == DataWriting && r.log.owner[i] == t
    case WriteHolding(i, v) => r.status[i] == DataWriting && r.log.owner[i] == t && r.data[i] == v
    case ReadClaimed(i) => r.status[i] == DataReading && r.log.owner[i] == t
    case ReadHolding(i) => r.status[i] == DataReading && r.log.owner[i] == t
    case _ => true
  }

  /** A full slot carries, unchanged, the publication its tag names. */
  ghost predicate Carries<T>(r: Ring<T>, i: nat)
    requires Shape(r) && i < |r.status|
  {
    && r.log.tag[i] < |r.log.published|
    && r.log.published[r.log.tag[i]].slot == i
    && r.log.published[r.log.tag[i]].value == r.data[i]
  }

  ghost predicate SlotOk<T>(r: Ring<T>, i: nat)
    requires Shape(r) && i < |r.status|
  {
    match r.status[i]
    case NoData => true
    case DataWriting => r.log.owner[i] < |r.pcs| && Writes(r.pcs[r.log.owner[i]], i)
    case DataValid => Carries(r, i) && r.log.published[r.log.tag[i]].claimedAt.None?
    case DataReading =>
      && r.log.owner[i] < |r.pcs| && Reads(r.pcs[r.log.owner[i]], i)
      && Carries(r, i)
      && var at := r.log.published[r.log.tag[i]].claimedAt;
         at.Some? && at.value < |r.log.claims| && r.log.claims[at.value] == Claim(r.log.tag[i], r.log.owner[i])
  }

  /** An unclaimed publication waits in its slot; a claimed one knows its claim. */
  ghost predicate PublicationOk<T>(r: Ring<T>, k: nat)
    requires Shape(r) && k < |r.log.published|
  {
    var p := r.log.published[k];
    && p.slot < |r.status|
    && match p.claimedAt
       case None => r.status[p.slot] == DataValid && r.log.tag[p.slot] == k
       case Some(j) => j < |r.log.claims| && r.log.claims[j].index == k
  }

  ghost predicate ClaimOk<T>(r: Ring<T>, j: nat)
    requires j < |r.log.claims|
  {
    && r.log.claims[j].index < |r.log.published|
    && r.log.published[r.log.claims[j].index].claimedAt == Some(j)
  }

  ghost predicate SightOk<T>(r: Ring<T>, j: nat)
    requires j < |r.log.seen|
  {
    var s := r.log.seen[j];
    && s.claim < |r.log.claims|
    && s.reader == r.log.claims[s.claim].reader
    && r.log.claims[s.claim].index < |r.log.published|
    && s.value == r.log.published[r.log.claims[s.claim].index].value
  }

  ghost predicate Inv<T>(r: Ring<T>) {
    && Shape(r)
    && (forall t :: 0 <= t < |r.pcs| ==> ThreadOk(r, t))
    && (forall i :: 0 <= i < |r.status| ==> SlotOk(r, i))
    && (forall k :: 0 <= k < |r.log.published| ==> PublicationOk(r, k))
    && (forall j :: 0 <= j < |r.log.claims| ==> ClaimOk(r, j))
    && (forall j :: 0 <= j < |r.log.seen| ==> SightOk(r, j))
  }

  /** From `r` to `r'` only thread `t` moved and only its own slot changed; the log only grew,
      and a publication changed only by being claimed from that slot. */
  ghost predicate Local<T>(r: Ring<T>, r': Ring<T>, t: nat)
    requires t < |r.pcs|
  {
    var p := r.pcs[t];
    && |r'.pcs| == |r.pcs| && |r'.status| == |r.status|
    && (forall u :: 0 <= u < |r.pcs| && u != t ==> r'.pcs[u] == r.pcs[u])
    && |r.log.published| <= |r'.log.published| && |r.log.claims| <= |r'.log.claims|
    && (forall j :: 0 <= j < |r.log.claims| ==> r'.log.claims[j] == r.log.claims[j])
    && Shape(r) && Shape(r')
    && (forall i :: 0 <= i < |r.status| && !(HasSlot(p) && p.slot == i) ==>
          && r'.status[i] == r.status[i] && r'.data[i] == r.data[i]
          && r'.log.tag[i] == r.log.tag[i] && r'.log.owner[i] == r.log.owner[i])
    && (forall k :: 0 <= k < |r.log.published| ==>
          && r'.log.published[k].slot == r.log.published[k].slot
          && r'.log.published[k].value == r.log.published[k].value
          && ((HasSlot(p) && r.log.published[k].slot == p.slot) ||
              r'.log.published[k].claimedAt == r.log.published[k].claimedAt))
    && (HasSlot(p) ==>
          || Holds(p, p.slot) || r.status[p.slot] == NoData || r.status[p.slot] == DataValid
          || (r'.status[p.slot] == r.status[p.slot] && r'.data[p.slot] == r.data[p.slot]
              && r'.log.owner[p.slot] == r.log.owner[p.slot]))
  }

  predicate HasSlot<T>(p: Pc<T>) {
    !(p.Idle? || p.WriteStart? || p.ReadStart?)
  }

  lemma StepLocal<T>(r: Ring<T>, t: nat, c: Choice<T>)
    requires Inv(r) && t < |r.pcs|
    ensures Local(r, Step(r, t, c), t)
  {
    assert ThreadOk(r, t);
    if r.pcs[t].ReadReady? {
      assert SlotOk(r, r.pcs[t].slot);
    }
  }

  lemma StepOwnThreadOk<T>(r: Ring<T>, t: nat, c: Choice<T>)
    requires Inv(r) && t < |r.pcs|
    ensures ThreadOk(Step(r, t, c), t)
  {
    assert ThreadOk(r, t);
    if r.pcs[t].ReadReady? {
      assert SlotOk(r, r.pcs[t].slot);
    }
  }

  /** Two threads never hold one slot, so a step leaves other holders alone. */
  lemma OtherThreadOk<T>(r: Ring<T>, r': Ring<T>, t: nat, u: nat)
    requires Inv(r) && t < |r.pcs| && u < |r.pcs| && u != t && Local(r, r', t)
    ensures ThreadOk(r', u)
  {
    assert ThreadOk(r, t) && ThreadOk(r, u);
  }

  lemma OtherSlotOk<T>(r: Ring<T>, r': Ring<T>, t: nat, i: nat)
    requires Inv(r) && t < |r.pcs| && i < |r.status| && Local(r, r', t)
    requires !(HasSlot(r.pcs[t]) && r.pcs[t].slot == i)
    ensures SlotOk(r', i)
  {
    assert ThreadOk(r, t) && SlotOk(r, i);
  }

  lemma StepOwnSlotOk<T>(r: Ring<T>, t: nat, c: Choice<T>)
    requires Inv(r) && t < |r.pcs|
    requires HasSlot(r.pcs[t])
    ensures SlotOk(Step(r, t, c), r.pcs[t].slot)
  {
    assert ThreadOk(r, t) && SlotOk(r, r.pcs[t].slot);
  }

  lemma StepPublicationOk<T>(r: Ring<T>, t: nat, c: Choice<T>, k: nat)
    requires Inv(r) && t < |r.pcs| && k < |Step(r, t, c).log.published|
    ensures PublicationOk(Step(r, t, c), k)
  {
    assert ThreadOk(r, t);
    if k < |r.log.published| {
      assert PublicationOk(r, k);
    }
  }

  lemma StepClaimOk<T>(r: Ring<T>, t: nat, c: Choice<T>, j: nat)
    requires Inv(r) && t < |r.pcs| && j < |Step(r, t, c).log.claims|
    ensures ClaimOk(Step(r, t, c), j)
  {
    if j < |r.log.claims| {
      assert ClaimOk(r, j);
    }
    if r.pcs[t].ReadReady? {
      assert SlotOk(r, r.pcs[t].slot);
    }
  }

  lemma StepSightOk<T>(r: Ring<T>, t: nat, c: Choice<T>, j: nat)
    requires Inv(r) && t < |r.pcs| && j < |Step(r, t, c).log.seen|
    ensures SightOk(Step(r, t, c), j)
  {
    assert ThreadOk(r, t);
    if j < |r.log.seen| {
      assert SightOk(r, j);
    }
    if r.pcs[t].ReadHolding? {
      assert SlotOk(r, r.pcs[t].slot);
    }
  }

  lemma StepInv<T>(r: Ring<T>, t: nat, c: Choice<T>)
    requires Inv(r) && t < |r.pcs|
    ensures Inv(Step(r, t, c))
  {
    var r' := Step(r, t, c);
    StepLocal(r, t, c);
    forall u | 0 <= u < |r'.pcs| ensures ThreadOk(r', u) {
      if u == t { StepOwnThreadOk(r, t, c); } else { OtherThreadOk(r, r', t, u); }
    }
    forall i | 0 <= i < |r'.status| ensures SlotOk(r', i) {
      if HasSlot(r.pcs[t]) && r.pcs[t].slot == i {
        StepOwnSlotOk(r, t, c);
      } else {
        OtherSlotOk(r, r', t, i);
      }
    }
    forall k | 0 <= k < |r'.log.published| ensures PublicationOk(r', k) { StepPublicationOk(r, t, c, k); }
    forall j | 0 <= j < |r'.log.claims| ensures ClaimOk(r', j) { StepClaimOk(r, t, c, j); }
    forall j | 0 <= j < |r'.log.seen| ensures SightOk(r', j) { StepSightOk(r, t, c, j); }
  }

  lemma {:induction false} ExecInv<T>(r: Ring<T>, moves: seq<Move<T>>)
    requires Inv(r)
    ensures Inv(Exec(r, moves))
    decreases |moves|
  {
    if moves != [] {
      ExecInv(r, moves[..|moves| - 1]);
      var before := Exec(r, moves[..|moves| - 1]);
      var m := moves[|moves| - 1];
      if m.thread < |before.pcs| {
        StepInv(before, m.thread, m.choice);
      }
    }
  }

  // ---------------------------------------------------------------- what callers rely on

  /** Every claimed slot has a holder, and nobody else holds it. */
  ghost predicate OneHolder<T>(r: Ring<T>)
    requires Shape(r)
  {
    && (forall i :: 0 <= i < |r.status| && (r.status[i] == DataWriting || r.status[i] == DataReading) ==>
          exists t :: 0 <= t < |r.pcs| && Holds(r.pcs[t], i))
    && (forall t, u, i :: 0 <= t < |r.pcs| && 0 <= u < |r.pcs| && Holds(r.pcs[t], i) && Holds(r.pcs[u], i) ==> t == u)
  }

  ghost predicate Unclaimed<T>(r: Ring<T>, k: nat) {
    forall j :: 0 <= j < |r.log.claims| ==> r.log.claims[j].index != k
  }

  /** A publication nobody has claimed still lies, as its writer stored it, in its slot. */
  ghost predicate NothingLost<T>(r: Ring<T>)
    requires Shape(r)
  {
    forall k :: 0 <= k < |r.log.published| && Unclaimed(r, k) ==>
      exists i :: 0 <= i < |r.status| && r.status[i] == DataValid && r.log.tag[i] == k &&
                  r.data[i] == r.log.published[k].value
  }

  /** Each publication is claimed at most once. */
  ghost predicate ClaimedOnce<T>(r: Ring<T>) {
    && (forall j :: 0 <= j < |r.log.claims| ==> r.log.claims[j].index < |r.log.published|)
    && (forall j, k :: 0 <= j < k < |r.log.claims| ==> r.log.claims[j].index != r.log.claims[k].index)
  }

  /** Whatever a reader loads is, under one of its own claims, what the writer stored. */
  ghost predicate SawWhatWasStored<T>(r: Ring<T>)
    requires ClaimedOnce(r)
  {
    forall j :: 0 <= j < |r.log.seen| ==>
      var s := r.log.seen[j];
      s.claim < |r.log.claims| && s.reader == r.log.claims[s.claim].reader &&
      s.value == r.log.published[r.log.claims[s.claim].index].value
  }

  lemma InvIsSafe<T>(r: Ring<T>)
    requires Inv(r)
    ensures OneHolder(r) && NothingLost(r) && ClaimedOnce(r) && SawWhatWasStored(r)
  {
    forall i | 0 <= i < |r.status| && (r.status[i] == DataWriting || r.status[i] == DataReading)
      ensures exists t :: 0 <= t < |r.pcs| && Holds(r.pcs[t], i)
    {
      assert SlotOk(r, i);
      assert Holds(r.pcs[r.log.owner[i]], i);
    }
    forall t, u, i | 0 <= t < |r.pcs| && 0 <= u < |r.pcs| && Holds(r.pcs[t], i) && Holds(r.pcs[u], i)
      ensures t == u
    {
      assert ThreadOk(r, t) && ThreadOk(r, u);
    }
    forall k | 0 <= k < |r.log.published| && Unclaimed(r, k)
      ensures exists i :: 0 <= i < |r.status| && r.status[i] == DataValid && r.log.tag[i] == k &&
                          r.data[i] == r.log.published[k].value
    {
      assert PublicationOk(r, k);
      assert SlotOk(r, r.log.published[k].slot) && r.log.published[k].claimedAt.None?;
    }
    forall j | 0 <= j < |r.log.claims|
      ensures r.log.claims[j].index < |r.log.published|
      ensures r.log.published[r.log.claims[j].index].claimedAt == Some(j)
    {
      assert ClaimOk(r, j);
    }
    forall j | 0 <= j < |r.log.seen|
      ensures var s := r.log.seen[j];
              s.claim < |r.log.claims| && s.reader == r.log.claims[s.claim].reader &&
              s.value == r.log.published[r.log.claims[s.claim].index].value
    {
      assert SightOk(r, j);
    }
  }

  /** For any number of threads and any schedule: one holder per claimed slot, nothing
      published is overwritten before it is claimed, no publication is claimed twice, and a
      reader sees exactly what the writer stored. */
  lemma EveryInterleavingIsSafe<T>(size: nat, threads: nat, fill: T, moves: seq<Move<T>>)
    requires size > 0
    ensures var r := Exec(Init(size, threads, fill), moves);
            OneHolder(r) && NothingLost(r) && ClaimedOnce(r) && SawWhatWasStored(r)
  {
    var init := Init(size, threads, fill);
    assert Inv(init);
    ExecInv(init, moves);
    InvIsSafe(Exec(init, moves));
  }

  // ---------------------------------------------------------------- how calls are answered

  ghost predicate BeingWritten<T>(r: Ring<T>, i: nat) { exists u :: 0 <= u < |r.pcs| && Writes(r.pcs[u], i) }
  ghost predicate BeingRead<T>(r: Ring<T>, i: nat) { exists u :: 0 <= u < |r.pcs| && Reads(r.pcs[u], i) }

  /** Something was published into the slot that nobody has claimed. */
  ghost predicate Unread<T>(r: Ring<T>, i: nat) {
    exists k :: 0 <= k < |r.log.published| && r.log.published[k].slot == i && Unclaimed(r, k)
  }

  lemma UnclaimedIsOpen<T>(r: Ring<T>, k: nat)
    requires Inv(r) && k < |r.log.published|
    ensures Unclaimed(r, k) <==> r.log.published[k].claimedAt.None?
  {
    assert PublicationOk(r, k);
    if r.log.published[k].claimedAt.None? {
      forall j | 0 <= j < |r.log.claims| ensures r.log.claims[j].index != k { assert ClaimOk(r, j); }
    }
  }

  /** A slot's status says who holds it, and whether it has something to read. */
  lemma StatusMeans<T>(r: Ring<T>, i: nat)
    requires Inv(r) && i < |r.status|
    ensures r.status[i] == DataWriting <==> BeingWritten(r, i)
    ensures r.status[i] == DataReading <==> BeingRead(r, i)
    ensures r.status[i] == DataValid <==> Unread(r, i)
  {
    assert SlotOk(r, i);
    forall u | 0 <= u < |r.pcs| && Holds(r.pcs[u], i)
      ensures r.status[i] == if Writes(r.pcs[u], i) then DataWriting else DataReading
    {
      assert ThreadOk(r, u);
    }
    if r.status[i] == DataValid { UnclaimedIsOpen(r, r.log.tag[i]); }
    forall k | 0 <= k < |r.log.published| && r.log.published[k].slot == i && Unclaimed(r, k)
      ensures r.status[i] == DataValid
    {
      UnclaimedIsOpen(r, k);
      assert PublicationOk(r, k);
    }
  }

  /** A call for a slot to write that looks at slot `i` goes round again while another thread writes it,
      comes back empty if it holds something unread or being read, and tries to take it otherwise; and then
      it takes it, unless somebody else was first, and goes round again. */
  ghost predicate WriteAnswers<T>(r: Ring<T>, t: nat, c: Choice<T>)
    requires Shape(r) && t < |r.pcs|
  {
    var p, p' := r.pcs[t], Step(r, t, c).pcs[t];
    && (p.WriteLoaded? ==>
          p' == if BeingWritten(r, p.slot) then WriteStart
                else if Unread(r, p.slot) || BeingRead(r, p.slot) then Idle
                else WriteFree(p.slot))
    && (p.WriteFree? ==>
          p' == if BeingWritten(r, p.slot) || Unread(r, p.slot) || BeingRead(r, p.slot) then WriteStart
                else WriteClaimed(p.slot))
  }

  /** A call for a slot to read goes round again while another thread reads the slot, comes back empty if
      it holds nothing unread, and tries to take it otherwise; and then it takes it, unless somebody else was
      first, and goes round again. */
  ghost predicate ReadAnswers<T>(r: Ring<T>, t: nat, c: Choice<T>)
    requires Shape(r) && t < |r.pcs|
  {
    var p, p' := r.pcs[t], Step(r, t, c).pcs[t];
    && (p.ReadLoaded? ==>
          p' == if BeingRead(r, p.slot) then ReadStart else if !Unread(r, p.slot) then Idle else ReadReady(p.slot))
    && (p.ReadReady? ==> p' == if Unread(r, p.slot) then ReadClaimed(p.slot) else ReadStart)
  }

  /** A call looks at the slot the index names, and moves the index on past the slot it takes. */
  ghost predicate IndexMoves<T>(r: Ring<T>, t: nat, c: Choice<T>)
    requires Shape(r) && t < |r.pcs|
  {
    var p, r', size := r.pcs[t], Step(r, t, c), |r.status|;
    && (p.WriteStart? ==> r'.pcs[t] == WriteLoaded(r.writeIndex))
    && (p.ReadStart? ==> r'.pcs[t] == ReadLoaded(r.readIndex))
    && r'.writeIndex == (if p.WriteClaimed? then (if p.slot == size - 1 then 0 else p.slot + 1) else r.writeIndex)
    && r'.readIndex == (if p.ReadClaimed? then (if p.slot == size - 1 then 0 else p.slot + 1) else r.readIndex)
  }

  /** A reader that looks sees, under the claim it made, what was published there. */
  lemma LookSees<T>(r: Ring<T>, t: nat)
    requires Inv(r) && t < |r.pcs| && r.pcs[t].ReadHolding?
    ensures var i, r' := r.pcs[t].slot, Step(r, t, Look);
            var k := r.log.tag[i];
            && k < |r.log.published| && r.log.published[k].slot == i && r'.pcs[t] == r.pcs[t]
            && exists j :: 0 <= j < |r.log.claims| && r.log.claims[j] == Claim(k, t)
                           && r'.log.seen == r.log.seen + [Sight(j, t, r.log.published[k].value)]
  {
    assert ThreadOk(r, t) && SlotOk(r, r.pcs[t].slot);
  }

  lemma StepAnswers<T>(r: Ring<T>, t: nat, c: Choice<T>)
    requires Inv(r) && t < |r.pcs|
    ensures WriteAnswers(r, t, c) && ReadAnswers(r, t, c)
  {
    if HasSlot(r.pcs[t]) { StatusMeans(r, r.pcs[t].slot); }
  }

  lemma NextIndex(i: nat, size: nat)
    requires i < size
    ensures (i + 1) % size == if i == size - 1 then 0 else i + 1
  {
    if i == size - 1 { Arith.DivModUnique(size, size, 1, 0); } else { Arith.DivModUnique(i + 1, size, 0, i + 1); }
  }

  lemma StepMovesIndex<T>(r: Ring<T>, t: nat, c: Choice<T>)
    requires Shape(r) && t < |r.pcs|
    ensures IndexMoves(r, t, c)
  {
    if HasSlot(r.pcs[t]) { NextIndex(r.pcs[t].slot, |r.status|); }
  }

  /** For any number of threads and any schedule, every call is answered so. */
  lemma EveryCallIsAnsweredRight<T>(size: nat, threads: nat, fill: T, moves: seq<Move<T>>, t: nat, c: Choice<T>)
    requires size > 0 && t < threads
    ensures var r := Exec(Init(size, threads, fill), moves);
            t < |r.pcs| && WriteAnswers(r, t, c) && ReadAnswers(r, t, c) && IndexMoves(r, t, c)
  {
    var init := Init(size, threads, fill);
    assert Inv(init);
    ExecInv(init, moves);
    StepAnswers(Exec(init, moves), t, c);
    StepMovesIndex(Exec(init, moves), t, c);
  }

  /** Only the thread that holds a slot for writing changes its payload. */
  lemma OnlyTheWriterChangesData<T>(r: Ring<T>, t: nat, c: Choice<T>, i: nat)
    requires Inv(r) && t < |r.pcs| && i < |r.status|
    ensures Step(r, t, c).data[i] != r.data[i] ==> Writes(r.pcs[t], i) && r.status[i] == DataWriting
  {
    assert ThreadOk(r, t);
  }
}
