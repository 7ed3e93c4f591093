/** The slot ring with one writing thread and one reading thread, which may be the same, is a bounded
    queue at every interleaving. */
module SlotRingFifo {
  import opened Common
  import opened SlotRing
  import Arith

  lemma NextCell(k: nat, size: nat)
    requires size > 0
    ensures Cell(k + 1, size) == (Cell(k, size) + 1) % size
    ensures Cell(k + size, size) == Cell(k, size)
  {
    Arith.ModOfSum(k, 1, size);
    Arith.ModShift(k, 1, size);
  }

  predicate Writing<T>(p: Pc<T>) {
    p.WriteStart? || p.WriteLoaded? || p.WriteFree? || p.WriteClaimed? || p.WriteHolding?
  }

  predicate Fetching<T>(p: Pc<T>) {
    p.ReadStart? || p.ReadLoaded? || p.ReadReady? || p.ReadClaimed? || p.ReadHolding?
  }

  function WriteAhead<T>(p: Pc<T>): nat { if p.WriteHolding? then 1 else 0 }
  function WriteHeld<T>(p: Pc<T>): nat { if p.WriteClaimed? then 1 else WriteAhead(p) }
  function ReadAhead<T>(p: Pc<T>): nat { if p.ReadHolding? then 1 else 0 }
  function ReadHeld<T>(p: Pc<T>): nat { if p.ReadClaimed? then 1 else ReadAhead(p) }

  /** What the cell of publication number `k` holds, for `k` in the window of one lap that
      starts at the first publication not yet read to the end; `p` is the writer's place. */
  function Expected<T>(log: Log<T>, p: Pc<T>, k: nat): Status {
    if k < |log.claims| then DataReading
    else if k < |log.published| then DataValid
    else if k < |log.published| + WriteHeld(p) then DataWriting
    else NoData
  }

  /** Only `w` is inside a write and only `c` inside a read. */
  ghost predicate Threads<T>(r: Ring<T>, w: nat, c: nat) {
    && Shape(r) && w < |r.pcs| && c < |r.pcs|
    && (forall t :: 0 <= t < |r.pcs| && Writing(r.pcs[t]) ==> t == w)
    && (forall t :: 0 <= t < |r.pcs| && Fetching(r.pcs[t]) ==> t == c)
  }

  /** The counters: reads done, claimed, published and begun, in queue order; `p` and `q` are the
      places of the writer and the reader. */
  predicate Numbers<T>(r: Ring<T>, p: Pc<T>, q: Pc<T>) {
    var (size, put, got, done) := (|r.status|, |r.log.published|, |r.log.claims|, r.log.done);
    && got == done + ReadHeld(q) && got <= put && put + WriteHeld(p) <= done + size
    && (p.WriteFree? ==> put < done + size) && (q.ReadReady? ==> got < put)
  }

  /** The indices point at the cells the counters say. */
  predicate Indices<T>(r: Ring<T>, p: Pc<T>, q: Pc<T>)
    requires Shape(r)
  {
    var (size, put, done) := (|r.status|, |r.log.published|, r.log.done);
    && r.writeIndex == Cell(put + WriteAhead(p), size)
    && r.readIndex == Cell(done + ReadAhead(q), size)
    && (Writing(p) && HasSlot(p) ==> p.slot == Cell(put, size))
    && (Fetching(q) && HasSlot(q) ==> q.slot == Cell(done, size))
  }

  predicate Counters<T>(r: Ring<T>, p: Pc<T>, q: Pc<T>)
    requires Shape(r)
  {
    Numbers(r, p, q) && Indices(r, p, q)
  }

  ghost predicate CellOk<T>(r: Ring<T>, p: Pc<T>, k: nat)
    requires Shape(r)
  {
    && r.status[Cell(k, |r.status|)] == Expected(r.log, p, k)
    && (k < |r.log.published| ==> r.log.tag[Cell(k, |r.status|)] == k)
  }

  ghost predicate Cells<T>(r: Ring<T>, p: Pc<T>)
    requires Shape(r)
  {
    forall k: nat :: r.log.done <= k < r.log.done + |r.status| ==> CellOk(r, p, k)
  }

  ghost predicate InOrder<T>(r: Ring<T>) {
    forall j :: 0 <= j < |r.log.claims| ==> r.log.claims[j].index == j
  }

  ghost predicate Queue<T>(r: Ring<T>, w: nat, c: nat) {
    Threads(r, w, c) && Counters(r, r.pcs[w], r.pcs[c]) && Cells(r, r.pcs[w]) && InOrder(r)
  }

  // ---------------------------------------------------------------- a step of a write

  /** Thread `w` is inside a write, or begins one. */
  predicate WriteStep<T>(p: Pc<T>, ch: Choice<T>) { Writing(p) || (p.Idle? && ch.CallWrite?) }

  predicate ReadStep<T>(q: Pc<T>, ch: Choice<T>) { Fetching(q) || (q.Idle? && ch.CallRead?) }

  lemma WriteStepThreads<T>(r: Ring<T>, w: nat, c: nat, ch: Choice<T>)
    requires Queue(r, w, c) && WriteStep(r.pcs[w], ch)
    ensures Threads(Step(r, w, ch), w, c) && InOrder(Step(r, w, ch))
    ensures w != c ==> Step(r, w, ch).pcs[c] == r.pcs[c]
    ensures w == c ==> !Fetching(r.pcs[c]) && !Fetching(Step(r, w, ch).pcs[c])
  {
  }

  lemma WriteStepNumbers<T>(r: Ring<T>, w: nat, c: nat, ch: Choice<T>, q: Pc<T>)
    requires Queue(r, w, c) && WriteStep(r.pcs[w], ch) && Counters(r, r.pcs[w], q)
    ensures Numbers(Step(r, w, ch), Step(r, w, ch).pcs[w], q)
  {
    if |r.log.published| == r.log.done + |r.status| {
      NextCell(r.log.done, |r.status|);
      assert CellOk(r, r.pcs[w], r.log.done);
    } else {
      assert CellOk(r, r.pcs[w], |r.log.published|);
    }
  }

  lemma WriteStepIndices<T>(r: Ring<T>, w: nat, c: nat, ch: Choice<T>, q: Pc<T>)
    requires Queue(r, w, c) && WriteStep(r.pcs[w], ch) && Counters(r, r.pcs[w], q)
    ensures Indices(Step(r, w, ch), Step(r, w, ch).pcs[w], q)
  {
    NextCell(|r.log.published|, |r.status|);
  }

  lemma WriteStepCell<T>(r: Ring<T>, w: nat, c: nat, ch: Choice<T>, k: nat)
    requires Queue(r, w, c) && WriteStep(r.pcs[w], ch)
    requires r.log.done <= k < r.log.done + |r.status|
    ensures CellOk(Step(r, w, ch), Step(r, w, ch).pcs[w], k)
  {
    assert CellOk(r, r.pcs[w], k);
    if k != |r.log.published| {
      if |r.log.published| < r.log.done + |r.status| {
        CellsDistinct(k, |r.log.published|, |r.status|);
      }
    }
  }

  lemma StepOfWrite<T>(r: Ring<T>, w: nat, c: nat, ch: Choice<T>)
    requires Queue(r, w, c) && WriteStep(r.pcs[w], ch)
    ensures Queue(Step(r, w, ch), w, c)
  {
    var r' := Step(r, w, ch);
    WriteStepThreads(r, w, c, ch);
    WriteStepNumbers(r, w, c, ch, r.pcs[c]);
    WriteStepIndices(r, w, c, ch, r.pcs[c]);
    forall k: nat | r'.log.done <= k < r'.log.done + |r'.status| ensures CellOk(r', r'.pcs[w], k) {
      WriteStepCell(r, w, c, ch, k);
    }
  }

  // ---------------------------------------------------------------- a step of a read

  lemma ReadStepThreads<T>(r: Ring<T>, w: nat, c: nat, ch: Choice<T>)
    requires Queue(r, w, c) && ReadStep(r.pcs[c], ch)
    ensures Threads(Step(r, c, ch), w, c) && InOrder(Step(r, c, ch))
    ensures w != c ==> Step(r, c, ch).pcs[w] == r.pcs[w]
    ensures w == c ==> !Writing(r.pcs[w]) && !Writing(Step(r, c, ch).pcs[w])
  {
    assert CellOk(r, r.pcs[w], r.log.done);
  }

  /** What a reader inside a call finds in the first cell of the window. */
  predicate SeesFirst<T>(r: Ring<T>, q: Pc<T>)
    requires Shape(r)
  {
    Fetching(q) && HasSlot(q) && q.slot < |r.status| ==>
      && (r.status[q.slot] == DataValid ==> |r.log.claims| < |r.log.published|)
      && (q.ReadReady? ==> r.status[q.slot] == DataValid && r.log.tag[q.slot] < |r.log.published|)
  }

  lemma FirstCell<T>(r: Ring<T>, w: nat, c: nat)
    requires Queue(r, w, c)
    ensures SeesFirst(r, r.pcs[c])
  {
    assert CellOk(r, r.pcs[w], r.log.done);
  }

  lemma ReadStepNumbers<T>(r: Ring<T>, c: nat, ch: Choice<T>, p: Pc<T>)
    requires Shape(r) && c < |r.pcs| && ReadStep(r.pcs[c], ch) && Numbers(r, p, r.pcs[c]) && SeesFirst(r, r.pcs[c])
    ensures Numbers(Step(r, c, ch), p, Step(r, c, ch).pcs[c])
  {
  }

  lemma ReadEndIndices<T>(r: Ring<T>, w: nat, c: nat, ch: Choice<T>, p: Pc<T>)
    requires Queue(r, w, c) && (r.pcs[c].ReadClaimed? || r.pcs[c].ReadHolding?) && Counters(r, p, r.pcs[c])
    ensures Indices(Step(r, c, ch), p, Step(r, c, ch).pcs[c])
  {
    NextCell(r.log.done, |r.status|);
  }

  lemma ReadStepIndices<T>(r: Ring<T>, w: nat, c: nat, ch: Choice<T>, p: Pc<T>)
    requires Queue(r, w, c) && ReadStep(r.pcs[c], ch) && Counters(r, p, r.pcs[c])
    ensures Indices(Step(r, c, ch), p, Step(r, c, ch).pcs[c])
  {
    if r.pcs[c].ReadClaimed? || r.pcs[c].ReadHolding? {
      ReadEndIndices(r, w, c, ch, p);
    }
  }

  lemma ReadStepCell<T>(r: Ring<T>, w: nat, c: nat, ch: Choice<T>, k: nat)
    requires Queue(r, w, c) && ReadStep(r.pcs[c], ch)
    requires r.log.done < k < r.log.done + |r.status|
    ensures CellOk(Step(r, c, ch), r.pcs[w], k)
  {
    assert CellOk(r, r.pcs[w], k) && CellOk(r, r.pcs[w], r.log.done);
    CellsDistinct(k, r.log.done, |r.status|);
  }

  lemma ReadStepFirstCell<T>(r: Ring<T>, w: nat, c: nat, ch: Choice<T>)
    requires Queue(r, w, c) && ReadStep(r.pcs[c], ch) && Step(r, c, ch).log.done == r.log.done
    ensures CellOk(Step(r, c, ch), r.pcs[w], r.log.done)
  {
    assert CellOk(r, r.pcs[w], r.log.done);
  }

  /** The cell a completed read leaves free is the last one of the next lap. */
  lemma ReadStepLastCell<T>(r: Ring<T>, w: nat, c: nat, ch: Choice<T>)
    requires Queue(r, w, c) && r.pcs[c].ReadHolding? && ch.Finish?
    ensures CellOk(Step(r, c, ch), r.pcs[w], r.log.done + |r.status|)
  {
    NextCell(r.log.done, |r.status|);
  }

  lemma StepOfRead<T>(r: Ring<T>, w: nat, c: nat, ch: Choice<T>)
    requires Queue(r, w, c) && ReadStep(r.pcs[c], ch)
    ensures Queue(Step(r, c, ch), w, c)
  {
    var r' := Step(r, c, ch);
    ReadStepThreads(r, w, c, ch);
    FirstCell(r, w, c);
    ReadStepNumbers(r, c, ch, r.pcs[w]);
    ReadStepIndices(r, w, c, ch, r.pcs[w]);
    forall k: nat | r'.log.done <= k < r'.log.done + |r'.status| ensures CellOk(r', r'.pcs[w], k) {
      if k == r.log.done {
        ReadStepFirstCell(r, w, c, ch);
      } else if k < r.log.done + |r.status| {
        ReadStepCell(r, w, c, ch, k);
      } else {
        ReadStepLastCell(r, w, c, ch);
      }
    }
  }

  // ---------------------------------------------------------------- runs

  /** Only threads of `writers` begin writes, and only threads of `readers` begin reads. */
  predicate Role<T>(m: Move<T>, writers: set<nat>, readers: set<nat>) {
    (m.choice.CallWrite? ==> m.thread in writers) && (m.choice.CallRead? ==> m.thread in readers)
  }

  ghost predicate Roles<T>(moves: seq<Move<T>>, writers: set<nat>, readers: set<nat>) {
    forall j :: 0 <= j < |moves| ==> Role(moves[j], writers, readers)
  }

  lemma StepQueue<T>(r: Ring<T>, w: nat, c: nat, m: Move<T>)
    requires Queue(r, w, c) && m.thread < |r.pcs| && Role(m, {w}, {c})
    ensures Queue(Step(r, m.thread, m.choice), w, c)
  {
    if WriteStep(r.pcs[m.thread], m.choice) {
      StepOfWrite(r, w, c, m.choice);
    } else if ReadStep(r.pcs[m.thread], m.choice) {
      StepOfRead(r, w, c, m.choice);
    }
  }

  lemma {:induction false} ExecQueue<T>(r: Ring<T>, w: nat, c: nat, moves: seq<Move<T>>)
    requires Queue(r, w, c) && Roles(moves, {w}, {c})
    ensures Queue(Exec(r, moves), w, c)
    decreases |moves|
  {
    if moves != [] {
      ExecQueue(r, w, c, moves[..|moves| - 1]);
      var before, m := Exec(r, moves[..|moves| - 1]), moves[|moves| - 1];
      if m.thread < |before.pcs| { StepQueue(before, w, c, m); }
    }
  }

  /** The payloads readers claimed, in claim order. */
  function Taken<T>(log: Log<T>): seq<T>
    requires forall j :: 0 <= j < |log.claims| ==> log.claims[j].index < |log.published|
  {
    seq(|log.claims|, j requires 0 <= j < |log.claims| => log.published[log.claims[j].index].value)
  }

  function Put<T>(log: Log<T>): seq<T> {
    seq(|log.published|, k requires 0 <= k < |log.published| => log.published[k].value)
  }

  ghost predicate FirstInFirstOut<T>(r: Ring<T>) {
    && (forall j :: 0 <= j < |r.log.claims| ==> r.log.claims[j].index < |r.log.published|)
    && Taken(r.log) <= Put(r.log)
  }

  lemma InOrderIsFifo<T>(r: Ring<T>)
    requires InOrder(r) && |r.log.claims| <= |r.log.published|
    ensures FirstInFirstOut(r)
  {
    assert forall j :: 0 <= j < |r.log.claims| ==> Taken(r.log)[j] == Put(r.log)[j];
  }

  lemma InitQueue<T>(size: nat, threads: nat, w: nat, c: nat, fill: T)
    requires size > 0 && w < threads && c < threads
    ensures Queue(Init(size, threads, fill), w, c)
  {
    var init := Init(size, threads, fill);
    forall k: nat | 0 <= k < size ensures CellOk(init, init.pcs[w], k) {}
  }

  /** At every interleaving of one writing and one reading thread, what is read is a prefix of what
      was written, and at most `size` publications are unread or being read. */
  lemma OneWriterOneReaderIsFifo<T>(size: nat, threads: nat, w: nat, c: nat, fill: T, moves: seq<Move<T>>)
    requires size > 0 && w < threads && c < threads && Roles(moves, {w}, {c})
    ensures var r := Exec(Init(size, threads, fill), moves);
            Queue(r, w, c) && FirstInFirstOut(r) && |r.log.published| <= r.log.done + size
  {
    InitQueue(size, threads, w, c, fill);
    ExecQueue(Init(size, threads, fill), w, c, moves);
    InOrderIsFifo(Exec(Init(size, threads, fill), moves));
  }

  /** The writer is refused exactly when all cells are in use, the reader exactly when nothing
      published is left unread; neither ever waits for the other inside a call. */
  lemma RefusalsAreExact<T>(r: Ring<T>, w: nat, c: nat)
    requires Queue(r, w, c)
    ensures r.pcs[w].WriteLoaded? ==>
              (Step(r, w, Finish).pcs[w].Idle? <==> |r.log.published| == r.log.done + |r.status|)
    ensures r.pcs[c].ReadLoaded? ==>
              (Step(r, c, Finish).pcs[c].Idle? <==> |r.log.published| == |r.log.claims|)
    ensures r.pcs[w].WriteLoaded? || r.pcs[w].WriteFree? ==> !Step(r, w, Finish).pcs[w].WriteStart?
    ensures r.pcs[c].ReadLoaded? || r.pcs[c].ReadReady? ==> !Step(r, c, Finish).pcs[c].ReadStart?
  {
    var size := |r.status|;
    assert CellOk(r, r.pcs[w], r.log.done);
    if |r.log.published| == r.log.done + size {
      NextCell(r.log.done, size);
    } else {
      assert CellOk(r, r.pcs[w], |r.log.published|);
    }
  }
}
