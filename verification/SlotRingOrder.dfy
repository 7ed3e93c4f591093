/** When the slot ring keeps the order of what is put in, for any number of threads. */
module SlotRingOrder {
  import opened Common
  import opened SlotRing
  import opened SlotRingFifo

  // ---------------------------------------------------------------- one slot

  /** In a ring of one slot every publication is claimed before the next one is made. */
  ghost predicate OneAtATime<T>(r: Ring<T>) {
    && Inv(r) && |r.status| == 1 && InOrder(r)
    && |r.log.published| == |r.log.claims| + (if r.status[0] == DataValid then 1 else 0)
    && (r.status[0] == DataValid ==> r.log.tag[0] == |r.log.claims|)
  }

  lemma StepOneAtATime<T>(r: Ring<T>, t: nat, ch: Choice<T>)
    requires OneAtATime(r) && t < |r.pcs|
    ensures OneAtATime(Step(r, t, ch))
  {
    StepInv(r, t, ch);
    assert ThreadOk(r, t) && SlotRing.SlotOk(r, 0);
  }

  lemma {:induction false} ExecOneAtATime<T>(r: Ring<T>, moves: seq<Move<T>>)
    requires OneAtATime(r)
    ensures OneAtATime(Exec(r, moves))
    decreases |moves|
  {
    if moves != [] {
      ExecOneAtATime(r, moves[..|moves| - 1]);
      var before, m := Exec(r, moves[..|moves| - 1]), moves[|moves| - 1];
      if m.thread < |before.pcs| { StepOneAtATime(before, m.thread, m.choice); }
    }
  }

  // ---------------------------------------------------------------- nobody writes, or nobody reads

  ghost predicate NobodyWrites<T>(r: Ring<T>) {
    && Shape(r) && (forall t :: 0 <= t < |r.pcs| ==> !Writing(r.pcs[t]))
    && r.log.published == [] && r.log.claims == []
  }

  ghost predicate NobodyReads<T>(r: Ring<T>) {
    && Shape(r) && (forall t :: 0 <= t < |r.pcs| ==> !Fetching(r.pcs[t])) && r.log.claims == []
  }

  lemma {:induction false} ExecWithoutWriters<T>(r: Ring<T>, moves: seq<Move<T>>, readers: set<nat>)
    requires NobodyWrites(r) && Roles(moves, {}, readers)
    ensures NobodyWrites(Exec(r, moves))
    decreases |moves|
  {
    if moves != [] {
      ExecWithoutWriters(r, moves[..|moves| - 1], readers);
      assert Role(moves[|moves| - 1], {}, readers);
    }
  }

  lemma {:induction false} ExecWithoutReaders<T>(r: Ring<T>, moves: seq<Move<T>>, writers: set<nat>)
    requires NobodyReads(r) && Roles(moves, writers, {})
    ensures NobodyReads(Exec(r, moves))
    decreases |moves|
  {
    if moves != [] {
      ExecWithoutReaders(r, moves[..|moves| - 1], writers);
      assert Role(moves[|moves| - 1], writers, {});
    }
  }

  // ---------------------------------------------------------------- undisturbed calls

  /** Who takes part. */
  datatype Cast = Cast(size: nat, threads: nat, writers: set<nat>, readers: set<nat>)

  ghost predicate Reaches(x: Cast, r: Ring<int>) {
    x.size > 0 && exists moves :: Roles(moves, x.writers, x.readers) && Exec(Init(x.size, x.threads, 0), moves) == r
  }

  lemma Begin(x: Cast)
    requires x.size > 0
    ensures Reaches(x, Init(x.size, x.threads, 0))
  {
    var moves: seq<Move<int>> := [];
    assert Roles(moves, x.writers, x.readers) && Exec(Init(x.size, x.threads, 0), moves) == Init(x.size, x.threads, 0);
  }

  lemma Go(x: Cast, r: Ring<int>, t: nat, ch: Choice<int>) returns (r': Ring<int>)
    requires Reaches(x, r) && t < x.threads && Role(Move(t, ch), x.writers, x.readers)
    ensures r' == Step(r, t, ch) && Reaches(x, r')
  {
    var init := Init(x.size, x.threads, 0);
    var moves :| Roles(moves, x.writers, x.readers) && Exec(init, moves) == r;
    r' := Step(r, t, ch);
    var more := moves + [Move(t, ch)];
    assert more[..|more| - 1] == moves;
    assert Roles(more, x.writers, x.readers) && Exec(init, more) == r';
  }

  /** The cell after cell `i`. */
  function After(i: nat, size: nat): (j: nat)
    requires i < size
    ensures j == (i + 1) % size
  {
    if i + 1 < size then i + 1 else 0
  }

  /** From `r` to `r'` publication number `|r.log.published|` went into cell `i`. */
  ghost predicate PutIn(r: Ring<int>, r': Ring<int>, i: nat)
    requires Shape(r) && i < |r.status|
  {
    && Shape(r') && r'.status == r.status[i := DataValid] && r'.log.tag == r.log.tag[i := |r.log.published|]
    && r'.writeIndex == After(i, |r.status|) && r'.readIndex == r.readIndex && r'.log.claims == r.log.claims
    && |r'.log.published| == |r.log.published| + 1 && (Numbered(r) ==> Numbered(r'))
  }

  /** From `r` to `r'` thread `c` claimed what cell `i` carried and freed the cell. */
  ghost predicate GotFrom(r: Ring<int>, r': Ring<int>, i: nat, c: nat)
    requires Shape(r) && i < |r.status|
  {
    && Shape(r') && r'.status == r.status[i := NoData] && r'.log.tag == r.log.tag
    && r'.readIndex == After(i, |r.status|) && r'.writeIndex == r.writeIndex
    && r'.log.claims == r.log.claims + [Claim(r.log.tag[i], c)]
    && |r'.log.published| == |r.log.published| && (Numbered(r) ==> Numbered(r'))
  }

  /** Every publication carries its own number. */
  ghost predicate Numbered(r: Ring<int>) {
    forall k :: 0 <= k < |r.log.published| ==> r.log.published[k].value == k
  }

  lemma WinCell(x: Cast, r: Ring<int>, t: nat, i: nat) returns (r': Ring<int>)
    requires Reaches(x, r) && t < x.threads && i < x.size && r.pcs[t] == WriteFree(i) && r.status[i] == NoData
    ensures Reaches(x, r')
    ensures r' == r.(status := r.status[i := DataWriting], pcs := r.pcs[t := WriteClaimed(i)],
                     log := r.log.(owner := r.log.owner[i := t]))
  {
    r' := Go(x, r, t, Finish);
  }

  lemma MoveWriteIndex(x: Cast, r: Ring<int>, t: nat, i: nat) returns (r': Ring<int>)
    requires Reaches(x, r) && t < x.threads && i < x.size && r.pcs[t] == WriteClaimed(i)
    ensures Reaches(x, r') && r' == r.(writeIndex := After(i, x.size), pcs := r.pcs[t := WriteHolding(i, r.data[i])])
  {
    r' := Go(x, r, t, Finish);
  }

  lemma StoreValue(x: Cast, r: Ring<int>, t: nat, i: nat, v: int) returns (r': Ring<int>)
    requires Reaches(x, r) && t < x.threads && i < x.size && r.pcs[t].WriteHolding? && r.pcs[t].slot == i
    ensures Reaches(x, r') && r' == r.(data := r.data[i := v], pcs := r.pcs[t := WriteHolding(i, v)])
  {
    r' := Go(x, r, t, Store(v));
  }

  lemma Publish(x: Cast, r: Ring<int>, t: nat, i: nat, v: int) returns (r': Ring<int>)
    requires Reaches(x, r) && t < x.threads && i < x.size && r.pcs[t] == WriteHolding(i, v)
    ensures Reaches(x, r')
    ensures r' == r.(pcs := r.pcs[t := Idle], status := r.status[i := DataValid],
                     log := r.log.(published := r.log.published + [Publication(v, i, None)],
                                   tag := r.log.tag[i := |r.log.published|]))
  {
    r' := Go(x, r, t, Finish);
  }

  /** A writer that found cell `i` free while nobody else moves puts the next number there, and
      moves `writeIndex_` to just behind that cell, wherever it was by then. */
  lemma FinishWrite(x: Cast, r: Ring<int>, t: nat, i: nat) returns (r': Ring<int>)
    requires Reaches(x, r) && t < x.threads && i < x.size && r.pcs[t] == WriteFree(i) && r.status[i] == NoData
    ensures Reaches(x, r') && r'.pcs == r.pcs[t := Idle] && PutIn(r, r', i)
  {
    var number := |r.log.published|;
    r' := WinCell(x, r, t, i);
    r' := MoveWriteIndex(x, r', t, i);
    r' := StoreValue(x, r', t, i, number);
    r' := Publish(x, r', t, i, number);
  }

  /** A write begun, up to the load of the index. */
  lemma LoadWriteIndex(x: Cast, r: Ring<int>, t: nat) returns (r': Ring<int>)
    requires Reaches(x, r) && t < x.threads && t in x.writers && r.pcs[t].Idle?
    ensures Reaches(x, r') && r' == r.(pcs := r.pcs[t := WriteLoaded(r.writeIndex)])
  {
    r' := Go(x, r, t, CallWrite);
    r' := Go(x, r', t, Finish);
    assert r'.pcs == r.pcs[t := WriteLoaded(r.writeIndex)];
  }

  lemma FindFree(x: Cast, r: Ring<int>, t: nat, i: nat) returns (r': Ring<int>)
    requires Reaches(x, r) && t < x.threads && i < x.size && r.pcs[t] == WriteLoaded(i) && r.status[i] == NoData
    ensures Reaches(x, r') && r' == r.(pcs := r.pcs[t := WriteFree(i)])
  {
    r' := Go(x, r, t, Finish);
  }

  /** A whole undisturbed write. */
  lemma WriteAlone(x: Cast, r: Ring<int>, t: nat) returns (r': Ring<int>)
    requires Reaches(x, r) && t < x.threads && t in x.writers && r.pcs[t].Idle? && r.status[r.writeIndex] == NoData
    ensures Reaches(x, r') && r'.pcs == r.pcs && PutIn(r, r', r.writeIndex)
  {
    var i := r.writeIndex;
    r' := LoadWriteIndex(x, r, t);
    r' := FindFree(x, r', t, i);
    r' := FinishWrite(x, r', t, i);
    assert r'.pcs == r.pcs;
  }

  lemma ClaimCell(x: Cast, r: Ring<int>, t: nat, i: nat) returns (r': Ring<int>)
    requires Reaches(x, r) && t < x.threads && i < x.size && r.pcs[t] == ReadReady(i) && r.status[i] == DataValid
    ensures Reaches(x, r')
    ensures r' == r.(status := r.status[i := DataReading], pcs := r.pcs[t := ReadClaimed(i)],
                     log := LogClaim(r.log, i, t))
  {
    r' := Go(x, r, t, Finish);
  }

  lemma MoveReadIndex(x: Cast, r: Ring<int>, t: nat, i: nat) returns (r': Ring<int>)
    requires Reaches(x, r) && t < x.threads && i < x.size && r.pcs[t] == ReadClaimed(i)
    ensures Reaches(x, r') && r' == r.(readIndex := After(i, x.size), pcs := r.pcs[t := ReadHolding(i)])
  {
    r' := Go(x, r, t, Finish);
  }

  lemma FreeCell(x: Cast, r: Ring<int>, t: nat, i: nat) returns (r': Ring<int>)
    requires Reaches(x, r) && t < x.threads && i < x.size && r.pcs[t] == ReadHolding(i)
    ensures Reaches(x, r')
    ensures r' == r.(status := r.status[i := NoData], pcs := r.pcs[t := Idle],
                     log := r.log.(done := r.log.done + 1))
  {
    r' := Go(x, r, t, Finish);
  }

  /** A reader that found cell `i` full claims what is there when it gets on, however long ago that was. */
  lemma FinishRead(x: Cast, r: Ring<int>, t: nat, i: nat) returns (r': Ring<int>)
    requires Reaches(x, r) && t < x.threads && i < x.size && r.pcs[t] == ReadReady(i) && r.status[i] == DataValid
    requires r.log.tag[i] < |r.log.published|
    ensures Reaches(x, r') && r'.pcs == r.pcs[t := Idle] && GotFrom(r, r', i, t)
  {
    r' := ClaimCell(x, r, t, i);
    r' := MoveReadIndex(x, r', t, i);
    r' := FreeCell(x, r', t, i);
  }

  lemma LoadReadIndex(x: Cast, r: Ring<int>, t: nat) returns (r': Ring<int>)
    requires Reaches(x, r) && t < x.threads && t in x.readers && r.pcs[t].Idle?
    ensures Reaches(x, r') && r' == r.(pcs := r.pcs[t := ReadLoaded(r.readIndex)])
  {
    r' := Go(x, r, t, CallRead);
    r' := Go(x, r', t, Finish);
    assert r'.pcs == r.pcs[t := ReadLoaded(r.readIndex)];
  }

  /** A read begun, up to the cell found full. */
  lemma FindFull(x: Cast, r: Ring<int>, t: nat) returns (r': Ring<int>)
    requires Reaches(x, r) && t < x.threads && t in x.readers && r.pcs[t].Idle? && r.status[r.readIndex] == DataValid
    ensures Reaches(x, r') && r' == r.(pcs := r.pcs[t := ReadReady(r.readIndex)])
  {
    r' := LoadReadIndex(x, r, t);
    r' := Go(x, r', t, Finish);
    assert r'.pcs == r.pcs[t := ReadReady(r.readIndex)];
  }

  /** A whole undisturbed read. */
  lemma ReadAlone(x: Cast, r: Ring<int>, t: nat) returns (r': Ring<int>)
    requires Reaches(x, r) && t < x.threads && t in x.readers && r.pcs[t].Idle? && r.status[r.readIndex] == DataValid
    requires r.log.tag[r.readIndex] < |r.log.published|
    ensures Reaches(x, r') && r'.pcs == r.pcs && GotFrom(r, r', r.readIndex, t)
  {
    var i := r.readIndex;
    r' := FindFull(x, r, t);
    r' := FinishRead(x, r', t, i);
    assert r'.pcs == r.pcs;
  }

  // ---------------------------------------------------------------- two writers, or two readers

  lemma FifoAt<T>(r: Ring<T>, j: nat)
    requires FirstInFirstOut(r) && j < |r.log.claims|
    ensures j < |r.log.published|
    ensures r.log.published[r.log.claims[j].index].value == r.log.published[j].value
  {
    assert Taken(r.log)[j] == Put(r.log)[j];
  }

  lemma NotFifo(r: Ring<int>)
    requires Numbered(r) && |r.log.claims| >= 2 && 2 <= r.log.claims[1].index < |r.log.published|
    ensures !FirstInFirstOut(r)
  {
    if FirstInFirstOut(r) { FifoAt(r, 1); }
  }

  /** `s` loads index 0 and stalls; `w` writes 0 there and `c` reads it. */
  lemma StallAndRead(x: Cast, s: nat, w: nat, c: nat) returns (r: Ring<int>)
    requires x.size >= 2 && s < x.threads && w < x.threads && c < x.threads && s != w && s != c
    requires s in x.writers && w in x.writers && c in x.readers
    ensures Reaches(x, r) && r.pcs == Init(x.size, x.threads, 0).pcs[s := WriteLoaded(0)]
    ensures r.status[0] == r.status[1] == NoData && r.readIndex == 1
    ensures Numbered(r) && |r.log.published| == |r.log.claims| == 1
  {
    Begin(x);
    r := Init(x.size, x.threads, 0);
    r := LoadWriteIndex(x, r, s);
    r := WriteAlone(x, r, w);
    r := ReadAlone(x, r, c);
  }

  /** Then `s` writes 1 in the same cell, where no reader looks before the next lap. */
  lemma WriteBehind(x: Cast, r: Ring<int>, s: nat) returns (r': Ring<int>)
    requires x.size >= 2 && s < x.threads && Reaches(x, r) && r.pcs[s] == WriteLoaded(0)
    requires r.status[0] == r.status[1] == NoData && Numbered(r) && |r.log.published| == |r.log.claims| == 1
    ensures Reaches(x, r') && r'.pcs == r.pcs[s := Idle] && r'.writeIndex == 1 && r'.readIndex == r.readIndex
    ensures r'.status[1] == NoData && Numbered(r') && |r'.log.published| == 2 && |r'.log.claims| == 1
  {
    r' := FindFree(x, r, s, 0);
    r' := FinishWrite(x, r', s, 0);
  }

  /** While 1 waits there, `w` writes 2 in the next cell, and `c` reads it. */
  lemma TwoWritersLoseOrder(x: Cast, s: nat, w: nat, c: nat) returns (r: Ring<int>)
    requires x.size >= 2 && s < x.threads && w < x.threads && c < x.threads && s != w && s != c
    requires s in x.writers && w in x.writers && c in x.readers
    ensures Reaches(x, r) && !FirstInFirstOut(r)
  {
    r := StallAndRead(x, s, w, c);
    r := WriteBehind(x, r, s);
    r := WriteAlone(x, r, w);
    r := ReadAlone(x, r, c);
    NotFifo(r);
  }

  /** `w` fills the rest of a lap. */
  lemma {:induction false} FillLap(x: Cast, r: Ring<int>, w: nat, i: nat) returns (r': Ring<int>)
    requires Reaches(x, r) && w < x.threads && w in x.writers && r.pcs[w].Idle?
    requires r.writeIndex == i == |r.log.published| && 0 < i < x.size && r.status[0] == NoData && Numbered(r)
    requires forall k :: i <= k < x.size ==> r.status[k] == NoData
    ensures Reaches(x, r') && r'.pcs == r.pcs && r'.writeIndex == 0 && |r'.log.published| == x.size && Numbered(r')
    ensures r'.status[0] == NoData && r'.log.claims == r.log.claims
    decreases x.size - i
  {
    r' := WriteAlone(x, r, w);
    if i + 1 < x.size { r' := FillLap(x, r', w, i + 1); }
  }

  /** `s` finds 0 in its cell and stalls; `c` reads 0, and `w` writes on for a lap and once more in
      that cell; then `s` claims what is there, ahead of the rest of the lap. */
  lemma TwoReadersLoseOrder(x: Cast, w: nat, s: nat, c: nat) returns (r: Ring<int>)
    requires x.size >= 2 && s < x.threads && w < x.threads && c < x.threads && s != w && s != c
    requires w in x.writers && s in x.readers && c in x.readers
    ensures Reaches(x, r) && !FirstInFirstOut(r)
  {
    Begin(x);
    r := Init(x.size, x.threads, 0);
    r := WriteAlone(x, r, w);
    r := FindFull(x, r, s);
    r := ReadAlone(x, r, c);
    r := FillLap(x, r, w, 1);
    r := WriteAlone(x, r, w);
    r := FinishRead(x, r, s, 0);
    NotFifo(r);
  }

  // ---------------------------------------------------------------- exactly when order is kept

  ghost predicate AlwaysFifo(x: Cast)
    requires x.size > 0
  {
    forall moves: seq<Move<int>> ::
      Roles(moves, x.writers, x.readers) ==> FirstInFirstOut(Exec(Init(x.size, x.threads, 0), moves))
  }

  predicate KeepsOrder(x: Cast) {
    x.size == 1 || x.writers == {} || x.readers == {} || (|x.writers| == 1 && |x.readers| == 1)
  }

  lemma TwoOf(a: set<nat>, other: nat) returns (s: nat, t: nat)
    requires |a| >= 2
    ensures s in a && t in a && s != t && s != other
  {
    var one :| one in a;
    assert |a - {one}| >= 1;
    var two :| two in a - {one};
    if one == other { s, t := two, one; } else { s, t := one, two; }
  }

  lemma OneOf(a: set<nat>, only: nat)
    requires |a| == 1 && only in a
    ensures a == {only}
  {
    assert |a - {only}| == 0;
  }

  lemma OrderIsKept<T>(x: Cast, fill: T, moves: seq<Move<T>>)
    requires x.size > 0 && Roles(moves, x.writers, x.readers) && KeepsOrder(x)
    requires forall t :: t in x.writers || t in x.readers ==> t < x.threads
    ensures FirstInFirstOut(Exec(Init(x.size, x.threads, fill), moves))
  {
    var init := Init(x.size, x.threads, fill);
    var r := Exec(init, moves);
    if x.writers == {} {
      ExecWithoutWriters(init, moves, x.readers);
    } else if x.readers == {} {
      ExecWithoutReaders(init, moves, x.writers);
    } else if x.size == 1 {
      ExecOneAtATime(init, moves);
      InOrderIsFifo(r);
    } else {
      var w :| w in x.writers;
      var c :| c in x.readers;
      OneOf(x.writers, w);
      OneOf(x.readers, c);
      OneWriterOneReaderIsFifo(x.size, x.threads, w, c, fill, moves);
    }
  }

  lemma ReachedIsPlayed(x: Cast, r: Ring<int>)
    requires x.size > 0 && Reaches(x, r) && AlwaysFifo(x)
    ensures FirstInFirstOut(r)
  {
    var moves :| Roles(moves, x.writers, x.readers) && Exec(Init(x.size, x.threads, 0), moves) == r;
  }

  lemma OrderIsLost(x: Cast)
    requires x.size > 0 && !KeepsOrder(x)
    requires forall t :: t in x.writers || t in x.readers ==> t < x.threads
    ensures !AlwaysFifo(x)
  {
    var r: Ring<int>;
    if |x.writers| >= 2 {
      var c :| c in x.readers;
      var s, w := TwoOf(x.writers, c);
      r := TwoWritersLoseOrder(x, s, w, c);
    } else {
      var w :| w in x.writers;
      var s, c := TwoOf(x.readers, w);
      r := TwoReadersLoseOrder(x, w, s, c);
    }
    if AlwaysFifo(x) { ReachedIsPlayed(x, r); }
  }

  /** Whatever the schedule, readers get what was written in the order it was written, if and only if
      the ring has one cell, or nobody writes or nobody reads, or one thread writes and one reads. */
  lemma FifoIffOneOfEach(x: Cast)
    requires x.size > 0 && forall t :: t in x.writers || t in x.readers ==> t < x.threads
    ensures AlwaysFifo(x) <==> KeepsOrder(x)
  {
    if KeepsOrder(x) {
      forall moves: seq<Move<int>> | Roles(moves, x.writers, x.readers)
        ensures FirstInFirstOut(Exec(Init(x.size, x.threads, 0), moves))
      {
        OrderIsKept(x, 0, moves);
      }
    } else {
      OrderIsLost(x);
    }
  }
}
