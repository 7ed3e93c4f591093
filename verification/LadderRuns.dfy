/** Whole runs of a price ladder: any updates and clearings, none left out. */
module LadderRuns {
  import opened Common
  import opened Ladder

  // ---------------------------------------------------------------- one update and the volumes

  /** A ladder that has no window holds nothing. */
  predicate Settled(b: Book) { Shape(b) && (b.start.None? ==> Empty(b.cells)) }

  /** The number of levels a bid at `t` would turn over. */
  function Below(b: Book, t: int): (k: nat)
    requires Shape(b) && t < StartFor(b, t, 1)
    ensures 0 < k <= b.size
  {
    Min(StartFor(b, t, 1) - t, b.size)
  }

  /** The update turns occupied top levels over into the bottom of the window. */
  predicate Turns(test: Test, side: Side, b: Book, t: int)
    requires Shape(b)
  {
    test.AsWritten? && side.Bid? && t < StartFor(b, t, 1) && Occupied(b.cells[b.size - Below(b, t)..])
  }

  /** `b'` shows `v` at `t`, the other prices of its window as they were, and lost occupied levels
      only on the side away from the best. */
  predicate Follows(side: Side, b: Book, b': Book, t: int, v: nat, x: int)
    requires Shape(b) && Shape(b')
  {
    && InWindow(b', t)
    && Volume(b', x) == (if x == t then v else if InWindow(b', x) then Volume(b, x) else 0)
    && (Volume(b, x) > 0 && !InWindow(b', x) ==>
          if side.Bid? then x < b'.start.value else x >= b'.start.value + b'.size)
  }

  lemma BidUpFollows(b: Book, t: int, v: nat, x: int)
    requires Shape(b) && b.start.Some? && t >= b.start.value + b.size
    ensures Follows(Bid, b, BidSlideUp(b, b.start.value, t, v, 1), t, v, x)
  {
    var k := t - b.start.value - b.size + 1;
    var b' := BidSlideUp(b, b.start.value, t, v, 1);
    if k < b.size && InWindow(b', x) && x != t {
      assert b'.cells[x - b'.start.value] == (b.cells[k..] + Zeros(k))[x - b'.start.value];
    }
  }

  lemma AskDownFollows(b: Book, t: int, v: nat, x: int)
    requires Shape(b) && b.start.Some? && t < b.start.value
    ensures Follows(Ask, b, AskSlideDown(b, b.start.value, t, v, 1), t, v, x)
  {
    var k := b.start.value - t;
    var b' := AskSlideDown(b, b.start.value, t, v, 1);
    if k < b.size && InWindow(b', x) && x != t {
      assert b'.cells[x - b'.start.value] == (Zeros(k) + b.cells[..b.size - k])[x - b'.start.value];
    }
  }

  lemma AskUpFollows(b: Book, t: int, v: nat, x: int)
    requires Shape(b) && b.start.Some? && t >= b.start.value + b.size && AskSlideUp(b, b.start.value, t, v, 1).Some?
    ensures Follows(Ask, b, AskSlideUp(b, b.start.value, t, v, 1).value, t, v, x)
  {
    var k := Min(t - b.start.value - b.size + 1, b.size);
    var b' := AskSlideUp(b, b.start.value, t, v, 1).value;
    assert forall i :: 0 <= i < k ==> b.cells[i] == b.cells[..k][i];
    if k < b.size && InWindow(b', x) && x != t {
      assert b'.cells[x - b'.start.value] == (b.cells[k..] + b.cells[..k])[x - b'.start.value];
    }
  }

  /** Turned over empty levels, a bid ladder loses nothing and gains only `t`. */
  lemma BidTurnedFollows(b: Book, t: int, v: nat, x: int)
    requires Shape(b) && b.start.Some? && t < b.start.value && Empty(b.cells[b.size - Below(b, t)..])
    ensures Follows(Bid, b, BidTurned(b, b.start.value, t, v, 1), t, v, x)
  {
    var k := Below(b, t);
    var top, b' := b.cells[b.size - k..], BidTurned(b, b.start.value, t, v, 1);
    assert forall i :: b.size - k <= i < b.size ==> b.cells[i] == top[i - (b.size - k)];
    if k < b.size && InWindow(b', x) && x != t {
      assert b'.cells[x - b'.start.value] == (top + b.cells[..b.size - k])[x - b'.start.value];
    }
  }

  lemma WrittenFollows(side: Side, b: Book, t: int, v: nat, x: int)
    requires Settled(b) && !Turns(AsWritten, side, b, t) && Place(side, b, t, v, 1).Some?
    ensures Follows(side, b, Place(side, b, t, v, 1).value, t, v, x)
  {
    var d := t - StartFor(b, t, 1);
    if d < 0 {
      AskDownFollows(b, t, v, x);
    } else if d >= b.size {
      if side.Bid? { BidUpFollows(b, t, v, x); } else { AskUpFollows(b, t, v, x); }
    }
  }

  /** What an accepted update leaves in the window, before the best is looked at. */
  lemma CellsOf(test: Test, side: Side, b: Book, t: int, v: nat)
    requires Shape(b) && Apply(test, side, b, t, v, 1).1.Successful?
    ensures var b' := Apply(test, side, b, t, v, 1).0;
            && b'.start.Some?
            && (if test.AsForAsks? && side.Bid? && t < StartFor(b, t, 1) then
                  Volumes(b', BidTurned(b, StartFor(b, t, 1), t, v, 1))
                else
                  Place(side, b, t, v, 1).Some? && Volumes(b', Place(side, b, t, v, 1).value))
  {
  }

  predicate Volumes(b: Book, b': Book) { b.size == b'.size && b.start == b'.start && b.cells == b'.cells }

  lemma RefusedKeeps(test: Test, side: Side, b: Book, t: int, v: nat, x: int)
    requires Settled(b) && Apply(test, side, b, t, v, 1).1.OutOfRange?
    ensures Volume(Apply(test, side, b, t, v, 1).0, x) == Volume(b, x)
  {
  }

  lemma SameVolumes(side: Side, b: Book, p: Book, q: Book, t: int, v: nat, x: int)
    requires Shape(b) && Shape(p) && Shape(q) && Volumes(p, q) && Follows(side, b, q, t, v, x)
    ensures Follows(side, b, p, t, v, x)
  {
  }

  lemma AcceptedFollows(test: Test, side: Side, b: Book, t: int, v: nat, x: int)
    requires Settled(b) && !Turns(test, side, b, t) && Apply(test, side, b, t, v, 1).1.Successful?
    ensures Follows(side, b, Apply(test, side, b, t, v, 1).0, t, v, x)
  {
    var b' := Apply(test, side, b, t, v, 1).0;
    CellsOf(test, side, b, t, v);
    if test.AsForAsks? && side.Bid? && t < StartFor(b, t, 1) {
      BidTurnedFollows(b, t, v, x);
      SameVolumes(side, b, b', BidTurned(b, StartFor(b, t, 1), t, v, 1), t, v, x);
    } else {
      WrittenFollows(side, b, t, v, x);
      SameVolumes(side, b, b', Place(side, b, t, v, 1).value, t, v, x);
    }
  }

  /** An accepted update puts its volume at its price and leaves every other price in the new
      window as it was; a price that comes in or falls out holds nothing; only levels on the far
      side of the best fall out occupied.  A refused update changes no volume.  All this whatever
      the cached best is, unless the update turns a bid ladder over. */
  lemma VolumesFollow(test: Test, side: Side, b: Book, t: int, v: nat, x: int)
    requires Settled(b) && !Turns(test, side, b, t)
    ensures var (b', status) := Apply(test, side, b, t, v, 1);
            && (status.OutOfRange? ==> Volume(b', x) == Volume(b, x))
            && (status.Successful? ==> Follows(side, b, b', t, v, x))
  {
    if Apply(test, side, b, t, v, 1).1.Successful? {
      AcceptedFollows(test, side, b, t, v, x);
    } else {
      RefusedKeeps(test, side, b, t, v, x);
    }
  }

  /** A ladder turned over a single level overwrites the only price that wraps. */
  lemma TurnByOneFollows(b: Book, t: int, v: nat, x: int)
    requires Settled(b) && Turns(AsWritten, Bid, b, t) && Below(b, t) == 1
    ensures var b' := BidTurned(b, StartFor(b, t, 1), t, v, 1);
            InWindow(b', t) && Volume(b', x) == (if x == t then v else if InWindow(b', x) then Volume(b, x) else 0)
  {
    var b' := BidTurned(b, b.start.value, t, v, 1);
    if b.size > 1 && InWindow(b', x) && x != t {
      assert b'.cells[x - b'.start.value] == (b.cells[b.size - 1..] + b.cells[..b.size - 1])[x - b'.start.value];
    }
  }

  /** Turned over more levels, some price that was below the window reads a volume never put there. */
  lemma TurnByMoreMisreads(b: Book, t: int, v: nat) returns (x: int)
    requires Settled(b) && Turns(AsWritten, Bid, b, t) && Below(b, t) > 1
    ensures var b' := BidTurned(b, StartFor(b, t, 1), t, v, 1);
            InWindow(b', x) && x != t && !InWindow(b, x) && Volume(b', x) > 0
  {
    var k := Below(b, t);
    var top, b' := b.cells[b.size - k..], BidTurned(b, b.start.value, t, v, 1);
    if k < b.size {
      x := t + 1;
      assert b'.cells[1] == top[1];
    } else {
      x := b'.start.value;
      assert b'.cells[0] == top[0];
    }
  }

  // ---------------------------------------------------------------- runs

  datatype Event = Put(t: int, v: nat) | Wipe

  /** What was accepted, with the window's first tick afterwards. */
  datatype Entry = Accepted(t: int, v: nat, start: int) | Wiped

  datatype Run = Run(book: Book, history: seq<Entry>)

  /** How a ladder is set up: its side, its number of levels, its units, and the bids' test. */
  datatype Setup = Setup(test: Test, side: Side, size: nat, scale: nat)

  lemma AcceptedHasStart(s: Setup, b: Book, t: int, v: nat)
    requires Shape(b)
    ensures Apply(s.test, s.side, b, t, v, s.scale).0.start.Some?
  {
  }

  function Next(s: Setup, r: Run, ev: Event): (r': Run)
    requires Shape(r.book) && r.book.size == s.size
    ensures Shape(r'.book) && r'.book.size == s.size
  {
    match ev
    case Wipe => Run(Clear(r.book), r.history + [Wiped])
    case Put(t, v) =>
      var (b', status) := Apply(s.test, s.side, r.book, t, v, s.scale);
      AcceptedHasStart(s, r.book, t, v);
      Run(b', if status.OutOfRange? then r.history else r.history + [Accepted(t, v, b'.start.value)])
  }

  function Exec(s: Setup, events: seq<Event>): (r: Run)
    requires s.size > 0
    ensures Shape(r.book) && r.book.size == s.size
  {
    if events == [] then Run(New(s.size), [])
    else Next(s, Exec(s, events[..|events| - 1]), events[|events| - 1])
  }

  /** The last volume accepted for a tick since it entered the window. */
  function LastAccepted(history: seq<Entry>, size: nat, x: int): nat {
    if history == [] then 0
    else
      match history[|history| - 1]
      case Wiped => 0
      case Accepted(t, v, start) =>
        if !(start <= x < start + size) then 0
        else if x == t then v
        else LastAccepted(history[..|history| - 1], size, x)
  }

  predicate ReadsAt(r: Run, x: int)
    requires Shape(r.book)
  {
    Volume(r.book, x) == LastAccepted(r.history, r.book.size, x)
  }

  /** Every price reads the last volume accepted for it since it entered the window. */
  ghost predicate ReadsRight(r: Run)
    requires Shape(r.book)
  {
    forall x :: ReadsAt(r, x)
  }

  /** The event turns no occupied level over but the one its own volume overwrites. */
  predicate Harmless(s: Setup, b: Book, ev: Event)
    requires Shape(b)
  {
    ev.Put? && Turns(s.test, s.side, b, ev.t) ==> Below(b, ev.t) == 1
  }

  ghost predicate SafeEvent(s: Setup, b: Book, ev: Event)
    requires Shape(b)
  {
    match ev case Put(t, v) => Safe(s.test, s.side, b, t, v) case Wipe => b.best.None?
  }

  lemma {:induction false} ExecSettled(s: Setup, events: seq<Event>)
    requires s.size > 0
    ensures Settled(Exec(s, events).book)
    decreases |events|
  {
    if events != [] {
      ExecSettled(s, events[..|events| - 1]);
      var b, ev := Exec(s, events[..|events| - 1]).book, events[|events| - 1];
      if ev.Put? { AcceptedHasStart(s, b, ev.t, ev.v); }
    }
  }

  /** What was accepted last, in front of what was accepted before. */
  lemma LastFirst(history: seq<Entry>, e: Entry, size: nat, x: int)
    ensures LastAccepted(history + [e], size, x) ==
              match e
              case Wiped => 0
              case Accepted(t, v, start) =>
                if !(start <= x < start + size) then 0 else if x == t then v else LastAccepted(history, size, x)
  {
    assert (history + [e])[..|history + [e]| - 1] == history;
  }

  lemma HarmlessReads(s: Setup, r: Run, ev: Event, x: int)
    requires s.scale == 1 && r.book.size == s.size && Settled(r.book) && ReadsAt(r, x) && Harmless(s, r.book, ev)
    ensures ReadsAt(Next(s, r, ev), x)
  {
    match ev
    case Wipe => LastFirst(r.history, Wiped, s.size, x);
    case Put(t, v) =>
      var (b', status) := Apply(s.test, s.side, r.book, t, v, 1);
      if status.Successful? {
        CellsOf(s.test, s.side, r.book, t, v);
        LastFirst(r.history, Accepted(t, v, b'.start.value), s.size, x);
        if Turns(s.test, s.side, r.book, t) {
          TurnByOneFollows(r.book, t, v, x);
        } else {
          VolumesFollow(s.test, s.side, r.book, t, v, x);
        }
      } else {
        VolumesFollow(s.test, s.side, r.book, t, v, x);
      }
  }

  lemma HarmfulMisreads(s: Setup, r: Run, ev: Event)
    requires s.scale == 1 && r.book.size == s.size && Settled(r.book) && ReadsRight(r) && !Harmless(s, r.book, ev)
    ensures !ReadsRight(Next(s, r, ev))
  {
    var (b', status) := Apply(s.test, s.side, r.book, ev.t, ev.v, 1);
    CellsOf(s.test, s.side, r.book, ev.t, ev.v);
    var x := TurnByMoreMisreads(r.book, ev.t, ev.v);
    LastFirst(r.history, Accepted(ev.t, ev.v, b'.start.value), s.size, x);
    assert ReadsAt(r, x) && !ReadsAt(Next(s, r, ev), x);
  }

  lemma NextOfOneUnit(s: Setup, r: Run, ev: Event)
    requires r.book.size == s.size && Shape(r.book) && OneUnit(s.size, s.scale)
    ensures Next(s, r, ev) == Next(s.(scale := 1), r, ev)
  {
    if ev.Put? { UnitDoesNotMatter(s.test, s.side, r.book, ev.t, ev.v, s.scale); }
  }

  lemma StepReads(s: Setup, r: Run, ev: Event)
    requires s.scale == 1 && r.book.size == s.size && Settled(r.book) && ReadsRight(r) && Harmless(s, r.book, ev)
    ensures ReadsRight(Next(s, r, ev))
  {
    var r' := Next(s, r, ev);
    forall x ensures ReadsAt(r', x) {
      assert ReadsAt(r, x);
      HarmlessReads(s, r, ev, x);
    }
  }

  lemma NextReadsIffHarmless(s: Setup, r: Run, ev: Event)
    requires r.book.size == s.size && OneUnit(s.size, s.scale) && Settled(r.book) && ReadsRight(r)
    ensures ReadsRight(Next(s, r, ev)) <==> Harmless(s, r.book, ev)
  {
    NextOfOneUnit(s, r, ev);
    if Harmless(s, r.book, ev) {
      StepReads(s.(scale := 1), r, ev);
    } else {
      HarmfulMisreads(s.(scale := 1), r, ev);
    }
  }

  lemma NextGoodIffSafe(s: Setup, r: Run, ev: Event)
    requires r.book.size == s.size && OneUnit(s.size, s.scale) && Good(s.side, r.book)
    ensures Good(s.side, Next(s, r, ev).book) <==> SafeEvent(s, r.book, ev)
  {
    match ev
    case Wipe => ClearKeepsBestIffNone(s.side, r.book);
    case Put(t, v) => UpdateKeepsBestIffSafe(s.test, s.side, r.book, t, v, s.scale);
  }

  /** Every price reads right now, and did after every earlier event. */
  ghost predicate AlwaysReads(s: Setup, events: seq<Event>)
    requires s.size > 0
  {
    ReadsRight(Exec(s, events)) && (events != [] ==> AlwaysReads(s, events[..|events| - 1]))
  }

  ghost predicate AlwaysHarmless(s: Setup, events: seq<Event>)
    requires s.size > 0
  {
    events != [] ==>
      && AlwaysHarmless(s, events[..|events| - 1])
      && Harmless(s, Exec(s, events[..|events| - 1]).book, events[|events| - 1])
  }

  /** The cached best is right now, and was after every earlier event. */
  ghost predicate AlwaysGood(s: Setup, events: seq<Event>)
    requires s.size > 0
  {
    Good(s.side, Exec(s, events).book) && (events != [] ==> AlwaysGood(s, events[..|events| - 1]))
  }

  ghost predicate AlwaysSafe(s: Setup, events: seq<Event>)
    requires s.size > 0
  {
    events != [] ==>
      && AlwaysSafe(s, events[..|events| - 1])
      && SafeEvent(s, Exec(s, events[..|events| - 1]).book, events[|events| - 1])
  }

  /** In every run, of whatever puts and clearings, every price reads at every moment what was last
      accepted for it, if and only if no put turned more than one bid level over. */
  lemma {:induction false} RunReadsRightIffHarmless(s: Setup, events: seq<Event>)
    requires s.size > 0 && OneUnit(s.size, s.scale)
    ensures AlwaysReads(s, events) <==> AlwaysHarmless(s, events)
    decreases |events|
  {
    if events != [] {
      var before, ev := events[..|events| - 1], events[|events| - 1];
      RunReadsRightIffHarmless(s, before);
      ExecSettled(s, before);
      if AlwaysReads(s, before) { NextReadsIffHarmless(s, Exec(s, before), ev); }
    }
  }

  /** Asks, and bids that slide down under the asks' test, read right in every run. */
  lemma {:induction false} NothingTurnedReadsRight(s: Setup, events: seq<Event>)
    requires s.size > 0 && OneUnit(s.size, s.scale) && (s.side.Ask? || s.test.AsForAsks?)
    ensures ReadsRight(Exec(s, events))
    decreases |events|
  {
    if events != [] {
      var before, ev := events[..|events| - 1], events[|events| - 1];
      NothingTurnedReadsRight(s, before);
      ExecSettled(s, before);
      NextReadsIffHarmless(s, Exec(s, before), ev);
    }
  }

  /** In every run, the cached best is right at every moment if and only if every event was safe. */
  lemma {:induction false} RunKeepsBestIffSafe(s: Setup, events: seq<Event>)
    requires s.size > 0 && OneUnit(s.size, s.scale)
    ensures AlwaysGood(s, events) <==> AlwaysSafe(s, events)
    decreases |events|
  {
    if events != [] {
      var before, ev := events[..|events| - 1], events[|events| - 1];
      RunKeepsBestIffSafe(s, before);
      if AlwaysGood(s, before) { NextGoodIffSafe(s, Exec(s, before), ev); }
    }
  }

  lemma Appended(s: Setup, events: seq<Event>, ev: Event)
    requires s.size > 0
    ensures Exec(s, events + [ev]) == Next(s, Exec(s, events), ev)
  {
    assert (events + [ev])[..|events + [ev]| - 1] == events;
  }

  lemma FirstPut(s: Setup, t: int, v: nat) returns (j: nat)
    requires s.size > 0 && s.scale > 0 && v > 0
    ensures var (b', status) := Apply(s.test, s.side, New(s.size), t, v, s.scale);
            && status.Successful? && b'.start.Some? && b'.best == Some(t)
            && j < s.size && b'.cells[j] == v
  {
    var d := s.size / 2 * s.scale;
    assert d >= 0;
    j := if d < s.size then d else if d - s.size + 1 < s.size then s.size - 1 else s.size / 2;
  }

  /** With a window placed in other units than the levels, the first volume put in a ladder of
      several levels is already read at a wrong price, and its best is not right. */
  lemma WrongUnitFailsAtOnce(s: Setup, t: int, v: nat)
    requires s.size > 0 && s.size % 2 == 0 && s.scale > 1 && v > 0
    ensures var r := Exec(s, [Put(t, v)]); !ReadsRight(r) && !Good(s.side, r.book)
  {
    Appended(s, [], Put(t, v));
    assert [] + [Put(t, v)] == [Put(t, v)];
    var r := Exec(s, [Put(t, v)]);
    var b := Apply(s.test, s.side, New(s.size), t, v, s.scale).0;
    var j := FirstPut(s, t, v);
    FirstUpdateReadsBack(s.side, s.size, t, v, s.scale);
    var x := b.start.value + j;
    LastFirst([], Accepted(t, v, b.start.value), s.size, x);
    assert !ReadsAt(r, x);
  }
}
