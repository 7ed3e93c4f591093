/** The update counter that guards a symbol's book: one writer brackets each change between
    two increments; any number of readers copy the book word by word and retry.

    One step is one increment or load of the counter, one store to a book word, or one copy
    of a word.  `history` records the whole book after each finished writer section and never
    influences a step. */
module SeqLock {

  type Book = seq<int>

  /** `entered`, `since` and `now` count the books in the history when the reader entered the loop,
      loaded the counter first and loaded it again; they never influence a step. */
  datatype Reader =
    | Away
    | Start(entered: nat)                     // at the top of the retry loop
    | Copying(entered: nat, first: nat, since: nat, copy: Book)  // updateCount1 loaded, |copy| words copied
    | Leaving(entered: nat, first: nat, since: nat, copy: Book, second: nat, now: nat)
    | Left(entered: nat, copy: Book, version: nat, now: nat)

  datatype State = State(book: Book, count: nat, readers: seq<Reader>, history: seq<Book>)

  /** A writer step opens a section, stores one word inside it, or closes it. */
  datatype Move =
    | Open
    | Write(word: nat, value: int)
    | Close
    | Enter(reader: nat)
    | Read(reader: nat)

  function Init(book: Book, readers: nat): State {
    State(book, 0, seq(readers, _ => Away), [book])
  }

  function ReaderStep(s: State, r: Reader): Reader {
    match r
    case Away => r
    case Start(entered) => Copying(entered, s.count, |s.history|, [])
    case Copying(entered, first, since, copy) =>
      if |copy| < |s.book| then Copying(entered, first, since, copy + [s.book[|copy|]])
      else Leaving(entered, first, since, copy, s.count, |s.history|)
    case Leaving(entered, first, since, copy, second, now) =>
      if first != second || second % 2 != 0 then Start(entered) else Left(entered, copy, second / 2, now)
    case Left(_, _, _, _) => r
  }

  /** A reader that is away, or has what it came for, enters the loop. */
  function EnterStep(s: State, r: Reader): Reader {
    if r.Away? || r.Left? then Start(|s.history|) else r
  }

  /** A move that the writer's place does not allow changes nothing. */
  function Step(s: State, m: Move): State {
    match m
    case Open => if s.count % 2 == 0 then s.(count := s.count + 1) else s
    case Write(w, v) => if s.count % 2 == 1 && w < |s.book| then s.(book := s.book[w := v]) else s
    case Close => if s.count % 2 == 1 then s.(count := s.count + 1, history := s.history + [s.book]) else s
    case Enter(i) => if i < |s.readers| then s.(readers := s.readers[i := EnterStep(s, s.readers[i])]) else s
    case Read(i) => if i < |s.readers| then s.(readers := s.readers[i := ReaderStep(s, s.readers[i])]) else s
  }

  function Exec(s: State, moves: seq<Move>): State
    decreases |moves|
  {
    if moves == [] then s else Step(Exec(s, moves[..|moves| - 1]), moves[|moves| - 1])
  }

  /** What a copy may still be trusted for: while the counter has not moved from an even
      first load, the words copied so far are those of the newest finished book. */
  predicate ReaderOk(s: State, r: Reader) {
    match r
    case Away => true
    case Start(entered) => entered <= |s.history|
    case Copying(entered, first, since, copy) =>
      && first <= s.count && |copy| <= |s.book| && entered <= since == first / 2 + 1
      && (first == s.count && first % 2 == 0 ==> copy == s.book[..|copy|])
    case Leaving(entered, first, since, copy, second, now) =>
      && first <= second <= s.count && |copy| == |s.book| && entered <= since == first / 2 + 1 && now == second / 2 + 1
      && (first == second && first % 2 == 0 ==> first / 2 < |s.history| && copy == s.history[first / 2])
    case Left(entered, copy, version, now) =>
      entered <= now == version + 1 && version < |s.history| && copy == s.history[version]
  }

  ghost predicate Inv(s: State) {
    && |s.history| == s.count / 2 + 1
    && (s.count % 2 == 0 ==> s.history[s.count / 2] == s.book)
    && (forall i :: 0 <= i < |s.readers| ==> ReaderOk(s, s.readers[i]))
  }

  lemma OwnStepOk(s: State, i: nat)
    requires Inv(s) && i < |s.readers|
    ensures ReaderOk(s, ReaderStep(s, s.readers[i])) && ReaderOk(s, EnterStep(s, s.readers[i]))
  {
    assert ReaderOk(s, s.readers[i]);
  }

  /** The writer only ever adds to the history, and moves the counter before it touches a word. */
  lemma WriterStepOk(s: State, m: Move, r: Reader)
    requires Inv(s) && ReaderOk(s, r) && !m.Read? && !m.Enter?
    ensures ReaderOk(Step(s, m), r)
  {
  }

  lemma OthersDoNotMatter(s: State, readers: seq<Reader>, r: Reader)
    ensures ReaderOk(s.(readers := readers), r) <==> ReaderOk(s, r)
  {
  }

  lemma StepReaderOk(s: State, m: Move, i: nat)
    requires Inv(s) && i < |s.readers|
    ensures ReaderOk(Step(s, m), Step(s, m).readers[i])
  {
    assert ReaderOk(s, s.readers[i]);
    if m.Read? || m.Enter? {
      OwnStepOk(s, i);
      OthersDoNotMatter(s, Step(s, m).readers, Step(s, m).readers[i]);
    } else {
      WriterStepOk(s, m, s.readers[i]);
    }
  }

  lemma {:induction false} ExecInv(s: State, moves: seq<Move>)
    requires Inv(s)
    ensures Inv(Exec(s, moves)) && s.history <= Exec(s, moves).history
    decreases |moves|
  {
    if moves != [] {
      ExecInv(s, moves[..|moves| - 1]);
      var before, m := Exec(s, moves[..|moves| - 1]), moves[|moves| - 1];
      var after := Step(before, m);
      forall i | 0 <= i < |after.readers| ensures ReaderOk(after, after.readers[i]) {
        StepReaderOk(before, m, i);
      }
    }
  }

  /** For every interleaving of any number of readers with any writer sections, a reader that
      leaves the loop holds, whole, the book that was the newest finished one when it loaded the
      counter for the last time; so nothing older than what was there when it entered. */
  lemma NoTornCopy(book: Book, readers: nat, moves: seq<Move>, i: nat)
    requires i < readers
    ensures var s := Exec(Init(book, readers), moves);
            && i < |s.readers|
            && (s.readers[i].Left? ==>
                  var r := s.readers[i];
                  r.entered <= r.now <= |s.history| && r.now > 0 && r.copy == s.history[r.now - 1])
  {
    ExecInv(Init(book, readers), moves);
  }

  // ---------------------------------------------------------------- a round nobody disturbs

  function Rounds(i: nat, n: nat): seq<Move> { seq(n, _ => Read(i)) }

  lemma OneMore(s: State, i: nat, n: nat)
    ensures Exec(s, Rounds(i, n + 1)) == Step(Exec(s, Rounds(i, n)), Read(i))
  {
    assert Rounds(i, n + 1)[..n] == Rounds(i, n);
  }

  lemma {:induction false} CopiesAlone(s: State, i: nat, n: nat)
    requires i < |s.readers| && s.readers[i].Start? && n <= |s.book|
    ensures var r := Copying(s.readers[i].entered, s.count, |s.history|, s.book[..n]);
            Exec(s, Rounds(i, n + 1)) == s.(readers := s.readers[i := r])
  {
    OneMore(s, i, n);
    if n == 0 {
      assert Exec(s, Rounds(i, 0)) == s;
    } else {
      CopiesAlone(s, i, n - 1);
      var r := Copying(s.readers[i].entered, s.count, |s.history|, s.book[..n - 1]);
      var before := s.(readers := s.readers[i := r]);
      assert s.book[..n - 1] + [s.book[n - 1]] == s.book[..n];
      assert Step(before, Read(i)).readers == s.readers[i := Copying(r.entered, r.first, r.since, s.book[..n])];
    }
  }

  /** Between writer sections one round is enough, and the copy is the book as it stands; inside a
      section the reader is back at the top. */
  lemma OneRoundIsEnoughIffQuiet(s: State, i: nat)
    requires Inv(s) && i < |s.readers| && s.readers[i].Start?
    ensures var s' := Exec(s, Rounds(i, |s.book| + 3));
            && i < |s'.readers|
            && if s.count % 2 == 0 then s'.readers[i].Left? && s'.readers[i].copy == s.book
               else s'.readers[i] == s.readers[i]
  {
    CopiesAlone(s, i, |s.book|);
    OneMore(s, i, |s.book| + 1);
    OneMore(s, i, |s.book| + 2);
  }

  /** A reader that enters between writer sections, and is not disturbed, leaves with the book. */
  lemma EnteringIsEnoughIfQuiet(s: State, i: nat)
    requires Inv(s) && i < |s.readers| && (s.readers[i].Away? || s.readers[i].Left?) && s.count % 2 == 0
    ensures var s' := Exec(Step(s, Enter(i)), Rounds(i, |s.book| + 3));
            && i < |s'.readers| && s'.readers[i].Left? && s'.readers[i].copy == s.book
            && s'.readers[i].entered == |s.history|
  {
    var s1 := Step(s, Enter(i));
    ExecInv(s, [Enter(i)]);
    assert [Enter(i)][..0] == [];
    OneRoundIsEnoughIffQuiet(s1, i);
    StaysEntered(s1, i, |s.book| + 3);
  }

  /** Inside the loop there is no second entry. */
  lemma EnteredOnce(s: State, i: nat)
    requires i < |s.readers| && !s.readers[i].Away? && !s.readers[i].Left?
    ensures Step(s, Enter(i)) == s
  {
    assert s.readers[i := s.readers[i]] == s.readers;
  }

  lemma {:induction false} StaysEntered(s: State, i: nat, n: nat)
    requires i < |s.readers| && s.readers[i].Start?
    ensures var s' := Exec(s, Rounds(i, n));
            && |s'.readers| == |s.readers|
            && !s'.readers[i].Away? && s'.readers[i].entered == s.readers[i].entered
  {
    if n > 0 {
      OneMore(s, i, n - 1);
      StaysEntered(s, i, n - 1);
    }
  }

  // ---------------------------------------------------------------- what the writer publishes

  /** Stores into words of the book, one after the other; there are no others. */
  function Put(book: Book, stores: seq<(nat, int)>): (b: Book)
    ensures |b| == |book|
  {
    if stores == [] then book
    else
      var b, last := Put(book, stores[..|stores| - 1]), stores[|stores| - 1];
      if last.0 < |b| then b[last.0 := last.1] else b
  }

  function Writes(stores: seq<(nat, int)>): (moves: seq<Move>)
    ensures |moves| == |stores|
  {
    seq(|stores|, j requires 0 <= j < |stores| => Write(stores[j].0, stores[j].1))
  }

  function Section(stores: seq<(nat, int)>): seq<Move> { [Open] + Writes(stores) + [Close] }

  function Sections(all: seq<seq<(nat, int)>>): seq<Move> {
    if all == [] then [] else Sections(all[..|all| - 1]) + Section(all[|all| - 1])
  }

  /** The book to begin with, and after each section. */
  function Books(book: Book, all: seq<seq<(nat, int)>>): (books: seq<Book>)
    ensures |books| == |all| + 1
  {
    if all == [] then [book]
    else
      var before := Books(book, all[..|all| - 1]);
      before + [Put(before[|before| - 1], all[|all| - 1])]
  }

  lemma {:induction false} ExecOfSum(s: State, a: seq<Move>, b: seq<Move>)
    ensures Exec(s, a + b) == Exec(Exec(s, a), b)
    decreases |b|
  {
    if b == [] {
      assert a + b == a;
    } else {
      assert (a + b)[..|a + b| - 1] == a + b[..|b| - 1];
      ExecOfSum(s, a, b[..|b| - 1]);
    }
  }

  lemma {:induction false} StoresPut(s: State, stores: seq<(nat, int)>)
    requires s.count % 2 == 1
    ensures Exec(s, Writes(stores)) == s.(book := Put(s.book, stores))
    decreases |stores|
  {
    if stores != [] {
      var n := |stores| - 1;
      assert Writes(stores)[..n] == Writes(stores[..n]);
      StoresPut(s, stores[..n]);
    }
  }

  lemma OneMove(s: State, m: Move)
    ensures Exec(s, [m]) == Step(s, m)
  {
    assert [m][..0] == [];
  }

  /** A section moves the counter by two and makes the book with all its stores the newest one. */
  lemma SectionPublishes(s: State, stores: seq<(nat, int)>)
    requires s.count % 2 == 0
    ensures var book := Put(s.book, stores);
            Exec(s, Section(stores)) == s.(book := book, count := s.count + 2, history := s.history + [book])
  {
    ExecOfSum(s, [Open] + Writes(stores), [Close]);
    ExecOfSum(s, [Open], Writes(stores));
    OneMove(s, Open);
    StoresPut(Step(s, Open), stores);
    OneMove(Exec(s, [Open] + Writes(stores)), Close);
  }

  lemma {:induction false} SectionsPublish(book: Book, readers: nat, all: seq<seq<(nat, int)>>)
    ensures var s := Exec(Init(book, readers), Sections(all));
            s.count == 2 * |all| && s.history == Books(book, all) && s.book == s.history[|all|]
    decreases |all|
  {
    if all != [] {
      var n := |all| - 1;
      SectionsPublish(book, readers, all[..n]);
      ExecOfSum(Init(book, readers), Sections(all[..n]), Section(all[n]));
      SectionPublishes(Exec(Init(book, readers), Sections(all[..n])), all[n]);
    }
  }

  /** The writer's moves among all. */
  function OfWriter(moves: seq<Move>): seq<Move> {
    if moves == [] then []
    else
      var before, m := OfWriter(moves[..|moves| - 1]), moves[|moves| - 1];
      if m.Enter? || m.Read? then before else before + [m]
  }

  predicate SameBooks(s: State, t: State) { s.book == t.book && s.count == t.count && s.history == t.history }

  lemma WriterStepAlike(s: State, t: State, m: Move)
    requires SameBooks(s, t) && !m.Enter? && !m.Read?
    ensures SameBooks(Step(s, m), Step(t, m))
  {
  }

  lemma ReaderStepLeavesBooks(s: State, m: Move)
    requires m.Enter? || m.Read?
    ensures SameBooks(Step(s, m), s)
  {
  }

  lemma {:induction false} ReadersLeaveBooks(s: State, moves: seq<Move>)
    ensures SameBooks(Exec(s, moves), Exec(s, OfWriter(moves)))
    decreases |moves|
  {
    if moves != [] {
      var before, m := moves[..|moves| - 1], moves[|moves| - 1];
      ReadersLeaveBooks(s, before);
      if m.Enter? || m.Read? {
        ReaderStepLeavesBooks(Exec(s, before), m);
      } else {
        assert (OfWriter(before) + [m])[..|OfWriter(before)|] == OfWriter(before);
        WriterStepAlike(Exec(s, before), Exec(s, OfWriter(before)), m);
      }
    }
  }

  /** However readers move in between, after the writer's sections the counter is twice their number, and
      the books there ever were are those the sections made, one after the other. */
  lemma EverySectionPublishes(book: Book, readers: nat, all: seq<seq<(nat, int)>>, moves: seq<Move>)
    requires OfWriter(moves) == Sections(all)
    ensures var s := Exec(Init(book, readers), moves);
            s.count == 2 * |all| && s.history == Books(book, all) && s.book == s.history[|all|]
  {
    ReadersLeaveBooks(Init(book, readers), moves);
    SectionsPublish(book, readers, all);
  }
}
