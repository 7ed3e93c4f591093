/** Short runs of a new ladder, counted in one unit, that reach each place where the best or the
    volumes go wrong. */
module LadderWitnesses {
  import opened Common
  import opened Ladder
  import opened LadderRuns

  function Coded(side: Side, size: nat): Setup { Setup(AsWritten, side, size, 1) }

  lemma First(s: Setup, a: Event)
    requires s.size > 0
    ensures Exec(s, [a]) == Next(s, Run(New(s.size), []), a)
  {
    Appended(s, [], a);
    assert [] + [a] == [a];
  }

  lemma Second(s: Setup, a: Event, b: Event)
    requires s.size > 0
    ensures Exec(s, [a, b]) == Next(s, Exec(s, [a]), b)
  {
    Appended(s, [a], b);
    assert [a] + [b] == [a, b];
  }

  lemma Third(s: Setup, a: Event, b: Event, c: Event)
    requires s.size > 0
    ensures Exec(s, [a, b, c]) == Next(s, Exec(s, [a, b]), c)
  {
    Appended(s, [a, b], c);
    assert [a, b] + [c] == [a, b, c];
  }

  /** The best sits on the window's edge; when it goes, the rescan misses the bid below it. */
  lemma EdgeRescanLosesBest()
    ensures var b := Exec(Coded(Bid, 2), [Put(5, 1), Put(4, 1), Put(5, 0)]).book;
            b.best == None && Volume(b, 4) == 1
  {
    var s := Coded(Bid, 2);
    First(s, Put(5, 1));
    Second(s, Put(5, 1), Put(4, 1));
    var b := Exec(s, [Put(5, 1), Put(4, 1)]).book;
    assert b.start == Some(4) && b.cells == [1, 1] && b.best == Some(5);
    Third(s, Put(5, 1), Put(4, 1), Put(5, 0));
  }

  /** A bid below the window turns the best out of it, and the best stays behind. */
  lemma SlideDownLosesBest()
    ensures var b := Exec(Coded(Bid, 2), [Put(5, 1), Put(3, 7)]).book;
            b.best == Some(5) && !InWindow(b, 5) && Volume(b, 3) == 7
  {
    var s := Coded(Bid, 2);
    First(s, Put(5, 1));
    Second(s, Put(5, 1), Put(3, 7));
  }

  /** Turned over two levels, the ladder shows an old volume at a price never put. */
  lemma SlideDownShowsOldVolume()
    ensures var b := Exec(Coded(Bid, 2), [Put(5, 1), Put(4, 1), Put(2, 7)]).book;
            Volume(b, 2) == 7 && Volume(b, 1) == 1
  {
    var s := Coded(Bid, 2);
    First(s, Put(5, 1));
    Second(s, Put(5, 1), Put(4, 1));
    var b := Exec(s, [Put(5, 1), Put(4, 1)]).book;
    assert b.start == Some(4) && b.cells == [1, 1] && b.best == Some(5);
    Third(s, Put(5, 1), Put(4, 1), Put(2, 7));
  }

  /** Where the slide down would lose nothing, it is refused. */
  lemma SlideDownIsRefusedOverEmpty()
    ensures var s := Coded(Bid, 2);
            Exec(s, [Put(5, 1), Put(5, 0), Put(3, 7)]).history == [Accepted(5, 1, 4), Accepted(5, 0, 4)]
  {
    var s := Coded(Bid, 2);
    First(s, Put(5, 1));
    Second(s, Put(5, 1), Put(5, 0));
    var r := Exec(s, [Put(5, 1), Put(5, 0)]);
    assert r.book.start == Some(4) && r.book.cells == [0, 0];
    Third(s, Put(5, 1), Put(5, 0), Put(3, 7));
    BelowIsRefused(r);
  }

  lemma BelowIsRefused(r: Run)
    requires Shape(r.book) && r.book.size == 2 && r.book.start == Some(4) && r.book.cells == [0, 0]
    ensures Next(Coded(Bid, 2), r, Put(3, 7)).history == r.history
  {
    assert r.book.cells[1..][0] == 0;
  }

  /** A zero volume above the window moves it past the best, which stays behind. */
  lemma DeletionPushesBestOut()
    ensures var b := Exec(Coded(Bid, 4), [Put(5, 1), Put(9, 0)]).book;
            b.best == Some(5) && !InWindow(b, 5) && Empty(b.cells)
  {
    var s := Coded(Bid, 4);
    First(s, Put(5, 1));
    Second(s, Put(5, 1), Put(9, 0));
  }

  /** A cleared ladder still names its old best. */
  lemma ClearKeepsBest(side: Side)
    ensures var b := Exec(Coded(side, 2), [Put(5, 1), Wipe]).book; b.best == Some(5) && Empty(b.cells)
  {
    var s := Coded(side, 2);
    First(s, Put(5, 1));
    Second(s, Put(5, 1), Wipe);
  }

  /** A deletion far above all bids throws the best out without a report. */
  lemma BestGoesSilently()
    ensures var s := Coded(Bid, 2);
            var b := Exec(s, [Put(5, 1)]).book;
            b.best == Some(5) && Exec(s, [Put(5, 1), Put(100, 0)]).book.best == None && !Reports(Bid, b, 100, 0, 1)
  {
    var s := Coded(Bid, 2);
    First(s, Put(5, 1));
    Second(s, Put(5, 1), Put(100, 0));
  }
}
