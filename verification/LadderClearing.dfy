/** What clearing a price ladder forgets: everything but the cached best. */
module LadderClearing {
  import opened Common
  import opened Ladder
  import opened LadderRuns

  lemma BestIsApart(side: Side, b: Book, t: int, v: nat, scale: nat)
    requires Shape(b) && b.start.Some?
    ensures Volumes(TakeBest(side, b, t, v, scale), b)
  {
  }

  lemma SlidesAlike(b: Book, c: Book, start: int, t: int, v: nat, scale: nat)
    requires Shape(b) && Shape(c) && Volumes(b, c)
    ensures t - start >= b.size ==> Volumes(BidSlideUp(b, start, t, v, scale), BidSlideUp(c, start, t, v, scale))
    ensures t < start ==> Volumes(BidTurned(b, start, t, v, scale), BidTurned(c, start, t, v, scale))
    ensures t < start ==> Volumes(AskSlideDown(b, start, t, v, scale), AskSlideDown(c, start, t, v, scale))
    ensures t - start >= b.size ==>
              var (x, y) := (AskSlideUp(b, start, t, v, scale), AskSlideUp(c, start, t, v, scale));
              x.Some? == y.Some? && (x.Some? ==> Volumes(x.value, y.value))
  {
  }

  lemma PlacesAlike(side: Side, b: Book, c: Book, t: int, v: nat, scale: nat)
    requires Shape(b) && Shape(c) && Volumes(b, c)
    ensures var (x, y) := (Place(side, b, t, v, scale), Place(side, c, t, v, scale));
            x.Some? == y.Some? && (x.Some? ==> Volumes(x.value, y.value))
  {
    SlidesAlike(b, c, StartFor(b, t, scale), t, v, scale);
  }

  lemma UpdatesAlike(side: Side, b: Book, c: Book, t: int, v: nat, scale: nat)
    requires Shape(b) && Shape(c) && Volumes(b, c)
    ensures var (b', c') := (Update(side, b, t, v, scale), Update(side, c, t, v, scale));
            Volumes(b'.0, c'.0) && b'.1 == c'.1
  {
    PlacesAlike(side, b, c, t, v, scale);
    if Place(side, b, t, v, scale).Some? {
      BestIsApart(side, Place(side, b, t, v, scale).value, t, v, scale);
      BestIsApart(side, Place(side, c, t, v, scale).value, t, v, scale);
    }
  }

  lemma TurnsAlike(b: Book, c: Book, start: int, t: int, v: nat, scale: nat)
    requires Shape(b) && Shape(c) && Volumes(b, c) && t < start
    ensures Volumes(TakeBest(Bid, BidTurned(b, start, t, v, scale), t, v, scale),
                    TakeBest(Bid, BidTurned(c, start, t, v, scale), t, v, scale))
  {
    SlidesAlike(b, c, start, t, v, scale);
    BestIsApart(Bid, BidTurned(b, start, t, v, scale), t, v, scale);
    BestIsApart(Bid, BidTurned(c, start, t, v, scale), t, v, scale);
  }

  /** What an update does to window and volumes does not depend on the cached best. */
  lemma BestDoesNotMatter(test: Test, side: Side, b: Book, c: Book, t: int, v: nat, scale: nat)
    requires Shape(b) && Shape(c) && Volumes(b, c)
    ensures var (b', c') := (Apply(test, side, b, t, v, scale), Apply(test, side, c, t, v, scale));
            Volumes(b'.0, c'.0) && b'.1 == c'.1
  {
    var start := StartFor(b, t, scale);
    if test.AsWritten? || side.Ask? || t >= start {
      UpdatesAlike(side, b, c, t, v, scale);
    } else {
      TurnsAlike(b, c, start, t, v, scale);
    }
  }

  lemma NextDoesNotMatter(s: Setup, q: Run, r: Run, ev: Event)
    requires Shape(q.book) && Shape(r.book) && q.book.size == r.book.size == s.size && Volumes(q.book, r.book)
    ensures Volumes(Next(s, q, ev).book, Next(s, r, ev).book)
  {
    if ev.Put? { BestDoesNotMatter(s.test, s.side, q.book, r.book, ev.t, ev.v, s.scale); }
  }

  /** After a clearing, window and volumes are at every moment those of a new ladder that was given only what
      came since: nothing before the clearing can be told from them. */
  lemma {:induction false} ClearingStartsOver(s: Setup, before: seq<Event>, since: seq<Event>)
    requires s.size > 0
    ensures Volumes(Exec(s, before + [Wipe] + since).book, Exec(s, since).book)
    decreases |since|
  {
    if since == [] {
      assert before + [Wipe] + since == before + [Wipe];
      Appended(s, before, Wipe);
    } else {
      var n, first := |since| - 1, before + [Wipe] + since[..|since| - 1];
      assert before + [Wipe] + since == first + [since[n]] && since == since[..n] + [since[n]];
      ClearingStartsOver(s, before, since[..n]);
      Appended(s, first, since[n]);
      Appended(s, since[..n], since[n]);
      NextDoesNotMatter(s, Exec(s, first), Exec(s, since[..n]), since[n]);
    }
  }
}
