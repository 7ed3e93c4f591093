/** The order rate limit: a request passes when fewer than `max` timestamps of the last second
    are in the buffer, and one that passes leaves one, if it is a new order or was handled. */
module RateLimiter {
  import opened Common
  import opened FastRing
  import opened Sums

  const ONE_SECOND: int := 1_000_000_000

  /** `now` and `end` are the clock before and after the request is handled; `handled` is whether the
      order manager took it. */
  datatype Request = Request(now: int, end: int, isNew: bool, handled: bool) {
    /** Its time is recorded: of a new order even if the order manager refused it. */
    predicate Counts() { isNew || handled }
  }

  /** Timestamps from `cutoff` on, of a queue whose front is the oldest. */
  function Prune(q: seq<int>, cutoff: int): (r: seq<int>)
    ensures |r| <= |q|
    decreases |q|
  {
    if q != [] && q[0] < cutoff then Prune(q[1..], cutoff) else q
  }

  predicate Passes(q: seq<int>, max: nat, now: int) { |Prune(q, now - ONE_SECOND)| < max }

  function After(q: seq<int>, capacity: nat, max: nat, r: Request): seq<int> {
    var kept := Prune(q, r.now - ONE_SECOND);
    if |kept| < max && r.Counts() then LastOf(kept + [r.end], capacity) else kept
  }

  /** The buffer, and every timestamp ever recorded. */
  datatype Past = Past(queue: seq<int>, recorded: seq<int>)

  function Recorded(s: seq<int>, passes: bool, r: Request): seq<int> {
    if passes && r.Counts() then s + [r.end] else s
  }

  /** What a request leaves behind. */
  function Handled(p: Past, capacity: nat, max: nat, r: Request): Past {
    Past(After(p.queue, capacity, max, r), Recorded(p.recorded, Passes(p.queue, max, r.now), r))
  }

  function Exec(requests: seq<Request>, capacity: nat, max: nat): Past {
    if requests == [] then Past([], [])
    else
      Handled(Exec(requests[..|requests| - 1], capacity, max), capacity, max, requests[|requests| - 1])
  }

  /** A steady clock never goes back. */
  predicate Steady(requests: seq<Request>) {
    && (forall i :: 0 <= i < |requests| ==> requests[i].now <= requests[i].end)
    && (forall i, j :: 0 <= i < j < |requests| ==> requests[i].end <= requests[j].now)
  }

  predicate Sorted(s: seq<int>) { forall i, j :: 0 <= i < j < |s| ==> s[i] <= s[j] }

  predicate Suffix(q: seq<int>, s: seq<int>) { |q| <= |s| && q == s[|s| - |q|..] }

  /** Pruning drops exactly the timestamps before the cutoff. */
  lemma {:induction false} PruneIsExact(q: seq<int>, cutoff: int)
    requires Sorted(q)
    ensures var r := Prune(q, cutoff);
            && r == q[|q| - |r|..]
            && (forall i :: 0 <= i < |q| - |r| ==> q[i] < cutoff)
            && (r != [] ==> r[0] >= cutoff)
    decreases |q|
  {
    if q != [] && q[0] < cutoff {
      var t, r := q[1..], Prune(q, cutoff);
      PruneIsExact(t, cutoff);
      forall i | 0 <= i < |q| - |r| ensures q[i] < cutoff {
        if i > 0 { assert q[i] == t[i - 1]; }
      }
    }
  }

  /** The queue is the end of the record, everything before it is too old for any request from
      `now` on, and `max` places apart timestamps are over a second apart. */
  ghost predicate Inv(p: Past, max: nat, now: int) {
    && Sorted(p.recorded) && Suffix(p.queue, p.recorded)
    && (forall i :: 0 <= i < |p.recorded| ==> p.recorded[i] <= now)
    && (forall i :: 0 <= i < |p.recorded| - |p.queue| ==> p.recorded[i] < now - ONE_SECOND)
    && (forall i :: max <= i < |p.recorded| ==> p.recorded[i - max] < p.recorded[i] - ONE_SECOND)
  }

  lemma EndOfEnd(q: seq<int>, n: nat, s: seq<int>)
    requires Sorted(s) && Suffix(q, s) && n <= |q|
    ensures Sorted(q) && Suffix(q[|q| - n..], s)
  {
  }

  /** What is kept is the end of the record, and everything before it is before the cutoff. */
  lemma DroppedIsOld(q: seq<int>, s: seq<int>, cutoff: int)
    requires Sorted(s) && Suffix(q, s) && forall i :: 0 <= i < |s| - |q| ==> s[i] < cutoff
    ensures Suffix(Prune(q, cutoff), s) && forall i :: 0 <= i < |s| - |Prune(q, cutoff)| ==> s[i] < cutoff
  {
    var kept := Prune(q, cutoff);
    EndOfEnd(q, |kept|, s);
    PruneIsExact(q, cutoff);
    forall i | 0 <= i < |s| - |kept| ensures s[i] < cutoff {
      if i >= |s| - |q| { assert s[i] == q[i - (|s| - |q|)]; }
    }
  }

  /** What pruning keeps is still the end of the record, and what it drops is too old. */
  lemma PruneInv(p: Past, max: nat, now: int, later: int)
    requires Inv(p, max, now) && now <= later
    ensures Inv(Past(Prune(p.queue, later - ONE_SECOND), p.recorded), max, later)
  {
    DroppedIsOld(p.queue, p.recorded, later - ONE_SECOND);
  }

  lemma PushInv(p: Past, max: nat, now: int, end: int)
    requires Inv(p, max, now) && now <= end && |p.queue| < max
    ensures Inv(Past(p.queue + [end], p.recorded + [end]), max, end)
  {
    var s := p.recorded + [end];
    forall i | max <= i < |s| ensures s[i - max] < s[i] - ONE_SECOND {
      if i == |p.recorded| { assert p.recorded[i - max] < now - ONE_SECOND; }
    }
  }

  lemma HandledIs(p: Past, capacity: nat, max: nat, r: Request, kept: seq<int>)
    requires kept == Prune(p.queue, r.now - ONE_SECOND) && max <= capacity
    ensures Handled(p, capacity, max, r)
            == if |kept| < max && r.Counts() then Past(kept + [r.end], p.recorded + [r.end]) else Past(kept, p.recorded)
  {
  }

  /** A request that passes and is handled is recorded, and pushed behind what pruning kept. */
  lemma StepInv(p: Past, capacity: nat, max: nat, now: int, r: Request)
    requires Inv(p, max, now) && now <= r.now <= r.end && 0 < max <= capacity
    ensures Inv(Handled(p, capacity, max, r), max, r.end)
  {
    var kept := Prune(p.queue, r.now - ONE_SECOND);
    HandledIs(p, capacity, max, r, kept);
    PruneInv(p, max, now, r.now);
    if |kept| < max && r.Counts() {
      PushInv(Past(kept, p.recorded), max, r.now, r.end);
    } else {
      InvLater(Past(kept, p.recorded), max, r.now, r.end);
    }
  }

  lemma InvLater(p: Past, max: nat, now: int, later: int)
    requires Inv(p, max, now) && now <= later
    ensures Inv(p, max, later)
  {
  }

  lemma {:induction false} ExecInv(requests: seq<Request>, capacity: nat, max: nat)
    requires Steady(requests) && 0 < max <= capacity
    ensures requests != [] ==> Inv(Exec(requests, capacity, max), max, requests[|requests| - 1].end)
    decreases |requests|
  {
    if requests != [] {
      var n := |requests| - 1;
      ExecInv(requests[..n], capacity, max);
      var now := if n == 0 then requests[0].now else requests[n - 1].end;
      StepInv(Exec(requests[..n], capacity, max), capacity, max, now, requests[n]);
    }
  }

  // ---------------------------------------------------------------- the limit

  /** 1 for a time in the closed second from `a`. */
  function In(a: int): int -> int { (t: int) => if a <= t <= a + 1_000_000_000 then 1 else 0 }

  lemma {:induction false} CountAtMost(s: seq<int>, early: nat, a: int)
    requires early <= |s| && forall i :: 0 <= i < early ==> s[i] < a
    ensures Sum(s, In(a)) <= |s| - early
    decreases |s|
  {
    if |s| > early { CountAtMost(s[..|s| - 1], early, a); }
    else { SumZero(s, In(a)); }
  }

  lemma {:induction false} SpacedCount(s: seq<int>, max: nat, a: int)
    requires Sorted(s) && forall i :: max <= i < |s| ==> s[i - max] < s[i] - ONE_SECOND
    ensures Sum(s, In(a)) <= max
    decreases |s|
  {
    if s != [] {
      var n := |s| - 1;
      if s[n] > a + ONE_SECOND || s[n] < a {
        SpacedCount(s[..n], max, a);
      } else {
        var early := if |s| <= max then 0 else |s| - max;
        forall i | 0 <= i < early ensures s[i] < a {
          assert s[i] <= s[n - max] < s[n] - ONE_SECOND;
        }
        CountAtMost(s, early, a);
      }
    }
  }

  /** Over every run on a steady clock, no closed second holds more than `max` recorded
      requests, as long as the buffer is large enough for the limit. */
  lemma LimitHolds(requests: seq<Request>, capacity: nat, max: nat, a: int)
    requires Steady(requests) && max <= capacity
    ensures Sum(Exec(requests, capacity, max).recorded, In(a)) <= max
  {
    if max == 0 {
      NothingPasses(requests, capacity);
    } else if requests != [] {
      ExecInv(requests, capacity, max);
      SpacedCount(Exec(requests, capacity, max).recorded, max, a);
    }
  }

  lemma {:induction false} NothingPasses(requests: seq<Request>, capacity: nat)
    ensures Exec(requests, capacity, 0).recorded == []
    decreases |requests|
  {
    if requests != [] { NothingPasses(requests[..|requests| - 1], capacity); }
  }

  /** `n` requests at the same instant. */
  function Burst(n: nat): seq<Request> { seq(n, _ => Request(0, 0, true, true)) }

  lemma BurstStep(p: Past, capacity: nat, max: nat)
    requires capacity < max && |p.queue| <= capacity && forall i :: 0 <= i < |p.queue| ==> p.queue[i] == 0
    ensures var q := After(p.queue, capacity, max, Request(0, 0, true, true));
            && |q| <= capacity && (forall i :: 0 <= i < |q| ==> q[i] == 0) && Passes(p.queue, max, 0)
    ensures Sum(p.recorded + [0], In(0)) == Sum(p.recorded, In(0)) + 1
  {
    assert Prune(p.queue, 0 - ONE_SECOND) == p.queue;
    assert (p.recorded + [0])[..|p.recorded|] == p.recorded;
  }

  lemma {:induction false} BurstPasses(n: nat, capacity: nat, max: nat)
    requires capacity < max
    ensures var p := Exec(Burst(n), capacity, max);
            && |p.queue| <= capacity && (forall i :: 0 <= i < |p.queue| ==> p.queue[i] == 0)
            && Sum(p.recorded, In(0)) == n
    decreases n
  {
    if n > 0 {
      assert Burst(n)[..n - 1] == Burst(n - 1);
      assert Burst(n)[n - 1] == Request(0, 0, true, true);
      BurstPasses(n - 1, capacity, max);
      BurstStep(Exec(Burst(n - 1), capacity, max), capacity, max);
    }
  }

  /** The limit holds for every run exactly when it does not exceed the buffer's capacity:
      above it, the buffer forgets and nothing is ever refused. */
  lemma LimitHoldsIffItFits(capacity: nat, max: nat)
    ensures (forall requests, a :: Steady(requests) ==> Sum(Exec(requests, capacity, max).recorded, In(a)) <= max)
            <==> max <= capacity
  {
    if max <= capacity {
      forall requests, a | Steady(requests) ensures Sum(Exec(requests, capacity, max).recorded, In(a)) <= max {
        LimitHolds(requests, capacity, max, a);
      }
    } else {
      BurstPasses(max + 1, capacity, max);
      assert Steady(Burst(max + 1));
    }
  }

  // ---------------------------------------------------------------- who passes

  lemma {:induction false} CountOfEnd(s: seq<int>, early: nat, a: int)
    requires early <= |s| && (forall i :: 0 <= i < early ==> s[i] < a)
    requires forall i :: early <= i < |s| ==> a <= s[i] <= a + 1_000_000_000
    ensures Sum(s, In(a)) == |s| - early
    decreases |s|
  {
    if |s| > early { CountOfEnd(s[..|s| - 1], early, a); } else { SumZero(s, In(a)); }
  }

  lemma FirstIsRecent(q: seq<int>, s: seq<int>, cutoff: int)
    requires Sorted(s) && Suffix(q, s)
    ensures var n := |Prune(q, cutoff)|; n > 0 ==> n <= |s| && s[|s| - n] >= cutoff
  {
    EndOfEnd(q, |q|, s);
    PruneIsExact(q, cutoff);
    var kept := Prune(q, cutoff);
    if kept != [] { assert kept[0] == q[|q| - |kept|] == s[|s| - |kept|]; }
  }

  /** Of the record, exactly what pruning keeps is from the last second. */
  lemma KeptIsRecent(p: Past, max: nat, now: int, later: int, kept: seq<int>)
    requires Inv(p, max, now) && now <= later && kept == Prune(p.queue, later - ONE_SECOND)
    ensures |kept| <= |p.recorded|
    ensures forall i :: 0 <= i < |p.recorded| - |kept| ==> p.recorded[i] < later - ONE_SECOND
    ensures forall i :: |p.recorded| - |kept| <= i < |p.recorded| ==> later - ONE_SECOND <= p.recorded[i] <= later
  {
    var s := p.recorded;
    PruneInv(p, max, now, later);
    FirstIsRecent(p.queue, s, later - ONE_SECOND);
    forall i | |s| - |kept| <= i < |s| ensures later - ONE_SECOND <= s[i] <= later {
      assert s[|s| - |kept|] <= s[i] && s[i] <= later;
    }
  }

  lemma PassesIffFewer(p: Past, max: nat, now: int, later: int)
    requires Inv(p, max, now) && now <= later
    ensures Passes(p.queue, max, later) <==> Sum(p.recorded, In(later - 1_000_000_000)) < max
  {
    var kept := Prune(p.queue, later - ONE_SECOND);
    KeptIsRecent(p, max, now, later, kept);
    CountOfEnd(p.recorded, |p.recorded| - |kept|, later - ONE_SECOND);
  }

  lemma {:induction false} QueueFits(requests: seq<Request>, capacity: nat, max: nat)
    ensures |Exec(requests, capacity, max).queue| <= capacity
    decreases |requests|
  {
    if requests != [] { QueueFits(requests[..|requests| - 1], capacity, max); }
  }

  lemma SteadyBefore(requests: seq<Request>, next: Request)
    requires Steady(requests + [next])
    ensures Steady(requests) && forall i :: 0 <= i < |requests| ==> requests[i].end <= next.now
  {
    var all := requests + [next];
    assert all[|requests|] == next;
    assert forall i :: 0 <= i < |requests| ==> all[i] == requests[i];
  }

  /** After any run on a steady clock, a request passes if and only if fewer than `max` were recorded in
      the closed second before it; or always, if the limit is above the buffer's capacity. */
  lemma PassesExactly(requests: seq<Request>, next: Request, capacity: nat, max: nat)
    requires Steady(requests + [next])
    ensures var p := Exec(requests, capacity, max);
            Passes(p.queue, max, next.now)
            <==> max > capacity || Sum(p.recorded, In(next.now - 1_000_000_000)) < max
  {
    SteadyBefore(requests, next);
    if max > capacity {
      QueueFits(requests, capacity, max);
    } else if max == 0 {
      NothingPasses(requests, capacity);
    } else if requests != [] {
      ExecInv(requests, capacity, max);
      PassesIffFewer(Exec(requests, capacity, max), max, requests[|requests| - 1].end, next.now);
    }
  }

  /** A request leaves its finishing time in the record if and only if it passes and is a new order, taken
      or not, or was taken; and the buffer's newest time is then that one. */
  lemma RecordsExactly(requests: seq<Request>, next: Request, capacity: nat, max: nat)
    requires capacity > 0
    ensures var (p, p') := (Exec(requests, capacity, max), Exec(requests + [next], capacity, max));
            var passes := Passes(p.queue, max, next.now);
            if passes && (next.isNew || next.handled)
            then p'.recorded == p.recorded + [next.end] && p'.queue != [] && p'.queue[|p'.queue| - 1] == next.end
            else p'.recorded == p.recorded && p'.queue == Prune(p.queue, next.now - 1_000_000_000)
  {
    assert (requests + [next])[..|requests|] == requests;
  }

  // ---------------------------------------------------------------- the code

  class OrderRate {
    const timestamps: FastRingBuffer<int>
    var maxOrdersPerSec: nat

    ghost predicate Valid()
      reads this, timestamps, timestamps.data
    {
      timestamps.Valid()
    }

    constructor (size: nat)
      requires size <= TWO_TO_63
      ensures Valid() && timestamps.Contents() == [] && timestamps.logicalSize == size && maxOrdersPerSec == size
      ensures fresh(timestamps) && fresh(timestamps.data)
    {
      timestamps := new FastRingBuffer<int>(size);
      maxOrdersPerSec := size;
    }

    method IsOrderRateWithinLimit(now: int) returns (ok: bool)
      requires Valid()
      modifies timestamps`start
      ensures Valid() && timestamps.Contents() == Prune(old(timestamps.Contents()), now - ONE_SECOND)
      ensures ok == Passes(old(timestamps.Contents()), maxOrdersPerSec, now)
    {
      var oneSecondAgo := now - ONE_SECOND;
      ghost var was := timestamps.Contents();
      while timestamps.start != timestamps.end
        invariant Valid()
        invariant Prune(timestamps.Contents(), oneSecondAgo) == Prune(was, oneSecondAgo)
        decreases timestamps.end - timestamps.start
      {
        var oldest := timestamps.Front();
        if oldest >= oneSecondAgo {
          break;
        }
        var x := timestamps.PopFront();
      }
      return timestamps.end - timestamps.start < maxOrdersPerSec;
    }

    /** `handleEvent` around the order manager: `handled` is its answer, which does not count for a new
        order. */
    method HandleEvent(now: int, end: int, isNew: bool, handled: bool) returns (passed: bool)
      requires Valid()
      modifies timestamps`start, timestamps`end, timestamps.data
      ensures Valid() && passed == Passes(old(timestamps.Contents()), maxOrdersPerSec, now)
      ensures timestamps.Contents()
              == After(old(timestamps.Contents()), timestamps.logicalSize, maxOrdersPerSec,
                       Request(now, end, isNew, handled))
    {
      passed := IsOrderRateWithinLimit(now);
      if passed && (isNew || handled) {
        timestamps.Push(end);
      }
    }
  }
}
