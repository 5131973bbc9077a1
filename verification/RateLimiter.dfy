/** The sliding-window limiter of open enrollment, against one that forgets nothing. */
module RateLimiter {

  /** The timestamps after `cutoff`. */
  function After(ts: seq<int>, cutoff: int): (r: seq<int>)
    ensures |r| <= |ts|
  {
    if ts == [] then []
    else After(ts[..|ts| - 1], cutoff) + (if ts[|ts| - 1] > cutoff then [ts[|ts| - 1]] else [])
  }

  /** One call: the clock is read once for the cutoff and, if the event is accepted, once more for its timestamp. */
  datatype Call = Call(now: int, stamp: int)

  /** What the limiter keeps after a call, and its answer. */
  function Consume(maxEvents: int, windowMs: int, kept: seq<int>, c: Call): (seq<int>, bool) {
    var recent := After(kept, c.now - windowMs);
    if |recent| >= maxEvents then (recent, false) else (recent + [c.stamp], true)
  }

  /** The reference: the same rule on the history of all the accepted events. */
  function Accept(maxEvents: int, windowMs: int, history: seq<int>, c: Call): bool {
    |After(history, c.now - windowMs)| < maxEvents
  }

  function Remember(maxEvents: int, windowMs: int, history: seq<int>, c: Call): seq<int> {
    if Accept(maxEvents, windowMs, history, c) then history + [c.stamp] else history
  }

  class SlidingWindowLimiter {
    const maxEvents: int
    const windowMs: int
    var timestamps: seq<int>

    constructor (maxEvents: int, windowMs: int)
      ensures timestamps == [] && this.maxEvents == maxEvents && this.windowMs == windowMs
    {
      this.maxEvents, this.windowMs := maxEvents, windowMs;
      timestamps := [];
    }

    method TryConsume(c: Call) returns (accepted: bool)
      modifies this
      ensures (timestamps, accepted) == Consume(maxEvents, windowMs, old(timestamps), c)
    {
      var cutoff := c.now - windowMs;
      timestamps := Prune(cutoff);
      if |timestamps| >= maxEvents {
        return false;
      }
      timestamps := timestamps + [c.stamp];
      accepted := true;
    }

    method Prune(cutoff: int) returns (recent: seq<int>)
      ensures recent == After(timestamps, cutoff)
    {
      recent := [];
      for i := 0 to |timestamps|
        invariant recent == After(timestamps[..i], cutoff)
      {
        assert timestamps[..i + 1][..i] == timestamps[..i];
        if timestamps[i] > cutoff {
          recent := recent + [timestamps[i]];
        }
      }
      assert timestamps[..|timestamps|] == timestamps;
    }
  }

  // ----- Whole runs -----

  /** The clock never goes back. */
  ghost predicate Clock(last: int, calls: seq<Call>)
    decreases |calls|
  {
    calls == [] || (last <= calls[0].now <= calls[0].stamp && Clock(calls[0].stamp, calls[1..]))
  }

  function Answers(maxEvents: int, windowMs: int, kept: seq<int>, calls: seq<Call>): seq<bool>
    decreases |calls|
  {
    if calls == [] then []
    else
      var (next, accepted) := Consume(maxEvents, windowMs, kept, calls[0]);
      [accepted] + Answers(maxEvents, windowMs, next, calls[1..])
  }

  function Kept(maxEvents: int, windowMs: int, kept: seq<int>, calls: seq<Call>): seq<int>
    decreases |calls|
  {
    if calls == [] then kept else Kept(maxEvents, windowMs, Consume(maxEvents, windowMs, kept, calls[0]).0, calls[1..])
  }

  function FullAnswers(maxEvents: int, windowMs: int, history: seq<int>, calls: seq<Call>): seq<bool>
    decreases |calls|
  {
    if calls == [] then []
    else
      [Accept(maxEvents, windowMs, history, calls[0])]
      + FullAnswers(maxEvents, windowMs, Remember(maxEvents, windowMs, history, calls[0]), calls[1..])
  }

  function History(maxEvents: int, windowMs: int, history: seq<int>, calls: seq<Call>): seq<int>
    decreases |calls|
  {
    if calls == [] then history else History(maxEvents, windowMs, Remember(maxEvents, windowMs, history, calls[0]), calls[1..])
  }

  lemma AfterSnoc(ts: seq<int>, t: int, cutoff: int)
    ensures After(ts + [t], cutoff) == After(ts, cutoff) + (if t > cutoff then [t] else [])
  {
    assert (ts + [t])[..|ts|] == ts;
  }

  lemma {:induction false} AfterAfter(ts: seq<int>, early: int, late: int)
    requires early <= late
    ensures After(After(ts, early), late) == After(ts, late)
  {
    if ts != [] {
      var init, t := ts[..|ts| - 1], ts[|ts| - 1];
      AfterAfter(init, early, late);
      if t > early {
        AfterSnoc(After(init, early), t, late);
      } else {
        assert After(ts, early) == After(init, early) && After(ts, late) == After(init, late);
      }
    }
  }

  /** The limiter holds the events of the history that are younger than some cutoff already reached. */
  ghost predicate Holds(maxEvents: int, windowMs: int, kept: seq<int>, history: seq<int>, last: int) {
    && (|kept| == 0 || |kept| <= maxEvents)
    && exists cutoff :: cutoff <= last - windowMs && kept == After(history, cutoff)
  }

  lemma StepHolds(maxEvents: int, windowMs: int, kept: seq<int>, history: seq<int>, last: int, c: Call)
    requires windowMs > 0 && Holds(maxEvents, windowMs, kept, history, last) && last <= c.now <= c.stamp
    ensures var (next, accepted) := Consume(maxEvents, windowMs, kept, c);
            && accepted == Accept(maxEvents, windowMs, history, c)
            && Holds(maxEvents, windowMs, next, Remember(maxEvents, windowMs, history, c), c.stamp)
  {
    var cutoff :| cutoff <= last - windowMs && kept == After(history, cutoff);
    var now := c.now - windowMs;
    AfterAfter(history, cutoff, now);
    AfterSnoc(history, c.stamp, now);
    var next := Consume(maxEvents, windowMs, kept, c).0;
    assert now <= c.stamp - windowMs && next == After(Remember(maxEvents, windowMs, history, c), now);
  }

  /**
   * For every clock that does not go back: the answers are those of the limiter that forgets nothing, and no
   * more than `maxEvents` timestamps are kept.
   */
  lemma {:induction false} ForgettingIsSafe(maxEvents: int, windowMs: int, kept: seq<int>, history: seq<int>, last: int, calls: seq<Call>)
    requires windowMs > 0 && Holds(maxEvents, windowMs, kept, history, last) && Clock(last, calls)
    ensures Answers(maxEvents, windowMs, kept, calls) == FullAnswers(maxEvents, windowMs, history, calls)
    ensures var end := Kept(maxEvents, windowMs, kept, calls);
            |end| == 0 || |end| <= maxEvents
    decreases |calls|
  {
    if calls != [] {
      var c := calls[0];
      StepHolds(maxEvents, windowMs, kept, history, last, c);
      ForgettingIsSafe(maxEvents, windowMs, Consume(maxEvents, windowMs, kept, c).0,
                       Remember(maxEvents, windowMs, history, c), c.stamp, calls[1..]);
    }
  }

  // ----- The answers, from the answers -----

  /** How many of the first `k` calls were accepted with a timestamp after `cutoff`. */
  function Recent(calls: seq<Call>, answers: seq<bool>, k: nat, cutoff: int): nat
    requires k <= |calls| && k <= |answers|
    decreases k
  {
    if k == 0 then 0
    else (if answers[0] && calls[0].stamp > cutoff then 1 else 0) + Recent(calls[1..], answers[1..], k - 1, cutoff)
  }

  lemma {:induction false} FullAnswersAreExact(maxEvents: int, windowMs: int, history: seq<int>, calls: seq<Call>, k: nat)
    requires k < |calls|
    ensures var answers, cutoff := FullAnswers(maxEvents, windowMs, history, calls), calls[k].now - windowMs;
            |answers| == |calls| && (answers[k] <==> |After(history, cutoff)| + Recent(calls, answers, k, cutoff) < maxEvents)
    decreases |calls|
  {
    if |calls| > 1 {
      var rest, next := calls[1..], Remember(maxEvents, windowMs, history, calls[0]);
      FullAnswersAreExact(maxEvents, windowMs, next, rest, if k > 0 then k - 1 else 0);
      var answers := FullAnswers(maxEvents, windowMs, history, calls);
      assert answers[1..] == FullAnswers(maxEvents, windowMs, next, rest);
      AfterSnoc(history, calls[0].stamp, calls[k].now - windowMs);
    }
  }

  /**
   * In every run, a call is accepted if and only if fewer calls than the maximum were accepted before it with a
   * timestamp later than one window before its own clock.
   */
  lemma AnswersAreExact(maxEvents: int, windowMs: int, last: int, calls: seq<Call>, k: nat)
    requires windowMs > 0 && Clock(last, calls) && k < |calls|
    ensures var answers := Answers(maxEvents, windowMs, [], calls);
            |answers| == |calls| && (answers[k] <==> Recent(calls, answers, k, calls[k].now - windowMs) < maxEvents)
  {
    assert After([], last - windowMs) == [];
    ForgettingIsSafe(maxEvents, windowMs, [], [], last, calls);
    FullAnswersAreExact(maxEvents, windowMs, [], calls, k);
  }

  // ----- How many events a window can hold -----

  ghost predicate Sorted(ts: seq<int>, last: int) {
    (forall i, j :: 0 <= i < j < |ts| ==> ts[i] <= ts[j]) && forall i :: 0 <= i < |ts| ==> ts[i] <= last
  }

  /** Any `maxEvents + 1` consecutive events are spread over at least a window. */
  ghost predicate Spread(maxEvents: nat, windowMs: int, ts: seq<int>) {
    forall k: nat :: k + maxEvents < |ts| ==> ts[k + maxEvents] - ts[k] >= windowMs
  }

  /** In a sorted history the events after a cutoff are its last ones. */
  lemma {:induction false} AfterIsSuffix(ts: seq<int>, last: int, cutoff: int)
    requires Sorted(ts, last)
    ensures var start := |ts| - |After(ts, cutoff)|;
            forall i :: 0 <= i < |ts| ==> (ts[i] > cutoff <==> i >= start)
  {
    if ts != [] {
      var init, t := ts[..|ts| - 1], ts[|ts| - 1];
      if t <= cutoff {
        AfterNone(ts, cutoff);
      } else {
        AfterIsSuffix(init, last, cutoff);
      }
    }
  }

  lemma {:induction false} AfterNone(ts: seq<int>, cutoff: int)
    requires forall i :: 0 <= i < |ts| ==> ts[i] <= cutoff
    ensures After(ts, cutoff) == []
  {
    if ts != [] {
      AfterNone(ts[..|ts| - 1], cutoff);
    }
  }

  lemma RememberSpreads(maxEvents: nat, windowMs: int, history: seq<int>, last: int, c: Call)
    requires Sorted(history, last) && Spread(maxEvents, windowMs, history) && last <= c.now <= c.stamp
    ensures Sorted(Remember(maxEvents, windowMs, history, c), c.stamp)
    ensures Spread(maxEvents, windowMs, Remember(maxEvents, windowMs, history, c))
  {
    if Accept(maxEvents, windowMs, history, c) {
      AfterIsSuffix(history, last, c.now - windowMs);
      var all := history + [c.stamp];
      forall k: nat | k + maxEvents < |all|
        ensures all[k + maxEvents] - all[k] >= windowMs
      {
        if k + maxEvents == |history| && maxEvents > 0 {
          assert history[k] <= c.now - windowMs;
        }
      }
    }
  }

  /**
   * For every clock that does not go back: `maxEvents + 1` accepted events are never closer together than a
   * window, so no window of that length, open at one end, holds more than `maxEvents` of them.
   */
  lemma {:induction false} WindowsAreBounded(maxEvents: nat, windowMs: int, history: seq<int>, last: int, calls: seq<Call>)
    requires Sorted(history, last) && Spread(maxEvents, windowMs, history) && Clock(last, calls)
    ensures Spread(maxEvents, windowMs, History(maxEvents, windowMs, history, calls))
    decreases |calls|
  {
    if calls != [] {
      RememberSpreads(maxEvents, windowMs, history, last, calls[0]);
      WindowsAreBounded(maxEvents, windowMs, Remember(maxEvents, windowMs, history, calls[0]), calls[0].stamp, calls[1..]);
    }
  }

  // ----- Windows closed at both ends -----

  predicate Inside(t: int, from: int, len: int) {
    from <= t <= from + len
  }

  /** How many events a window holds, both ends included. */
  function InWindow(ts: seq<int>, from: int, len: int): nat {
    if ts == [] then 0
    else InWindow(ts[..|ts| - 1], from, len) + (if Inside(ts[|ts| - 1], from, len) then 1 else 0)
  }

  lemma {:induction false} InWindowIsDifference(ts: seq<int>, from: int, len: nat)
    ensures InWindow(ts, from, len) == |After(ts, from - 1)| - |After(ts, from + len)|
    decreases |ts|
  {
    if ts != [] {
      InWindowIsDifference(ts[..|ts| - 1], from, len);
    }
  }

  /** `n` times `maxEvents` events on, `n` windows have passed. */
  lemma {:induction false} SpreadMany(maxEvents: nat, windowMs: int, ts: seq<int>, k: nat, n: nat)
    requires Spread(maxEvents, windowMs, ts) && k + n * maxEvents < |ts|
    ensures ts[k + n * maxEvents] - ts[k] >= n * windowMs
    decreases n
  {
    if n > 0 {
      assert k + (n - 1) * maxEvents + maxEvents == k + n * maxEvents;
      SpreadMany(maxEvents, windowMs, ts, k, n - 1);
      assert ts[k + (n - 1) * maxEvents + maxEvents] - ts[k + (n - 1) * maxEvents] >= windowMs;
    }
  }

  /** The most events that a closed window of length `len` can hold. */
  function Most(maxEvents: nat, windowMs: int, len: nat): nat
    requires windowMs > 0
  {
    (len / windowMs + 1) * maxEvents
  }

  /** The events of a closed window stand together. */
  lemma WindowIsSlice(ts: seq<int>, last: int, from: int, len: nat) returns (start: nat, end: nat)
    requires Sorted(ts, last)
    ensures start <= |ts| && end <= |ts| && InWindow(ts, from, len) == end - start
    ensures forall i :: start <= i < end ==> Inside(ts[i], from, len)
  {
    InWindowIsDifference(ts, from, len);
    AfterIsSuffix(ts, last, from - 1);
    AfterIsSuffix(ts, last, from + len);
    start, end := |ts| - |After(ts, from - 1)|, |ts| - |After(ts, from + len)|;
  }

  /** One event more than the most lies outside. */
  lemma MostIsFar(maxEvents: nat, windowMs: int, ts: seq<int>, k: nat, len: nat)
    requires windowMs > 0 && Spread(maxEvents, windowMs, ts) && k + Most(maxEvents, windowMs, len) < |ts|
    ensures ts[k + Most(maxEvents, windowMs, len)] - ts[k] > len
  {
    SpreadMany(maxEvents, windowMs, ts, k, len / windowMs + 1);
    PastTheEnd(len, windowMs);
  }

  lemma SpreadBoundsWindows(maxEvents: nat, windowMs: int, ts: seq<int>, last: int, from: int, len: nat)
    requires windowMs > 0 && Sorted(ts, last) && Spread(maxEvents, windowMs, ts)
    ensures InWindow(ts, from, len) <= Most(maxEvents, windowMs, len)
  {
    var start, end := WindowIsSlice(ts, last, from, len);
    var most := Most(maxEvents, windowMs, len);
    assert end - start > most ==> Inside(ts[start], from, len) && Inside(ts[start + most], from, len);
    if end - start > most {
      MostIsFar(maxEvents, windowMs, ts, start, len);
    }
  }

  lemma PastTheEnd(len: nat, windowMs: int)
    requires windowMs > 0
    ensures len < (len / windowMs + 1) * windowMs
  {
  }

  lemma {:induction false} HistorySorted(maxEvents: nat, windowMs: int, history: seq<int>, last: int, calls: seq<Call>) returns (end: int)
    requires Sorted(history, last) && Clock(last, calls)
    ensures Sorted(History(maxEvents, windowMs, history, calls), end)
    decreases |calls|
  {
    if calls == [] {
      end := last;
    } else {
      end := HistorySorted(maxEvents, windowMs, Remember(maxEvents, windowMs, history, calls[0]), calls[0].stamp, calls[1..]);
    }
  }

  /** On every clock that does not go back, no closed window holds more than that. */
  lemma ClosedWindowsAreBounded(maxEvents: nat, windowMs: int, last: int, calls: seq<Call>, from: int, len: nat)
    requires windowMs > 0 && Clock(last, calls)
    ensures InWindow(History(maxEvents, windowMs, [], calls), from, len) <= Most(maxEvents, windowMs, len)
  {
    WindowsAreBounded(maxEvents, windowMs, [], last, calls);
    var end := HistorySorted(maxEvents, windowMs, [], last, calls);
    SpreadBoundsWindows(maxEvents, windowMs, History(maxEvents, windowMs, [], calls), end, from, len);
  }

  /** `maxEvents` calls at `start`, and again every window, `bursts` times. */
  function Bursts(maxEvents: nat, windowMs: int, start: int, bursts: nat): seq<Call>
    decreases bursts
  {
    if bursts == 0 then [] else Burst(maxEvents, start, Bursts(maxEvents, windowMs, start + windowMs, bursts - 1))
  }

  /** `n` calls at once, and then `rest`. */
  function Burst(n: nat, at: int, rest: seq<Call>): seq<Call> {
    if n == 0 then rest else [Call(at, at)] + Burst(n - 1, at, rest)
  }

  lemma {:induction false} BurstClock(n: nat, at: int, rest: seq<Call>, last: int)
    requires last <= at && Clock(at, rest) && (n == 0 ==> Clock(last, rest))
    ensures Clock(last, Burst(n, at, rest))
    decreases n
  {
    if n > 0 {
      BurstClock(n - 1, at, rest, at);
      assert Burst(n, at, rest)[1..] == Burst(n - 1, at, rest);
    }
  }

  lemma {:induction false} BurstsClock(maxEvents: nat, windowMs: int, start: int, bursts: nat, last: int)
    requires maxEvents > 0 && windowMs > 0 && last <= start
    ensures Clock(last, Bursts(maxEvents, windowMs, start, bursts))
    decreases bursts
  {
    if bursts > 0 {
      BurstsClock(maxEvents, windowMs, start + windowMs, bursts - 1, start);
      BurstClock(maxEvents, start, Bursts(maxEvents, windowMs, start + windowMs, bursts - 1), last);
    }
  }

  /** `n` more events at `at`. */
  function Grow(history: seq<int>, n: nat, at: int): seq<int>
    decreases n
  {
    if n == 0 then history else Grow(history + [at], n - 1, at)
  }

  /** A burst is accepted as long as no more than `maxEvents` events are in the window. */
  lemma {:induction false} BurstAccepted(maxEvents: nat, windowMs: int, history: seq<int>, n: nat, at: int, rest: seq<Call>)
    requires windowMs > 0 && |After(history, at - windowMs)| + n <= maxEvents
    ensures History(maxEvents, windowMs, history, Burst(n, at, rest)) == History(maxEvents, windowMs, Grow(history, n, at), rest)
    decreases n
  {
    if n > 0 {
      AfterSnoc(history, at, at - windowMs);
      assert Burst(n, at, rest)[1..] == Burst(n - 1, at, rest);
      BurstAccepted(maxEvents, windowMs, history + [at], n - 1, at, rest);
    }
  }

  ghost predicate Between(ts: seq<int>, low: int, high: int) {
    forall i :: 0 <= i < |ts| ==> low <= ts[i] <= high
  }

  lemma {:induction false} GrowBetween(history: seq<int>, n: nat, at: int, low: int)
    requires low <= at && Between(history, low, at)
    ensures |Grow(history, n, at)| == |history| + n && Between(Grow(history, n, at), low, at)
    decreases n
  {
    if n > 0 {
      GrowBetween(history + [at], n - 1, at, low);
    }
  }

  lemma OneBurst(maxEvents: nat, windowMs: nat, history: seq<int>, low: int, start: int, rest: seq<Call>)
    requires windowMs > 0 && low <= start && Between(history, low, start - windowMs)
    ensures var grown := Grow(history, maxEvents, start);
            && |grown| == |history| + maxEvents && Between(grown, low, start)
            && History(maxEvents, windowMs, history, Burst(maxEvents, start, rest)) == History(maxEvents, windowMs, grown, rest)
  {
    AfterNone(history, start - windowMs);
    BurstAccepted(maxEvents, windowMs, history, maxEvents, start, rest);
    GrowBetween(history, maxEvents, start, low);
  }

  /** `m`, `n` times over. */
  function Times(n: nat, m: nat): nat {
    if n == 0 then 0 else Times(n - 1, m) + m
  }

  lemma {:induction false} TimesIsProduct(n: nat, m: nat)
    ensures Times(n, m) == n * m
  {
    if n > 0 {
      TimesIsProduct(n - 1, m);
    }
  }

  /** Every event of the bursts is accepted. */
  lemma {:induction false} BurstsAccepted(maxEvents: nat, windowMs: nat, history: seq<int>, low: int, start: int, bursts: nat)
    requires windowMs > 0 && low <= start && Between(history, low, start - windowMs)
    ensures var end := History(maxEvents, windowMs, history, Bursts(maxEvents, windowMs, start, bursts));
            |end| == |history| + Times(bursts, maxEvents) && Between(end, low, start - windowMs + Times(bursts, windowMs))
    decreases bursts
  {
    if bursts > 0 {
      var rest := Bursts(maxEvents, windowMs, start + windowMs, bursts - 1);
      OneBurst(maxEvents, windowMs, history, low, start, rest);
      BurstsAccepted(maxEvents, windowMs, Grow(history, maxEvents, start), low, start + windowMs, bursts - 1);
    }
  }

  lemma {:induction false} AllInside(ts: seq<int>, from: int, len: nat)
    requires Between(ts, from, from + len)
    ensures InWindow(ts, from, len) == |ts|
    decreases |ts|
  {
    if ts != [] {
      AllInside(ts[..|ts| - 1], from, len);
    }
  }

  /** And that many are reached, by `maxEvents` calls at the start of the window and again every `windowMs`. */
  lemma ClosedWindowsAreFilled(maxEvents: nat, windowMs: int, from: int, len: nat)
    requires maxEvents > 0 && windowMs > 0
    ensures var calls := Bursts(maxEvents, windowMs, from, len / windowMs + 1);
            && Clock(from, calls)
            && InWindow(History(maxEvents, windowMs, [], calls), from, len) == Most(maxEvents, windowMs, len)
  {
    var n := len / windowMs + 1;
    BurstsClock(maxEvents, windowMs, from, n, from);
    BurstsAccepted(maxEvents, windowMs, [], from, from, n);
    TimesIsProduct(n, maxEvents);
    TimesIsProduct(n - 1, windowMs);
    assert Times(n, windowMs) - windowMs == len / windowMs * windowMs <= len;
    AllInside(History(maxEvents, windowMs, [], Bursts(maxEvents, windowMs, from, n)), from, len);
  }

  /** Every closed window of length `len` holds at most `maxEvents` accepted events, whatever the calls. */
  ghost predicate ClosedWindowsHold(maxEvents: nat, windowMs: int, len: nat) {
    forall last, calls, from :: Clock(last, calls) ==> InWindow(History(maxEvents, windowMs, [], calls), from, len) <= maxEvents
  }

  lemma MostOfShortAndLong(maxEvents: nat, windowMs: int, len: nat)
    requires maxEvents > 0 && windowMs > 0
    ensures len < windowMs ==> Most(maxEvents, windowMs, len) == maxEvents
    ensures len >= windowMs ==> Most(maxEvents, windowMs, len) > maxEvents
    ensures len == windowMs ==> Most(maxEvents, windowMs, len) == 2 * maxEvents
  {
    var q := len / windowMs;
    assert len >= windowMs ==> q >= 1;
    assert q >= 1 ==> q * maxEvents >= maxEvents;
  }

  lemma LongWindowsOverflow(maxEvents: nat, windowMs: int, len: nat)
    requires maxEvents > 0 && windowMs > 0 && Most(maxEvents, windowMs, len) > maxEvents
    ensures !ClosedWindowsHold(maxEvents, windowMs, len)
  {
    ClosedWindowsAreFilled(maxEvents, windowMs, 0, len);
  }

  lemma ShortWindowsHold(maxEvents: nat, windowMs: int, len: nat)
    requires maxEvents > 0 && windowMs > 0 && Most(maxEvents, windowMs, len) == maxEvents
    ensures ClosedWindowsHold(maxEvents, windowMs, len)
  {
    forall last, calls, from | Clock(last, calls)
      ensures InWindow(History(maxEvents, windowMs, [], calls), from, len) <= maxEvents
    {
      ClosedWindowsAreBounded(maxEvents, windowMs, last, calls, from, len);
    }
  }

  /**
   * A window closed at both ends keeps the maximum if and only if it is shorter than `windowMs`. One exactly that long
   * can hold twice the maximum, and no more: the events at its start are no longer counted at its end.
   */
  lemma ClosedWindowIff(maxEvents: nat, windowMs: int, len: nat)
    requires maxEvents > 0 && windowMs > 0
    ensures ClosedWindowsHold(maxEvents, windowMs, len) <==> len < windowMs
    ensures Most(maxEvents, windowMs, windowMs) == 2 * maxEvents
  {
    MostOfShortAndLong(maxEvents, windowMs, len);
    MostOfShortAndLong(maxEvents, windowMs, windowMs);
    if len < windowMs {
      ShortWindowsHold(maxEvents, windowMs, len);
    } else {
      LongWindowsOverflow(maxEvents, windowMs, len);
    }
  }
}
