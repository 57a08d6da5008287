/**
  The two process-wide admission gates of `lib/rate.ts` that keep upstream
  calls within quota: a sliding 60-second window over the timestamps of
  granted calls, and a counter that restarts on each new calendar day.
  The clock readings are passed in: `now` for `Date.now()` (milliseconds) and
  `today` for `new Date().toDateString()`.
 */
module Rate {

  /** Width of the sliding window in milliseconds. */
  const WindowMillis: int := 60000

  /** Default per-minute and per-day limits of the two gates. */
  const DefaultMinuteLimit: int := 5
  const DefaultDayLimit: int := 25

  ghost predicate Sorted(s: seq<int>)
  {
    forall i, j :: 0 <= i <= j < |s| ==> s[i] <= s[j]
  }

  ghost predicate NotAfter(s: seq<int>, now: int)
  {
    forall i :: 0 <= i < |s| ==> s[i] <= now
  }

  ghost predicate WithinWindow(s: seq<int>, now: int)
  {
    forall i :: 0 <= i < |s| ==> now - s[i] <= WindowMillis
  }

  // ---------------------------------------------------------------------------
  // Sliding 60-second window

  /** The hit list after dropping, from the front, every hit more than a minute older than `now`. */
  function Pruned(hits: seq<int>, now: int): (kept: seq<int>)
    decreases |hits|
  {
    if |hits| > 0 && now - hits[0] > WindowMillis then Pruned(hits[1..], now) else hits
  }

  /** Pruning keeps a suffix of the hit list, and every hit it drops is stale. */
  lemma {:induction false} PrunedSuffix(hits: seq<int>, now: int)
    ensures |Pruned(hits, now)| <= |hits|
    ensures Pruned(hits, now) == hits[|hits| - |Pruned(hits, now)|..]
    ensures forall i :: 0 <= i < |hits| - |Pruned(hits, now)| ==> now - hits[i] > WindowMillis
  {
    if |hits| > 0 && now - hits[0] > WindowMillis {
      PrunedSuffix(hits[1..], now);
      var p := Pruned(hits[1..], now);
      assert hits[1..][|hits| - 1 - |p|..] == hits[|hits| - |p|..];
      forall i | 1 <= i < |hits| - |p|
        ensures now - hits[i] > WindowMillis
      {
        assert hits[i] == hits[1..][i - 1];
      }
    }
  }

  /** Pruning stops at the first hit that is not stale. */
  lemma PrunedHead(hits: seq<int>, now: int)
    ensures |Pruned(hits, now)| > 0 ==> now - Pruned(hits, now)[0] <= WindowMillis
  {
  }

  /** On a chronologically ordered list, every hit that survives pruning lies within the window. */
  lemma {:induction false} PrunedRecent(hits: seq<int>, now: int)
    requires Sorted(hits)
    ensures Sorted(Pruned(hits, now))
    ensures WithinWindow(Pruned(hits, now), now)
  {
    PrunedSuffix(hits, now);
    PrunedHead(hits, now);
    var p := Pruned(hits, now);
    var d := |hits| - |p|;
    forall i | 0 <= i < |p|
      ensures now - p[i] <= WindowMillis
    {
      assert p[0] == hits[d] && p[i] == hits[d + i];
    }
  }

  /** A list with no stale hit is left untouched by pruning. */
  lemma PrunedKeepsRecent(hits: seq<int>, now: int)
    requires WithinWindow(hits, now)
    ensures Pruned(hits, now) == hits
  {
  }

  /** Pruning twice at the same instant prunes nothing more. */
  lemma {:induction false} PrunedIdempotent(hits: seq<int>, now: int)
    ensures Pruned(Pruned(hits, now), now) == Pruned(hits, now)
    decreases |hits|
  {
    if |hits| > 0 && now - hits[0] > WindowMillis {
      PrunedIdempotent(hits[1..], now);
    }
  }

  /** Whether the per-minute gate grants a call at `now`. */
  function MinuteAdmits(hits: seq<int>, now: int, limit: int): (granted: bool)
  {
    |Pruned(hits, now)| < limit
  }

  /** The hit list after a per-minute check at `now`: pruned, and `now` appended on a grant. */
  function MinuteAfter(hits: seq<int>, now: int, limit: int): (after: seq<int>)
  {
    if MinuteAdmits(hits, now, limit) then Pruned(hits, now) + [now] else Pruned(hits, now)
  }

  /** With a fixed limit, the hit list never holds more than `limit` timestamps. */
  lemma MinuteBounded(hits: seq<int>, now: int, limit: int)
    requires |hits| <= limit
    ensures |MinuteAfter(hits, now, limit)| <= limit
  {
    PrunedSuffix(hits, now);
  }

  /**
    With a clock that does not run backwards, the hit list stays in
    chronological order and, after each check, lies within the window.
   */
  lemma MinuteOrdered(hits: seq<int>, now: int, limit: int)
    requires Sorted(hits) && NotAfter(hits, now)
    ensures Sorted(MinuteAfter(hits, now, limit))
    ensures NotAfter(MinuteAfter(hits, now, limit), now)
    ensures WithinWindow(MinuteAfter(hits, now, limit), now)
  {
    PrunedSuffix(hits, now);
    PrunedRecent(hits, now);
    var p := Pruned(hits, now);
    var d := |hits| - |p|;
    assert forall i :: 0 <= i < |p| ==> p[i] == hits[d + i];
  }

  /** A minute limit of zero, or below, refuses every call. */
  lemma MinuteZeroLimitDenies(hits: seq<int>, now: int, limit: int)
    requires limit <= 0
    ensures !MinuteAdmits(hits, now, limit)
    ensures MinuteAfter(hits, now, limit) == Pruned(hits, now)
  {
  }

  /** When the window is full and its oldest hit has aged past a minute, the next call is granted. */
  lemma {:induction false} MinuteSlotFrees(hits: seq<int>, now: int, limit: int)
    requires |hits| <= limit
    requires |hits| > 0 && now - hits[0] > WindowMillis
    ensures MinuteAdmits(hits, now, limit)
  {
    PrunedSuffix(hits[1..], now);
  }

  /** The verdicts of successive per-minute checks at the instants `nows`. */
  function MinuteVerdicts(hits: seq<int>, nows: seq<int>, limit: int): (verdicts: seq<bool>)
    decreases |nows|
  {
    if nows == [] then []
    else [MinuteAdmits(hits, nows[0], limit)] + MinuteVerdicts(MinuteAfter(hits, nows[0], limit), nows[1..], limit)
  }

  /**
    Calls that all fall within one minute after `base`, on a window whose hits
    are all at or after `base`, are granted while the window has room and
    refused from then on: the i-th is granted iff `|hits| + i < limit`.
   */
  lemma {:induction false} MinuteBurst(hits: seq<int>, nows: seq<int>, limit: int, base: int)
    requires forall i :: 0 <= i < |hits| ==> base <= hits[i]
    requires forall i :: 0 <= i < |nows| ==> base <= nows[i] <= base + WindowMillis
    ensures MinuteVerdicts(hits, nows, limit) == seq(|nows|, i => |hits| + i < limit)
    decreases |nows|
  {
    if nows != [] {
      var now := nows[0];
      PrunedKeepsRecent(hits, now);
      var next := MinuteAfter(hits, now, limit);
      assert forall i :: 0 <= i < |next| ==> base <= next[i];
      MinuteBurst(next, nows[1..], limit, base);
      if |hits| < limit {
        assert |next| == |hits| + 1;
      } else {
        assert |next| == |hits|;
      }
    }
  }

  /** From an empty window, exactly the first `limit` of a burst within one minute are granted. */
  lemma MinuteBurstFromEmpty(nows: seq<int>, limit: int)
    requires forall i :: 0 <= i < |nows| ==> nows[0] <= nows[i] <= nows[0] + WindowMillis
    ensures MinuteVerdicts([], nows, limit) == seq(|nows|, i => i < limit)
  {
    if nows != [] {
      MinuteBurst([], nows, limit, nows[0]);
    }
  }

  /** Three rapid calls against a limit of two: granted, granted, refused. */
  lemma MinuteCapOfTwo(t: int)
    ensures MinuteVerdicts([], [t, t, t], 2) == [true, true, false]
  {
    MinuteBurstFromEmpty([t, t, t], 2);
  }

  // ---------------------------------------------------------------------------
  // Fixed calendar-day window

  /** The day counter in force for a check on `today`: zero when the day has changed. */
  function CountOn(dayCount: nat, dayStart: string, today: string): (count: nat)
  {
    if today != dayStart then 0 else dayCount
  }

  /** Whether the per-day gate grants a call on `today`. */
  function DayAdmits(dayCount: nat, dayStart: string, today: string, limit: int): (granted: bool)
  {
    CountOn(dayCount, dayStart, today) < limit
  }

  /** The day counter after a per-day check on `today`. */
  function DayCountAfter(dayCount: nat, dayStart: string, today: string, limit: int): (count: nat)
  {
    if DayAdmits(dayCount, dayStart, today, limit) then CountOn(dayCount, dayStart, today) + 1
    else CountOn(dayCount, dayStart, today)
  }

  /** With a fixed limit, the day counter never exceeds `limit`. */
  lemma DayBounded(dayCount: nat, dayStart: string, today: string, limit: int)
    requires dayCount <= limit
    ensures DayCountAfter(dayCount, dayStart, today, limit) <= limit
  {
  }

  /** A day limit of zero, or below, refuses every call and leaves the counter where the rollover put it. */
  lemma DayZeroLimitDenies(dayCount: nat, dayStart: string, today: string, limit: int)
    requires limit <= 0
    ensures !DayAdmits(dayCount, dayStart, today, limit)
    ensures DayCountAfter(dayCount, dayStart, today, limit) == CountOn(dayCount, dayStart, today)
  {
  }

  /** On a new day the counter restarts at zero before the check: the first call is granted iff `limit > 0`. */
  lemma DayRollover(dayCount: nat, dayStart: string, today: string, limit: int)
    requires today != dayStart
    ensures DayAdmits(dayCount, dayStart, today, limit) <==> 0 < limit
    ensures DayCountAfter(dayCount, dayStart, today, limit) == if 0 < limit then 1 else 0
  {
  }

  /** The verdicts of successive per-day checks on the days `todays`. */
  function DayVerdicts(dayCount: nat, dayStart: string, todays: seq<string>, limit: int): (verdicts: seq<bool>)
    decreases |todays|
  {
    if todays == [] then []
    else [DayAdmits(dayCount, dayStart, todays[0], limit)] +
         DayVerdicts(DayCountAfter(dayCount, dayStart, todays[0], limit), todays[0], todays[1..], limit)
  }

  /** The day counter after successive per-day checks on the days `todays`. */
  function DayCountAfterAll(dayCount: nat, dayStart: string, todays: seq<string>, limit: int): (count: nat)
    decreases |todays|
  {
    if todays == [] then dayCount
    else DayCountAfterAll(DayCountAfter(dayCount, dayStart, todays[0], limit), todays[0], todays[1..], limit)
  }

  /**
    Calls all made on day `day`, starting from counter `c` anchored at `day`:
    the i-th is granted iff `c + i < limit`, and the counter ends at `c` plus
    the number granted.
   */
  lemma {:induction false} DayBurst(c: nat, day: string, todays: seq<string>, limit: int)
    requires forall i :: 0 <= i < |todays| ==> todays[i] == day
    ensures DayVerdicts(c, day, todays, limit) == seq(|todays|, i => c + i < limit)
    ensures DayCountAfterAll(c, day, todays, limit) ==
              if c >= limit then c else if c + |todays| <= limit then c + |todays| else limit
    decreases |todays|
  {
    if todays != [] {
      var next := DayCountAfter(c, day, todays[0], limit);
      DayBurst(next, day, todays[1..], limit);
    }
  }

  /**
    The first calls on a new calendar day: exactly the first `limit` are
    granted and the counter reflects only this day's grants.
   */
  lemma DayBurstAfterRollover(dayCount: nat, dayStart: string, todays: seq<string>, limit: int)
    requires |todays| > 0 && todays[0] != dayStart
    requires forall i :: 0 <= i < |todays| ==> todays[i] == todays[0]
    ensures DayVerdicts(dayCount, dayStart, todays, limit) == seq(|todays|, i => i < limit)
    ensures DayCountAfterAll(dayCount, dayStart, todays, limit) ==
              if limit <= 0 then 0 else if |todays| <= limit then |todays| else limit
  {
    var c1 := DayCountAfter(dayCount, dayStart, todays[0], limit);
    DayBurst(c1, todays[0], todays[1..], limit);
  }

  // ---------------------------------------------------------------------------
  // The process-wide gate state

  class RateGuard {
    /** Timestamps of granted calls, oldest first. */
    var minuteHits: seq<int>
    /** Calls granted since the day `dayStart` began. */
    var dayCount: nat
    /** The calendar day the counter belongs to. */
    var dayStart: string

    /** The state at process start: no hits, counter zero, anchored at the start-up day. */
    constructor (today: string)
      ensures minuteHits == [] && dayCount == 0 && dayStart == today
    {
      minuteHits := [];
      dayCount := 0;
      dayStart := today;
    }

    /**
      The per-minute gate: drop stale hits from the front, refuse when the
      window is full, otherwise record `now` and grant.
     */
    method GuardPerMinute(now: int, limit: int := DefaultMinuteLimit) returns (granted: bool)
      modifies this`minuteHits
      ensures granted == MinuteAdmits(old(minuteHits), now, limit)
      ensures minuteHits == MinuteAfter(old(minuteHits), now, limit)
      ensures |old(minuteHits)| <= limit ==> |minuteHits| <= limit
      ensures Sorted(old(minuteHits)) && NotAfter(old(minuteHits), now) ==>
                Sorted(minuteHits) && NotAfter(minuteHits, now) && WithinWindow(minuteHits, now)
      ensures dayCount == old(dayCount) && dayStart == old(dayStart)
    {
      ghost var before := minuteHits;
      if Sorted(before) && NotAfter(before, now) {
        MinuteOrdered(before, now, limit);
      }
      while |minuteHits| > 0 && now - minuteHits[0] > WindowMillis
        invariant Pruned(minuteHits, now) == Pruned(old(minuteHits), now)
        invariant |minuteHits| <= |old(minuteHits)|
        decreases |minuteHits|
      {
        minuteHits := minuteHits[1..];
      }
      if |minuteHits| >= limit {
        return false;
      }
      minuteHits := minuteHits + [now];
      return true;
    }

    /**
      The per-day gate: restart the counter when the day has changed, refuse
      at the limit, otherwise count the call and grant.
     */
    method GuardPerDay(today: string, limit: int := DefaultDayLimit) returns (granted: bool)
      modifies this`dayCount, this`dayStart
      ensures granted == DayAdmits(old(dayCount), old(dayStart), today, limit)
      ensures dayCount == DayCountAfter(old(dayCount), old(dayStart), today, limit)
      ensures dayStart == today
      ensures old(dayCount) <= limit ==> dayCount <= limit
      ensures minuteHits == old(minuteHits)
    {
      if today != dayStart {
        dayStart := today;
        dayCount := 0;
      }
      if dayCount >= limit {
        return false;
      }
      dayCount := dayCount + 1;
      return true;
    }

    /** The number of calls granted on the current day. */
    method GetDailyCount() returns (count: nat)
      ensures count == dayCount
    {
      return dayCount;
    }
  }
}
