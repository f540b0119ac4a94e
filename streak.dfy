/** The current-streak computation of the statistics route: a backward walk
    over the active days, sorted newest first, anchored at today or (one
    grace day) yesterday. */
module Streak {
  import opened Records

  /** `d` is the most recent of the active days. */
  predicate IsLatest(days: set<int>, d: int)
  {
    d in days && forall e :: e in days ==> e <= d
  }

  /** The length of the unbroken run of active days ending at `anchor`:
      `anchor, anchor - 1, ..., anchor - k + 1` are all active and
      `anchor - k` is not. */
  function Run(days: set<int>, anchor: int): (k: nat)
    ensures k <= |days|
    ensures forall d :: anchor - k < d <= anchor ==> d in days
    ensures anchor - k !in days
    decreases |days|
  {
    if anchor in days then
      var rest := Run(days - {anchor}, anchor - 1);
      assert forall d :: anchor - 1 - rest < d <= anchor ==> d in days by {
        forall d | anchor - 1 - rest < d <= anchor ensures d in days {
          if d < anchor {
            assert d in days - {anchor};
          }
        }
      }
      1 + rest
    else 0
  }

  /** The two ensures of `Run` pin its value down. */
  lemma RunUnique(days: set<int>, anchor: int, k: nat)
    requires forall d :: anchor - k < d <= anchor ==> d in days
    requires anchor - k !in days
    ensures Run(days, anchor) == k
  {
  }

  /** The streak as the route defines it: zero unless the most recent active
      day is today or yesterday; otherwise the run ending at that day. */
  function StreakSpec(days: set<int>, today: int): (streak: nat)
    ensures streak <= |days|
  {
    if IsLatest(days, today) then Run(days, today)
    else if IsLatest(days, today - 1) then Run(days, today - 1)
    else 0
  }

  /** Every non-empty set of days has a most recent one. */
  lemma {:induction false} LatestExists(days: set<int>)
    requires days != {}
    ensures exists m :: IsLatest(days, m)
    decreases |days|
  {
    if forall e :: e !in days {
      assert false;
    }
    var x :| x in days;
    var rest := days - {x};
    if rest == {} {
      assert days == {x};
      assert IsLatest(days, x);
    } else {
      LatestExists(rest);
      var m :| IsLatest(rest, m);
      var top := if x > m then x else m;
      forall e | e in days ensures e <= top {
        if e != x {
          assert e in rest;
        }
      }
      assert IsLatest(days, top);
    }
  }

  function Latest(days: set<int>): (m: int)
    requires days != {}
    ensures IsLatest(days, m)
  {
    LatestExists(days);
    var m :| IsLatest(days, m);
    m
  }

  /** The active days turned back into dates and sorted by time, newest
      first: each day once, in strictly decreasing order. */
  function SortedDesc(days: set<int>): (sorted: seq<int>)
    ensures |sorted| == |days|
    ensures forall i :: 0 <= i < |sorted| ==> sorted[i] in days
    ensures forall d :: d in days ==> d in sorted
    ensures forall i, j :: 0 <= i < j < |sorted| ==> sorted[i] > sorted[j]
    decreases |days|
  {
    if days == {} then []
    else
      var m := Latest(days);
      [m] + SortedDesc(days - {m})
  }

  /** The backward walk stops exactly at the first missing day: when the
      first `k` sorted days are `anchor, anchor - 1, ...` and the next one
      (if any) breaks the pattern, the run from `anchor` has length `k`. */
  lemma WalkStopsAtGap(days: set<int>, anchor: int, k: nat)
    requires 0 < k <= |SortedDesc(days)|
    requires forall j :: 0 <= j < k ==> SortedDesc(days)[j] == anchor - j
    requires k == |SortedDesc(days)| || SortedDesc(days)[k] != anchor - k
    ensures Run(days, anchor) == k
  {
    var sorted := SortedDesc(days);
    forall d | anchor - k < d <= anchor ensures d in days {
      var j := anchor - d;
      assert sorted[j] == d;
    }
    GapNotInSorted(sorted, anchor, k);
    RunUnique(days, anchor, k);
  }

  /** In a strictly decreasing sequence that starts `anchor, anchor - 1, ...`
      for `k` entries and then breaks the pattern, `anchor - k` does not occur. */
  lemma GapNotInSorted(sorted: seq<int>, anchor: int, k: nat)
    requires forall i, j :: 0 <= i < j < |sorted| ==> sorted[i] > sorted[j]
    requires 0 < k <= |sorted|
    requires forall j :: 0 <= j < k ==> sorted[j] == anchor - j
    requires k == |sorted| || sorted[k] != anchor - k
    ensures anchor - k !in sorted
  {
    forall i | 0 <= i < |sorted| ensures sorted[i] != anchor - k {
      if i > k {
        assert sorted[k - 1] > sorted[k];
        assert sorted[k] > sorted[i];
      }
    }
  }

  /** The newest sorted day is the latest active day, so the streak is
      decided by comparing it with today and yesterday. */
  lemma StreakFromNewest(days: set<int>, today: int)
    requires days != {}
    ensures var top := SortedDesc(days)[0];
      StreakSpec(days, today) == if top == today || top == today - 1 then Run(days, top) else 0
  {
  }

  /** The streak loop of the route. `now` stands for the clock reading. */
  method CurrentStreak(days: set<int>, now: Timestamp) returns (currentStreak: nat)
    ensures currentStreak == StreakSpec(days, DayOf(now))
  {
    var sortedDates := SortedDesc(days);
    currentStreak := 0;
    if |sortedDates| > 0 {
      var today := DayOf(now);
      var yesterday := DayOf(now - MsPerDay);
      DayBefore(now);
      StreakFromNewest(days, today);
      if sortedDates[0] == today || sortedDates[0] == yesterday {
        var checkDate := if sortedDates[0] == today then today else sortedDates[0];
        for i := 0 to |sortedDates|
          invariant currentStreak == i
          invariant forall j :: 0 <= j < i ==> sortedDates[j] == checkDate - j
        {
          if sortedDates[i] == checkDate - currentStreak {
            currentStreak := currentStreak + 1;
          } else {
            break;
          }
        }
        WalkStopsAtGap(days, checkDate, currentStreak);
      }
    }
  }

  /** No activity today or yesterday resets the streak, whatever came before. */
  lemma StreakZeroWithoutRecentDay(days: set<int>, today: int)
    requires today !in days && today - 1 !in days
    ensures StreakSpec(days, today) == 0
  {
  }

  /** When today is the latest active day, the streak is the unbroken run of
      active days ending today. */
  lemma StreakFromToday(days: set<int>, today: int)
    requires IsLatest(days, today)
    ensures var s := StreakSpec(days, today);
      s >= 1 && (forall d :: today - s < d <= today ==> d in days) && today - s !in days
  {
  }

  /** Grace day: no session today but one yesterday (and none later) keeps
      the run ending yesterday. */
  lemma StreakFromYesterday(days: set<int>, today: int)
    requires today !in days && today - 1 in days
    requires forall e :: e in days ==> e <= today
    ensures var s := StreakSpec(days, today);
      s >= 1 && (forall d :: today - 1 - s < d <= today - 1 ==> d in days) && today - 1 - s !in days
  {
  }

  /** Sessions today, yesterday and the day before, but not three days ago,
      give a streak of three. */
  lemma ThreeDayStreak(days: set<int>, today: int)
    requires today in days && today - 1 in days && today - 2 in days && today - 3 !in days
    requires forall e :: e in days ==> e <= today
    ensures StreakSpec(days, today) == 3
  {
  }

  /** As written, an active day later than today (a session dated in the
      future) makes the streak zero, even when today is active. */
  lemma StreakZeroAfterFutureDay(days: set<int>, today: int, future: int)
    requires future in days && future > today
    ensures StreakSpec(days, today) == 0
  {
  }
}
