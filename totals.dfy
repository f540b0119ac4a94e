/** The reductions of the statistics route: total repetitions, the set of
    active calendar days, and the per-day repetition totals. */
module StatsTotals {
  import opened Records

  /** `sessions.reduce((sum, s) => sum + s.count, 0)`: zero exactly when
      every session has count zero. */
  function SumCounts(sessions: seq<MantraSession>): (total: nat)
    ensures total == 0 <==> forall i :: 0 <= i < |sessions| ==> sessions[i].count == 0
  {
    if sessions == [] then 0
    else
      var rest := SumCounts(sessions[1..]);
      assert forall i :: 1 <= i < |sessions| ==> sessions[i] == sessions[1..][i - 1];
      sessions[0].count + rest
  }

  /** The total does not depend on how the sessions are grouped. */
  lemma {:induction false} SumCountsAppend(a: seq<MantraSession>, b: seq<MantraSession>)
    ensures SumCounts(a + b) == SumCounts(a) + SumCounts(b)
  {
    if a != [] {
      assert (a + b)[1..] == a[1..] + b;
      SumCountsAppend(a[1..], b);
    } else {
      assert a + b == b;
    }
  }

  /** With every count at least one, there are at least as many repetitions
      as sessions. */
  lemma {:induction false} SumCountsAtLeastSessions(sessions: seq<MantraSession>)
    requires PositiveCounts(sessions)
    ensures SumCounts(sessions) >= |sessions|
  {
    if sessions != [] {
      assert PositiveCounts(sessions[1..]) by {
        forall i | 0 <= i < |sessions[1..]| ensures sessions[1..][i].count >= 1 {
          assert sessions[1..][i] == sessions[i + 1];
        }
      }
      SumCountsAtLeastSessions(sessions[1..]);
    }
  }

  /** `new Set(sessions.map(s => s.date.toDateString()))`, built by adding
      the days one session at a time: the distinct calendar days that carry
      at least one session, and never more of them than sessions
      (`activeDays <= sessions.length`). */
  function DaySet(sessions: seq<MantraSession>): (days: set<int>)
    ensures forall i :: 0 <= i < |sessions| ==> DayOf(sessions[i].date) in days
    ensures forall d :: d in days ==> exists i :: 0 <= i < |sessions| && DayOf(sessions[i].date) == d
    ensures |days| <= |sessions|
  {
    if sessions == [] then {}
    else
      var rest := sessions[1..];
      var later := DaySet(rest);
      assert forall i :: 1 <= i < |sessions| ==> sessions[i] == rest[i - 1];
      assert forall d :: d in later ==> exists i :: 0 <= i < |sessions| && DayOf(sessions[i].date) == d by {
        forall d | d in later ensures exists i :: 0 <= i < |sessions| && DayOf(sessions[i].date) == d {
          var j :| 0 <= j < |rest| && DayOf(rest[j].date) == d;
          assert sessions[j + 1] == rest[j];
        }
      }
      {DayOf(sessions[0].date)} + later
  }

  /** The sessions whose calendar day lies in `lo..hi` (both included),
      in their original order. */
  function SessionsIn(sessions: seq<MantraSession>, lo: int, hi: int): seq<MantraSession>
  {
    if sessions == [] then []
    else if lo <= DayOf(sessions[0].date) <= hi then [sessions[0]] + SessionsIn(sessions[1..], lo, hi)
    else SessionsIn(sessions[1..], lo, hi)
  }

  /** `sessions.filter(s => s.date.toDateString() === dateString)
      .reduce((sum, s) => sum + s.count, 0)`: never more than the total of
      all sessions. */
  function DayTotal(sessions: seq<MantraSession>, day: int): (total: nat)
    ensures total <= SumCounts(sessions)
  {
    SessionsInAtMostTotal(sessions, day, day);
    SumCounts(SessionsIn(sessions, day, day))
  }

  /** Keeping only some sessions never raises the total. */
  lemma {:induction false} SessionsInAtMostTotal(sessions: seq<MantraSession>, lo: int, hi: int)
    ensures SumCounts(SessionsIn(sessions, lo, hi)) <= SumCounts(sessions)
  {
    if sessions != [] {
      SessionsInAtMostTotal(sessions[1..], lo, hi);
    }
  }

  /** A day on which no session falls has total zero. */
  lemma {:induction false} InactiveDayTotalIsZero(sessions: seq<MantraSession>, day: int)
    requires forall i :: 0 <= i < |sessions| ==> DayOf(sessions[i].date) != day
    ensures DayTotal(sessions, day) == 0
  {
    if sessions != [] {
      assert forall i :: 1 <= i < |sessions| ==> sessions[1..][i - 1] == sessions[i];
      InactiveDayTotalIsZero(sessions[1..], day);
    }
  }

  /** With positive counts, a day has a positive total exactly when it is an
      active day. */
  lemma {:induction false} DayTotalPositiveIffActive(sessions: seq<MantraSession>, day: int)
    requires PositiveCounts(sessions)
    ensures DayTotal(sessions, day) > 0 <==> day in DaySet(sessions)
  {
    if sessions != [] {
      assert PositiveCounts(sessions[1..]) by {
        forall i | 0 <= i < |sessions[1..]| ensures sessions[1..][i].count >= 1 {
          assert sessions[1..][i] == sessions[i + 1];
        }
      }
      DayTotalPositiveIffActive(sessions[1..], day);
      assert sessions[0].count >= 1;
    }
  }

  /** Splitting the last day off a window of days splits its total. */
  lemma {:induction false} WindowSplitLast(sessions: seq<MantraSession>, lo: int, hi: int)
    requires lo <= hi
    ensures SumCounts(SessionsIn(sessions, lo, hi))
         == SumCounts(SessionsIn(sessions, lo, hi - 1)) + DayTotal(sessions, hi)
  {
    if sessions != [] {
      WindowSplitLast(sessions[1..], lo, hi);
    }
  }
}
