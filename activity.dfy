/** The 30-day activity series of the statistics route: one entry per
    calendar day ending today, oldest first. */
module DailyActivity {
  import opened Records
  import opened StatsTotals

  /** Number of days the series covers. */
  const WindowDays: nat := 30

  /** One point of the series. `date` is the calendar day; the route writes
      it as its `YYYY-MM-DD` text. */
  datatype DailyCount = DailyCount(date: int, count: nat)

  /** The series for the `n` days starting at `first`. */
  function Series(sessions: seq<MantraSession>, first: int, n: nat): seq<DailyCount>
  {
    seq(n, k requires 0 <= k < n => DailyCount(first + k, DayTotal(sessions, first + k)))
  }

  /** The series the route reports for `today`. */
  function Activity(sessions: seq<MantraSession>, today: int): seq<DailyCount>
  {
    Series(sessions, today - (WindowDays - 1), WindowDays)
  }

  /** Sum of the counts of a series. */
  function SeriesTotal(series: seq<DailyCount>): nat
  {
    if series == [] then 0 else SeriesTotal(series[..|series| - 1]) + series[|series| - 1].count
  }

  /** The activity loop of the route. `now` stands for the clock reading. */
  method ComputeDailyActivity(sessions: seq<MantraSession>, now: Timestamp)
    returns (dailyActivity: seq<DailyCount>)
    ensures |dailyActivity| == WindowDays
    ensures forall k :: 0 <= k < |dailyActivity| ==>
      dailyActivity[k] == DailyCount(DayOf(now) - (WindowDays - 1) + k,
                                     DayTotal(sessions, DayOf(now) - (WindowDays - 1) + k))
    ensures dailyActivity == Activity(sessions, DayOf(now))
  {
    var today := DayOf(now);
    dailyActivity := [];
    for i := WindowDays downto 0
      invariant |dailyActivity| == WindowDays - i
      invariant forall k :: 0 <= k < |dailyActivity| ==>
        dailyActivity[k] == DailyCount(today - (WindowDays - 1) + k, DayTotal(sessions, today - (WindowDays - 1) + k))
    {
      var date := today - i;
      var dayTotal := DayTotal(sessions, date);
      dailyActivity := dailyActivity + [DailyCount(date, dayTotal)];
    }
  }

  /** The series the loop builds is `Activity`; its last entry is today. */
  lemma ActivityIsLoopResult(sessions: seq<MantraSession>, today: int)
    ensures var series := Activity(sessions, today);
      |series| == WindowDays && series[WindowDays - 1].date == today &&
      forall k :: 0 <= k < WindowDays ==>
        series[k].date == today - (WindowDays - 1) + k &&
        series[k].count == DayTotal(sessions, today - (WindowDays - 1) + k)
  {
  }

  /** The total of a window of days is the total of the sessions falling in
      that window. */
  lemma {:induction false} SeriesTotalIsWindowTotal(sessions: seq<MantraSession>, first: int, n: nat)
    ensures SeriesTotal(Series(sessions, first, n))
         == SumCounts(SessionsIn(sessions, first, first + n - 1))
  {
    var series := Series(sessions, first, n);
    if n == 0 {
      EmptyWindow(sessions, first, first - 1);
    } else {
      SeriesTotalIsWindowTotal(sessions, first, n - 1);
      assert series[..n - 1] == Series(sessions, first, n - 1);
      WindowSplitLast(sessions, first, first + n - 1);
    }
  }

  /** A window whose last day precedes its first holds no session. */
  lemma {:induction false} EmptyWindow(sessions: seq<MantraSession>, lo: int, hi: int)
    requires hi < lo
    ensures SessionsIn(sessions, lo, hi) == []
  {
    if sessions != [] {
      EmptyWindow(sessions[1..], lo, hi);
    }
  }

  /** The 30-day series adds up to the repetitions logged in the last 30
      days, hence to at most `totalRepetitions`. */
  lemma ActivityTotalBound(sessions: seq<MantraSession>, today: int)
    ensures SeriesTotal(Activity(sessions, today)) == SumCounts(SessionsIn(sessions, today - (WindowDays - 1), today))
    ensures SeriesTotal(Activity(sessions, today)) <= SumCounts(sessions)
  {
    SeriesTotalIsWindowTotal(sessions, today - (WindowDays - 1), WindowDays);
    SessionsInAtMostTotal(sessions, today - (WindowDays - 1), today);
  }

  /** With no sessions every entry of the series is zero. */
  lemma NoSessionsNoActivity(today: int)
    ensures forall k :: 0 <= k < WindowDays ==> Activity([], today)[k].count == 0
  {
    forall k | 0 <= k < WindowDays ensures Activity([], today)[k].count == 0 {
      InactiveDayTotalIsZero([], today - (WindowDays - 1) + k);
    }
  }
}
