/** Record shapes kept by the mantra tracker's store, and the calendar-day
    abstraction used by the statistics. */
module Records {

  datatype Option<T> = None | Some(value: T)

  /** Milliseconds since the Unix epoch, as a JavaScript `Date` holds them. */
  type Timestamp = int

  const MsPerDay: int := 24 * 60 * 60 * 1000

  /** A user-defined repetition target. */
  datatype Mantra = Mantra(
    id: string,
    userId: string,
    title: string,
    text: string,
    goal: int,
    createdAt: Timestamp,
    updatedAt: Timestamp)

  /** One logged practice event against a mantra. */
  datatype MantraSession = MantraSession(
    id: string,
    userId: string,
    mantraId: string,
    count: nat,
    date: Timestamp)

  /** Every session records at least one repetition, as the session route's
      validation demands before a session is stored. */
  predicate PositiveCounts(sessions: seq<MantraSession>)
  {
    forall i :: 0 <= i < |sessions| ==> sessions[i].count >= 1
  }

  /** The calendar day (days since the epoch day) on which a timestamp falls. */
  function DayOf(t: Timestamp): (day: int)
    ensures day * MsPerDay <= t < (day + 1) * MsPerDay
  {
    t / MsPerDay
  }

  /** "24 hours earlier" always lands on the previous calendar day. */
  lemma DayBefore(t: Timestamp)
    ensures DayOf(t - MsPerDay) == DayOf(t) - 1
  {
    var d := DayOf(t);
    assert (d - 1) * MsPerDay <= t - MsPerDay < d * MsPerDay;
    var e := DayOf(t - MsPerDay);
    assert e * MsPerDay <= t - MsPerDay < (e + 1) * MsPerDay;
  }
}
