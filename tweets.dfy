/** The values the tweet-window logic works on: tweets, the time window and
    minute-granular comparison of timestamps. */
module Tweets {

  /** Seconds since the Unix epoch, UTC; an already-parsed `created_at`. */
  type Timestamp = int

  /** A tweet author's `user.id`. */
  type UserId = int

  /** The two fields of a status the core reads: `created_at` and `user.id`. */
  datatype Tweet = Tweet(createdAt: Timestamp, userId: UserId)

  /** The `{ startHour, currentHour }` object handed to the filters. */
  datatype Window = Window(startHour: Timestamp, currentHour: Timestamp)

  /** The minute a timestamp falls in, counted from the epoch (rounded down,
      also before 1970, as truncating a moment to the start of its minute does). */
  function Minute(t: Timestamp): (m: int)
    ensures 60 * m <= t < 60 * m + 60
  {
    t / 60
  }

  /** `isBetween(startHour, currentHour, 'minutes', '[]')`: both ends inclusive,
      compared after truncating each timestamp to its minute. */
  predicate InWindow(t: Timestamp, w: Window)
  {
    Minute(w.startHour) <= Minute(t) <= Minute(w.currentHour)
  }

  /** In seconds, the window runs from the first second of the start minute to
      the last second of the end minute. */
  lemma InWindowSeconds(t: Timestamp, w: Window)
    ensures InWindow(t, w) <==>
      60 * Minute(w.startHour) <= t < 60 * Minute(w.currentHour) + 60
  {
    var ms, me, mt := Minute(w.startHour), Minute(w.currentHour), Minute(t);
    if 60 * ms <= t < 60 * me + 60 {
      assert 60 * ms < 60 * mt + 60 && 60 * mt < 60 * me + 60;
    }
  }

  /** Every timestamp between the two ends, in seconds, is in the window; the
      window is wider than that only by the rest of the two end minutes. */
  lemma InWindowCoversExactRange(t: Timestamp, w: Window)
    requires w.startHour <= t <= w.currentHour
    ensures InWindow(t, w)
  {
    InWindowSeconds(t, w);
  }

  /** A tweet 35 seconds after the end of the window, in the same minute as the
      end, still counts; one in the next minute does not. */
  lemma InWindowMinuteGranularity()
    ensures InWindow(37845, Window(34200, 37810))
    ensures !InWindow(37860, Window(34200, 37810))
  {
  }
}
