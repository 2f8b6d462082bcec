/** Crash-safe cadence of the durable schedule, and what the wall-clock mode really anchors to. */
module ScheduleLaws {
  import opened Options
  import opened DurableSchedule
  import opened FundSchedule

  // ---- the wall-clock anchor ----

  predicate AnchorInstant(time: int, hour: int) {
    time % DAY == hour % 24 * HOUR
  }

  /** The delay leads to an anchor instant strictly later than now, at most a day away, and no anchor
      instant lies strictly between. */
  lemma NextAnchor(now: int, hour: int)
    ensures AnchorInstant(now + UntilHour(now, hour), hour)
    ensures forall time :: now < time && AnchorInstant(time, hour) ==> now + UntilHour(now, hour) <= time
  {
    var target := now - now % DAY + hour % 24 * HOUR;
    assert target % DAY == hour % 24 * HOUR;
    assert (target + DAY) % DAY == hour % 24 * HOUR;
    forall time | now < time && AnchorInstant(time, hour)
      ensures now + UntilHour(now, hour) <= time
    {
      assert time - time % DAY == time / DAY * DAY && now - now % DAY == now / DAY * DAY;
      assert time / DAY >= now / DAY;
    }
  }

  function NextAnchorMs(now: int, hour: int): int {
    (now + UntilHour(now, hour)) / MS
  }

  /** A wall-clock due time, seeded or advanced, is the anchor plus the milliseconds begun between the two
      clock readings, except that both truncations fall on the same side: it is one millisecond early
      exactly when both readings lie strictly inside one millisecond. */
  lemma WallclockDue(now: int, later: int, hour: int)
    requires now <= later
    ensures NextAnchorMs(now, hour) * MS == now + UntilHour(now, hour)
    ensures var due := DueAfter(later, UntilHour(now, hour));
            && NextAnchorMs(now, hour) - 1 <= due <= NextAnchorMs(now, hour) + (later - now) / MS + 1
            && (due < NextAnchorMs(now, hour) <==> now % MS != 0 && later / MS == now / MS)
  {
    NextAnchor(now, hour);
    hide UntilHour;
    TruncatedGap(now, now + UntilHour(now, hour), hour);
  }

  /** What is left to an anchor, in whole milliseconds. */
  lemma TruncatedGap(now: int, anchor: int, hour: int)
    requires AnchorInstant(anchor, hour)
    ensures anchor / MS * MS == anchor
    ensures (anchor - now) / MS == anchor / MS - now / MS - if now % MS == 0 then 0 else 1
  {
    assert anchor == anchor / DAY * DAY + anchor % DAY;
    assert anchor % MS == 0;
    assert anchor - now == (anchor / MS - now / MS) * MS - now % MS;
  }

  /** A wall-clock advance leaves the job due at once exactly when its first reading falls in the last
      millisecond before the anchor: the cycle then runs again for the same anchor. */
  lemma StillDueIff(now: int, later: int, hour: int)
    requires now <= later
    ensures DueAt(Some(DueAfter(later, UntilHour(now, hour))), later) <==> UntilHour(now, hour) < MS
  {
    WallclockDue(now, later, hour);
  }

  /** A first interval seed is due at once at any clock; a wall-clock seed not before the next anchor, but
      for the millisecond of the truncation, and at the latest with the milliseconds begun in between. */
  lemma FirstSeed(now: int, later: int, hour: int, time: int)
    requires now <= later
    ensures 0 <= time ==> DueAt(None, time) && DueAt(Some(SeedDue(Interval, now, later)), time)
    ensures var due := SeedDue(Wallclock(hour), now, later);
            && NextAnchorMs(now, hour) - 1 <= due <= NextAnchorMs(now, hour) + (later - now) / MS + 1
            && (due < NextAnchorMs(now, hour) <==> now % MS != 0 && later / MS == now / MS)
            && (DueAt(Some(due), time) <==> time / MS >= due)
  {
    WallclockDue(now, later, hour);
  }

  /** When the job is due again after a started tick, in the configured units: the interval, 24 hours unless
      positive, after a success; the retry, at least a second, after a failure, also one of the success UPDATE. */
  lemma DueAgain(row: Option<int>, t: Tick, time: int)
    requires row.Some? && StartsRun(row, t)
    ensures t.run == Returns && t.first.Stored? ==>
              (DueAt(RowAfter(row, t), time) <==>
               time / 1000 >= t.finished / 1000 + (if t.intervalHours > 0 then t.intervalHours else 24) * 3_600_000)
    ensures (t.run == Raises || (t.run == Returns && !t.first.Stored?)) && !t.second.Refused? ==>
              (DueAt(RowAfter(row, t), time) <==>
               time / 1000 >= t.again / 1000 + (if t.retrySeconds > 1 then t.retrySeconds else 1) * 1000)
  {
    assert IntervalDelay(t) == IntervalHours(t.intervalHours) * 3_600_000 * MS;
    assert RetryDelay(t) == RetrySeconds(t.retrySeconds) * 1000 * MS;
  }

  /** A run is started exactly when the row is due, the producer enabled and the lock free; any other tick
      leaves the row. */
  lemma StartsExactlyWhen(row: Option<int>, t: Tick)
    ensures StartsRun(row, t) <==> (if row.Some? then row.value else 0) <= t.at / 1000 && t.enabled && !t.locked
    ensures !StartsRun(row, t) ==> RowAfter(row, t) == row
  {
  }

  // ---- runs of the interval loop ----

  datatype Event = Seeding(mode: Mode, now: int, later: int) | Ticking(tick: Tick)

  function Begins(e: Event): int {
    match e
    case Seeding(_, now, _) => now
    case Ticking(t) => t.at
  }

  function Ends(e: Event): int {
    match e
    case Seeding(_, _, later) => later
    case Ticking(t) => t.again
  }

  /** The clock never goes back inside an event; a reading the event does not take is free. */
  predicate ClockInside(e: Event) {
    match e
    case Seeding(_, now, later) => now <= later
    case Ticking(t) => t.at <= t.finished <= t.again
  }

  /** Nor between events. Crashes and restarts are gaps: the next event is a seed or a tick. */
  ghost predicate Clocked(events: seq<Event>) {
    && (forall k :: 0 <= k < |events| ==> ClockInside(events[k]))
    && (forall k :: 0 < k < |events| ==> Ends(events[k - 1]) <= Begins(events[k]))
  }

  function Next(row: Option<int>, e: Event): Option<int> {
    match e
    case Seeding(mode, now, later) => if row.Some? then row else Some(SeedDue(mode, now, later))
    case Ticking(t) => RowAfter(row, t)
  }

  /** The row after the first `n` events. */
  function RowAt(row: Option<int>, events: seq<Event>, n: nat): Option<int>
    requires n <= |events|
  {
    if n == 0 then row else Next(RowAt(row, events, n - 1), events[n - 1])
  }

  predicate FinishesCycle(row: Option<int>, e: Event) {
    e.Ticking? && StartsRun(row, e.tick) && !e.tick.run.Dies?
  }

  /** The due time of an existing row changes only when a cycle finishes; it never disappears. */
  lemma DueMovesOnlyAfterACycle(row: Option<int>, e: Event)
    requires row.Some?
    ensures Next(row, e).Some?
    ensures Next(row, e) != row ==> FinishesCycle(row, e)
  {
  }

  lemma ClockMoves(events: seq<Event>, j: nat)
    requires Clocked(events) && 0 < j < |events|
    ensures Begins(events[j - 1]) <= Begins(events[j])
  {
    assert ClockInside(events[j - 1]) && Ends(events[j - 1]) <= Begins(events[j]);
  }

  lemma DueLater(row: Option<int>, now: int, later: int)
    requires now <= later && DueAt(row, now)
    ensures DueAt(row, later)
  {
  }

  /** From a run that died, or could write nothing, the job stays due through restarts, seeds and further
      deaths until a cycle finishes: the next enabled and unlocked tick runs it. */
  lemma {:induction false} DueUntilACycleFinishes(row: Option<int>, events: seq<Event>, i: nat, j: nat)
    requires Clocked(events) && i < j < |events|
    requires RowAt(row, events, i).Some? && events[i].Ticking? && StartsRun(RowAt(row, events, i), events[i].tick)
    requires RowAt(row, events, i + 1) == RowAt(row, events, i)
    requires forall k :: i < k < j ==> !FinishesCycle(RowAt(row, events, k), events[k])
    ensures RowAt(row, events, j) == RowAt(row, events, i) && DueAt(RowAt(row, events, j), Begins(events[j]))
    ensures events[j].Ticking? && events[j].tick.enabled && !events[j].tick.locked ==> StartsRun(RowAt(row, events, j), events[j].tick)
    decreases j
  {
    hide RowAfter, DueAt, Next, FinishesCycle, Clocked;
    ClockMoves(events, j);
    if j > i + 1 {
      DueUntilACycleFinishes(row, events, i, j - 1);
      DueMovesOnlyAfterACycle(RowAt(row, events, j - 1), events[j - 1]);
    }
    DueLater(RowAt(row, events, j - 1), Begins(events[j - 1]), Begins(events[j]));
  }

  /** Which cycles leave the row as it was. */
  lemma CrashKeepsRow(row: Option<int>, t: Tick)
    requires StartsRun(row, t)
    requires t.run.Dies? || (t.second.Refused? && (t.run.Raises? || t.first.Refused?))
    ensures RowAfter(row, t) == row
  {
  }

  /** The run returned and its UPDATE of an existing row stands: it was acknowledged, or it raised after
      it was applied and the retry UPDATE was not applied. */
  predicate RecordsSuccess(row: Option<int>, e: Event) {
    && FinishesCycle(row, e) && row.Some? && e.tick.run.Returns?
    && (e.tick.first.Stored? || (e.tick.first.StoredThenRaised? && e.tick.second.Refused?))
  }

  /** When the interval that a recorded success started is over, in milliseconds. */
  function IntervalOver(e: Event): int
    requires e.Ticking?
  {
    DueAfter(e.tick.finished, IntervalDelay(e.tick))
  }

  lemma {:induction false} RowHoldsOrClockPassed(row: Option<int>, events: seq<Event>, i: nat, n: nat)
    requires Clocked(events) && i < n <= |events|
    requires RecordsSuccess(RowAt(row, events, i), events[i])
    ensures var now := RowAt(row, events, n);
            now.Some? && (now.value >= IntervalOver(events[i]) || Ends(events[n - 1]) / MS >= IntervalOver(events[i]))
    decreases n
  {
    if n > i + 1 {
      RowHoldsOrClockPassed(row, events, i, n - 1);
      var before, e := RowAt(row, events, n - 1), events[n - 1];
      assert Ends(events[n - 2]) <= Begins(e) <= Ends(e);
      if e.Ticking? {
        KeepsOrPasses(before, e.tick, IntervalOver(events[i]), Ends(events[n - 2]));
      }
    }
  }

  lemma KeepsOrPasses(row: Option<int>, t: Tick, over: int, clock: int)
    requires row.Some? && ClockInside(Ticking(t)) && clock <= t.at
    requires row.value >= over || clock / MS >= over
    ensures RowAfter(row, t).Some? && (RowAfter(row, t).value >= over || t.again / MS >= over)
  {
    hide IntervalDelay, RetryDelay;
    if StartsRun(row, t) {
      assert t.at / MS >= over;
    }
  }

  /** Whatever seeds, failures, crashes and restarts lie between, a scheduled run starts no sooner than the
      interval after every earlier success whose advance was recorded. */
  lemma CrashSafeCadence(row: Option<int>, events: seq<Event>, i: nat, j: nat)
    requires Clocked(events) && i < j < |events|
    requires RecordsSuccess(RowAt(row, events, i), events[i])
    requires events[j].Ticking? && StartsRun(RowAt(row, events, j), events[j].tick)
    ensures events[j].tick.at / MS >= events[i].tick.finished / MS + IntervalHours(events[i].tick.intervalHours) * 3_600_000
  {
    RowHoldsOrClockPassed(row, events, i, j);
    assert Ends(events[j - 1]) <= Begins(events[j]);
    var hours := IntervalHours(events[i].tick.intervalHours);
    assert hours * HOUR == hours * 3_600_000 * MS;
  }
}
