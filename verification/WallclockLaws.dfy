/** When the wall-clock schedule fires once per calendar day. */
module WallclockLaws {
  import opened Options
  import opened DurableSchedule
  import ScheduleLaws
  import opened WallclockSchedule

  /** The first millisecond that begins at `now` or after it. */
  function CeilMs(now: int): int {
    now / MS + if now % MS == 0 then 0 else 1
  }

  /** The advance takes its first reading before today's anchor and is not so slow that the due time slips
      to the next day; or the anchor is midnight and truncation puts the due time just before it. */
  predicate DueSameDay(now: int, later: int, hour: int) {
    var anchor := hour % 24 * HOUR;
    || (now % DAY < anchor && (later / MS - CeilMs(now)) * MS < DAY - anchor)
    || (anchor == 0 && now % MS != 0 && later / MS == now / MS)
  }

  lemma AnchorOfDay(now: int, hour: int)
    ensures var anchor := hour % 24 * HOUR;
            now + UntilHour(now, hour) == now / DAY * DAY + anchor + if now % DAY < anchor then 0 else DAY
  {
    assert now - now % DAY == now / DAY * DAY;
  }

  lemma DueInstant(now: int, later: int, hour: int)
    ensures DueAfter(later, UntilHour(now, hour)) * MS == now + UntilHour(now, hour) + (later / MS - CeilMs(now)) * MS
  {
    ScheduleLaws.NextAnchor(now, hour);
    var anchor := now + UntilHour(now, hour);
    hide UntilHour;
    ScheduleLaws.TruncatedGap(now, anchor, hour);
    assert anchor - now == UntilHour(now, hour);
  }

  lemma InDay(time: int, day: int)
    ensures time / DAY == day <==> day * DAY <= time < day * DAY + DAY
    ensures time / DAY <= day <==> time < day * DAY + DAY
  {
  }

  /** An advance makes the job due on the very calendar day of its first reading exactly in these cases. */
  lemma DueSameDayIff(now: int, later: int, hour: int)
    requires now <= later
    ensures var due := DueAfter(later, UntilHour(now, hour)) * MS;
            && (due / DAY == now / DAY <==> DueSameDay(now, later, hour))
            && due >= now / DAY * DAY
  {
    var due, day := DueAfter(later, UntilHour(now, hour)) * MS, now / DAY;
    AnchorOfDay(now, hour);
    DueInstant(now, later, hour);
    hide UntilHour, DueAfter;
    LaterMs(now, later);
    InDay(due, day);
  }

  lemma LaterMs(now: int, later: int)
    requires now <= later
    ensures later / MS - CeilMs(now) >= -1
    ensures later / MS - CeilMs(now) == -1 <==> now % MS != 0 && later / MS == now / MS
  {
  }

  /** A failed enumeration makes the job due again after the retry, at least a second. */
  lemma RetryDue(row: Option<int>, p: Pass, time: int)
    requires row.Some? && DueAt(row, p.at) && p.end.Retries?
    ensures DueAt(RowAfterPass(row, p), time) <==>
            time / 1000 >= p.end.again / 1000 + (if p.end.retrySeconds > 1 then p.end.retrySeconds else 1) * 1000
  {
    var seconds := if p.end.retrySeconds > 1 then p.end.retrySeconds else 1;
    assert seconds * SECOND == seconds * 1000 * MS;
  }

  // ---- runs ----

  function Ends(p: Pass): int {
    match p.end
    case Completes(_, later) => later
    case Retries(again, _) => again
    case Dies => p.at
  }

  predicate ClockInside(p: Pass) {
    match p.end
    case Completes(now, later) => p.at <= now <= later
    case Retries(again, _) => p.at <= again
    case Dies => true
  }

  ghost predicate Clocked(passes: seq<Pass>) {
    && (forall k :: 0 <= k < |passes| ==> ClockInside(passes[k]))
    && (forall k :: 0 < k < |passes| ==> Ends(passes[k - 1]) <= passes[k].at)
  }

  /** The row after the first `n` ticks; ticks that are not due change nothing. */
  function RowAt(row: Option<int>, passes: seq<Pass>, n: nat): Option<int>
    requires n <= |passes|
  {
    if n == 0 then row else RowAfterPass(RowAt(row, passes, n - 1), passes[n - 1])
  }

  /** Tick `n` fires: it is due and its pass completes. */
  predicate Fires(row: Option<int>, passes: seq<Pass>, n: nat)
    requires n < |passes|
  {
    DueAt(RowAt(row, passes, n), passes[n].at) && passes[n].end.Completes?
  }

  function NextDue(p: Pass): int
    requires p.end.Completes?
  {
    DueAfter(p.end.later, UntilHour(p.end.now, p.hour))
  }

  lemma {:induction false} RowStays(row: Option<int>, passes: seq<Pass>, n: nat)
    requires row.Some? && n <= |passes|
    ensures RowAt(row, passes, n).Some?
  {
    hide UntilHour, DueAfter;
    if n > 0 {
      RowStays(row, passes, n - 1);
    }
  }

  lemma KeepsOrPasses(row: Option<int>, p: Pass, due: int, clock: int)
    requires row.Some? && ClockInside(p) && clock <= p.at
    requires row.value >= due || clock / MS >= due
    ensures RowAfterPass(row, p).Some? && (RowAfterPass(row, p).value >= due || Ends(p) / MS >= due)
  {
    hide UntilHour, DueAfter;
    if DueAt(row, p.at) {
      assert p.at / MS >= due;
    }
  }

  lemma {:induction false} HoldsOrPassed(row: Option<int>, passes: seq<Pass>, i: nat, n: nat)
    requires row.Some? && Clocked(passes) && i < n <= |passes| && Fires(row, passes, i)
    ensures var now := RowAt(row, passes, n);
            && now.Some? && (now.value >= NextDue(passes[i]) || Ends(passes[n - 1]) / MS >= NextDue(passes[i]))
            && Ends(passes[i]) <= Ends(passes[n - 1])
    decreases n
  {
    if n == i + 1 {
      RowStays(row, passes, i);
    } else {
      hide NextDue, RowAfterPass;
      HoldsOrPassed(row, passes, i, n - 1);
      assert ClockInside(passes[n - 1]) && Ends(passes[n - 2]) <= passes[n - 1].at;
      KeepsOrPasses(RowAt(row, passes, n - 1), passes[n - 1], NextDue(passes[i]), Ends(passes[n - 2]));
    }
  }

  /** After a firing nothing starts before the due time it recorded, whatever dies or retries between. */
  lemma NoStartBeforeDue(row: Option<int>, passes: seq<Pass>, i: nat, j: nat)
    requires row.Some? && Clocked(passes) && i < j < |passes| && Fires(row, passes, i)
    requires DueAt(RowAt(row, passes, j), passes[j].at)
    ensures passes[j].at / MS >= NextDue(passes[i]) && passes[j].at >= Ends(passes[i])
  {
    HoldsOrPassed(row, passes, i, j);
    assert Ends(passes[j - 1]) <= passes[j].at;
  }

  /** The firing ends on the day it began and leaves a due time on that day. */
  predicate FiresAgain(p: Pass)
    requires p.end.Completes?
  {
    Ends(p) / DAY == p.at / DAY && DueSameDay(p.end.now, p.end.later, p.hour)
  }

  predicate CanStart(p: Pass, time: int)
    requires p.end.Completes?
  {
    time >= Ends(p) && time / MS >= NextDue(p)
  }

  lemma Monotone(a: int, b: int)
    requires a <= b
    ensures a / DAY <= b / DAY
  {
  }

  lemma DueOfFiring(p: Pass)
    requires p.end.Completes? && ClockInside(p)
    ensures var due := NextDue(p) * MS;
            && (due / DAY == p.end.now / DAY <==> DueSameDay(p.end.now, p.end.later, p.hour))
            && due / DAY >= p.end.now / DAY
  {
    DueSameDayIff(p.end.now, p.end.later, p.hour);
    hide UntilHour, DueAfter, DueSameDay;
    InDay(NextDue(p) * MS, p.end.now / DAY);
  }

  /** A start on the day of `p`, not before its end and its due time, is possible exactly then. */
  lemma SecondStartIff(p: Pass)
    requires p.end.Completes? && ClockInside(p)
    ensures FiresAgain(p) <==> exists time :: CanStart(p, time) && time / DAY == p.at / DAY
  {
    var now, later, due := p.end.now, p.end.later, NextDue(p) * MS;
    DueOfFiring(p);
    Monotone(p.at, now);
    Monotone(now, later);
    hide NextDue, DueSameDay;
    if FiresAgain(p) {
      var time := if due > later then due else later;
      assert CanStart(p, time) && time / DAY == p.at / DAY;
    }
    if time :| CanStart(p, time) && time / DAY == p.at / DAY {
      Monotone(later, time);
      assert due <= time;
      Monotone(due, time);
    }
  }

  /** In every run a job whose firings leave no due time on their own day fires at most once per calendar
      day, through any deaths, retries and idle ticks. */
  lemma OncePerDay(row: Option<int>, passes: seq<Pass>, i: nat, j: nat)
    requires row.Some? && Clocked(passes) && i < j < |passes| && Fires(row, passes, i) && Fires(row, passes, j)
    requires !FiresAgain(passes[i])
    ensures passes[i].at / DAY < passes[j].at / DAY
  {
    NoStartBeforeDue(row, passes, i, j);
    SecondStartIff(passes[i]);
    hide FiresAgain, NextDue;
    assert CanStart(passes[i], passes[j].at);
    assert ClockInside(passes[i]) && passes[i].at <= Ends(passes[i]);
  }

  ghost predicate FiresOnDay(row: Option<int>, passes: seq<Pass>, more: seq<Pass>, j: nat, day: int) {
    var all := passes + more;
    && Clocked(all) && |passes| <= j < |all|
    && Fires(row, all, j) && all[j].at / DAY == day
  }

  lemma {:induction false} RowAtPrefix(row: Option<int>, passes: seq<Pass>, more: seq<Pass>, n: nat)
    requires n <= |passes|
    ensures RowAt(row, passes + more, n) == RowAt(row, passes, n)
  {
    hide RowAfterPass;
    if n > 0 {
      RowAtPrefix(row, passes, more, n - 1);
      assert (passes + more)[n - 1] == passes[n - 1];
    }
  }

  /** A second firing on the same calendar day can follow exactly when the last one leaves a due time on
      its own day. */
  lemma OncePerDayIff(row: Option<int>, passes: seq<Pass>)
    requires row.Some? && passes != [] && Clocked(passes) && Fires(row, passes, |passes| - 1)
    ensures var last := passes[|passes| - 1];
            (exists more, j :: FiresOnDay(row, passes, more, j, last.at / DAY)) <==> FiresAgain(last)
  {
    var i, last := |passes| - 1, passes[|passes| - 1];
    hide FiresAgain, NextDue, RowAfterPass;
    if more, j :| FiresOnDay(row, passes, more, j, last.at / DAY) {
      RowAtPrefix(row, passes, more, i);
      if !FiresAgain(last) {
        OncePerDay(row, passes + more, i, j);
      }
    }
    if FiresAgain(last) {
      SecondStartIff(last);
      var time :| CanStart(last, time) && time / DAY == last.at / DAY;
      SecondFiring(row, passes, time);
    }
  }

  lemma SecondFiring(row: Option<int>, passes: seq<Pass>, time: int)
    requires row.Some? && passes != [] && Clocked(passes) && Fires(row, passes, |passes| - 1)
    requires CanStart(passes[|passes| - 1], time)
    ensures FiresOnDay(row, passes, [Pass(time, 0, Completes(time, time))], |passes|, time / DAY)
  {
    var i, more := |passes| - 1, [Pass(time, 0, Completes(time, time))];
    var all := passes + more;
    RowAtPrefix(row, passes, more, i);
    RowStays(row, passes, i);
    assert all[i] == passes[i] && all[i + 1] == more[0];
    assert RowAt(row, all, i + 1) == Some(NextDue(passes[i]));
    forall k | 0 <= k < |all| ensures ClockInside(all[k]) {
      if k < |passes| { assert all[k] == passes[k]; }
    }
    forall k | 0 < k < |all| ensures Ends(all[k - 1]) <= all[k].at {
      if k < |passes| { assert all[k] == passes[k] && all[k - 1] == passes[k - 1]; }
    }
  }

  /** A pass that a restart runs before the anchor fires again at the anchor of the same day. */
  lemma EarlyRerunFiresTwice(day: int)
    ensures FiresAgain(Pass(day * DAY + 7 * HOUR, 8, Completes(day * DAY + 7 * HOUR, day * DAY + 7 * HOUR)))
  {
    assert (day * DAY + 7 * HOUR) % DAY == 7 * HOUR;
  }
}
