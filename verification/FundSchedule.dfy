/** One scheduler iteration of app/engine/fundsignal_loop.py over its durable schedule. */
module FundSchedule {
  import opened Options
  import opened Writes
  import opened DurableSchedule

  /** How run_once ends: it returns, it raises, or the process dies inside it. */
  datatype RunEnd = Returns | Raises | Dies

  /** The configuration, the other users of the lock, and the clock as one tick finds them: `at` when it
      reads the row, `finished` at the UPDATE after a run that returned, `again` at the retry UPDATE. */
  datatype Tick = Tick(
    at: int, enabled: bool, locked: bool, intervalHours: int, retrySeconds: int,
    run: RunEnd, finished: int, first: Write, again: int, second: Write)

  /** int_positive with the default of the interval key. */
  function IntervalHours(configured: int): nat {
    if configured > 0 then configured else 24
  }

  function RetrySeconds(configured: int): nat {
    if configured > 1 then configured else 1
  }

  function IntervalDelay(t: Tick): nat {
    IntervalHours(t.intervalHours) * HOUR
  }

  function RetryDelay(t: Tick): nat {
    RetrySeconds(t.retrySeconds) * SECOND
  }

  predicate StartsRun(row: Option<int>, t: Tick) {
    DueAt(row, t.at) && t.enabled && !t.locked
  }

  /** The row after an UPDATE that was attempted. */
  function Written(row: Option<int>, write: Write, now: int, delay: nat): Option<int> {
    if write.Refused? || row.None? then row else Some(DueAfter(now, delay))
  }

  function RowAfter(row: Option<int>, t: Tick): Option<int> {
    if !StartsRun(row, t) || t.run.Dies? then row
    else
      var advanced := if t.run.Returns? then Written(row, t.first, t.finished, IntervalDelay(t)) else row;
      if t.run.Returns? && t.first.Stored? then advanced
      else Written(advanced, t.second, t.again, RetryDelay(t))
  }

  /** The last UPDATE a started tick attempts is acknowledged. */
  predicate EndsWell(t: Tick) {
    (t.run.Returns? && t.first.Stored?) || (!t.run.Dies? && t.second.Stored?)
  }

  class FundamentalsSignalLoop {
    const schedule: JobSchedule

    constructor (schedule: JobSchedule)
      ensures this.schedule == schedule
    {
      this.schedule := schedule;
    }

    /** One UPDATE and whether it raised. */
    method AdvanceSchedule(write: Write, now: int, delay: nat) returns (raised: bool)
      modifies schedule
      ensures schedule.row == Written(old(schedule.row), write, now, delay)
      ensures raised == !write.Stored?
    {
      if !write.Refused? {
        schedule.Advance(now, delay);
      }
      raised := !write.Stored?;
    }

    /** The milliseconds to sleep before the next tick; None when the tick raised or died. */
    method RunTick(t: Tick) returns (sleep: Option<nat>)
      modifies schedule
      ensures schedule.row == RowAfter(old(schedule.row), t)
      ensures !DueAt(old(schedule.row), t.at) ==> sleep == Some(BlockedUntil(old(schedule.row)) - t.at / MS)
      ensures DueAt(old(schedule.row), t.at) && !t.enabled ==> sleep == Some(IntervalDelay(t) / MS)
      ensures DueAt(old(schedule.row), t.at) && t.enabled && t.locked ==> sleep == Some(RetryDelay(t) / MS)
      ensures StartsRun(old(schedule.row), t) ==> sleep == if EndsWell(t) then Some(0) else None
    {
      var wait := schedule.NextSleep(t.at);
      if wait > 0 {
        return Some(wait);
      }
      if !t.enabled {
        return Some(IntervalDelay(t) / MS);
      }
      if t.locked {
        return Some(RetryDelay(t) / MS);
      }
      if t.run == Dies {
        return None;
      }
      var raised := t.run.Raises?;
      if !raised {
        raised := AdvanceSchedule(t.first, t.finished, IntervalDelay(t));
      }
      if raised {
        raised := AdvanceSchedule(t.second, t.again, RetryDelay(t));
        if raised {
          return None;
        }
      }
      return Some(0);
    }
  }
}
