/** The daily opportunity refresh of app/handlers/servicer.py over its wall-clock schedule. */
module WallclockSchedule {
  import opened Options
  import opened DurableSchedule
  import opened FundSchedule

  /** How a due pass ends: it completes and reads the clock for the delay and for the UPDATE, or the user
      enumeration fails and it retries soon, or it dies or its UPDATE is not applied. */
  datatype PassEnd = Completes(now: int, later: int) | Retries(again: int, retrySeconds: int) | Dies

  datatype Pass = Pass(at: int, hour: int, end: PassEnd)

  function Advanced(row: Option<int>, now: int, delay: nat): Option<int> {
    if row.Some? then Some(DueAfter(now, delay)) else None
  }

  function RowAfterPass(row: Option<int>, p: Pass): Option<int> {
    if !DueAt(row, p.at) then row
    else
      match p.end
      case Completes(now, later) => Advanced(row, later, UntilHour(now, p.hour))
      case Retries(again, retrySeconds) => Advanced(row, again, RetrySeconds(retrySeconds) * SECOND)
      case Dies => row
  }

  class OpportunityRefresh {
    const schedule: JobSchedule

    constructor (schedule: JobSchedule)
      ensures this.schedule == schedule
    {
      this.schedule := schedule;
    }

    /** The milliseconds to sleep before the next tick; None when the pass died. */
    method RunTick(p: Pass) returns (sleep: Option<nat>)
      modifies schedule
      ensures schedule.row == RowAfterPass(old(schedule.row), p)
      ensures sleep == if !DueAt(old(schedule.row), p.at) then Some(BlockedUntil(old(schedule.row)) - p.at / MS)
                       else if p.end.Dies? then None else Some(0)
    {
      var wait := schedule.NextSleep(p.at);
      if wait > 0 {
        return Some(wait);
      }
      match p.end {
        case Completes(now, later) =>
          var delay := UntilHour(now, p.hour);
          schedule.Advance(later, delay);
          return Some(0);
        case Retries(again, retrySeconds) =>
          schedule.Advance(again, RetrySeconds(retrySeconds) * SECOND);
          return Some(0);
        case Dies =>
          return None;
      }
    }
  }
}
