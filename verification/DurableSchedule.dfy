/** The durable job schedule of app/engine/durable_schedule.py: one persisted due time per job.
    Clock readings are in microseconds since the epoch; the row holds milliseconds. */
module DurableSchedule {
  import opened Options

  const MS := 1000
  const SECOND := 1_000_000
  const HOUR := 3600 * SECOND
  const DAY := 24 * HOUR

  /** The delay from `now` to the next occurrence of the hour, in microseconds. */
  function UntilHour(now: int, hour: int): (delay: nat)
    ensures 0 < delay <= DAY
  {
    var target := now - now % DAY + hour % 24 * HOUR;
    (if target <= now then target + DAY else target) - now
  }

  /** The due time an UPDATE writes at `now` for a delay in microseconds, both truncated to milliseconds. */
  function DueAfter(now: int, delay: nat): int {
    now / MS + delay / MS
  }

  datatype Mode = Interval | Wallclock(anchorHour: int)

  /** The due time a first seed writes. The wall-clock branch reads the clock twice. */
  function SeedDue(mode: Mode, now: int, later: int): int {
    match mode
    case Interval => 0
    case Wallclock(hour) => DueAfter(later, UntilHour(now, hour))
  }

  /** A missing row reads as 0. */
  function BlockedUntil(row: Option<int>): int {
    if row.Some? then row.value else 0
  }

  predicate DueAt(row: Option<int>, now: int) {
    BlockedUntil(row) <= now / MS
  }

  class JobSchedule {
    /** blocked_until_ms of this job's row, None while the row is missing. */
    var row: Option<int>
    const mode: Mode

    constructor (mode: Mode)
      ensures this.mode == mode && row == None
    {
      this.mode := mode;
      row := None;
    }

    /** INSERT .. ON CONFLICT DO NOTHING. */
    method Seed(now: int, later: int)
      modifies this
      ensures row == if old(row).Some? then old(row) else Some(SeedDue(mode, now, later))
    {
      var blockedUntil := 0;
      match mode {
        case Wallclock(hour) =>
          var dueIn := UntilHour(now, hour);
          blockedUntil := later / MS + dueIn / MS;
        case Interval =>
      }
      if row.None? {
        row := Some(blockedUntil);
      }
    }

    /** Milliseconds to wait: 0 when due, otherwise the time that is left. */
    method NextSleep(now: int) returns (wait: nat)
      ensures wait == 0 <==> DueAt(row, now)
      ensures wait > 0 ==> now / MS + wait == BlockedUntil(row)
    {
      var blockedUntil := if row.Some? then row.value else 0;
      if now / MS < blockedUntil {
        return blockedUntil - now / MS;
      }
      return 0;
    }

    /** UPDATE: does nothing while the row is missing. */
    method Advance(now: int, delay: nat)
      modifies this
      ensures row == if old(row).Some? then Some(DueAfter(now, delay)) else None
    {
      if row.Some? {
        row := Some(now / MS + delay / MS);
      }
    }
  }
}
