/** The config watcher core of app/config/watch_core.py, applied to a limiter whose limit_fn reads the
    watcher's snapshot and whose wake() is registered as an on_change hook. */
module ConfigWatch {
  import opened LiveLimits
  import opened Options

  datatype Snapshot = Snapshot(version: string, limit: int)

  /** An on_change callback. */
  datatype Hook = WakeLimiter | OtherHook

  /** How a callback ends: it returns, raises an Exception, or raises a BaseException that is none. */
  datatype HookEnd = Returns | Raises | Escapes

  datatype Firing = Firing(hook: nat, version: string)

  /** `fired` records the hook calls in order; `watching` is false once the watch task has died. */
  datatype Watch = Watch(limiter: State, version: Option<string>, hooks: seq<Hook>, fired: seq<Firing>, watching: bool)

  /** The end of the call of hook `i`, when `ends` says how the callbacks end this time; wake() returns. */
  function EndOf(hooks: seq<Hook>, ends: seq<HookEnd>, i: nat): HookEnd
    requires i < |hooks|
  {
    if hooks[i].WakeLimiter? || i >= |ends| then Returns else ends[i]
  }

  function FireOne(w: Watch, i: nat, version: string): Watch
    requires i < |w.hooks|
  {
    w.(fired := w.fired + [Firing(i, version)],
       limiter := if w.hooks[i].WakeLimiter? then WakeAll(w.limiter) else w.limiter)
  }

  /** The hooks from `i` on; a BaseException leaves the loop, and the watch task with it. */
  function FireFrom(w: Watch, i: nat, version: string, ends: seq<HookEnd>): Watch
    requires i <= |w.hooks|
    decreases |w.hooks| - i
  {
    if i == |w.hooks| then w
    else if EndOf(w.hooks, ends, i).Escapes? then FireOne(w, i, version).(watching := false)
    else FireFrom(FireOne(w, i, version), i + 1, version, ends)
  }

  function ApplySnapshot(w: Watch, snapshot: Snapshot, ends: seq<HookEnd>): Watch {
    var read := w.(limiter := w.limiter.(limit := snapshot.limit));
    if w.version == Some(snapshot.version) then read
    else FireFrom(read.(version := Some(snapshot.version)), 0, snapshot.version, ends)
  }

  class WatchCore {
    const limiter: ResizableLimiter
    var version: Option<string>
    var hooks: seq<Hook>
    var watching: bool
    ghost var fired: seq<Firing>

    constructor (limiter: ResizableLimiter)
      ensures this.limiter == limiter
      ensures Now() == Watch(limiter.Now(), None, [], [], true)
    {
      this.limiter := limiter;
      version, hooks, fired, watching := None, [], [], true;
    }

    ghost function Now(): Watch
      reads this, limiter
    {
      Watch(limiter.Now(), version, hooks, fired, watching)
    }

    method OnChange(hook: Hook)
      modifies this`hooks
      ensures Now() == old(Now()).(hooks := old(hooks) + [hook])
    {
      hooks := hooks + [hook];
    }

    /** Call hook `i`; true means that a BaseException is under way. */
    method CallHook(i: nat, newVersion: string, ends: seq<HookEnd>) returns (escaped: bool)
      requires i < |hooks| && forall f <- limiter.waiters :: f < |limiter.futures|
      modifies this`fired, limiter`futures
      ensures Now() == FireOne(old(Now()), i, newVersion)
      ensures escaped == EndOf(hooks, ends, i).Escapes?
    {
      fired := fired + [Firing(i, newVersion)];
      if hooks[i].WakeLimiter? {
        limiter.Wake();
        return false;
      }
      escaped := i < |ends| && ends[i].Escapes?;
    }

    /** An Exception of a hook is swallowed and the next hook called; a BaseException skips the rest. */
    method Apply(snapshot: Snapshot, ends: seq<HookEnd>)
      requires forall f <- limiter.waiters :: f < |limiter.futures|
      modifies this, limiter
      ensures Now() == ApplySnapshot(old(Now()), snapshot, ends)
    {
      limiter.limit := snapshot.limit;
      if Some(snapshot.version) == version {
        return;
      }
      version := Some(snapshot.version);
      ghost var changed := Now();
      for i := 0 to |hooks|
        invariant hooks == changed.hooks && limiter.waiters == old(limiter.waiters)
        invariant |limiter.futures| == |old(limiter.futures)|
        invariant FireFrom(changed, 0, snapshot.version, ends) == FireFrom(Now(), i, snapshot.version, ends)
      {
        var escaped := CallHook(i, snapshot.version, ends);
        if escaped {
          watching := false;
          return;
        }
      }
    }
  }

  // ---- runs of the whole system ----

  datatype SystemEvent = Loop(event: Event) | Register(hook: Hook) | Receive(snapshot: Snapshot, ends: seq<HookEnd>)

  /** Snapshots arrive as long as the watch task lives. */
  ghost predicate Possible(w: Watch, e: SystemEvent) {
    && (e.Loop? ==> Enabled(w.limiter, e.event))
    && (e.Receive? ==> w.watching)
  }

  function After(w: Watch, e: SystemEvent): Watch
    requires Possible(w, e)
  {
    match e
    case Loop(event) => w.(limiter := Next(w.limiter, event))
    case Register(hook) => w.(hooks := w.hooks + [hook])
    case Receive(snapshot, ends) => ApplySnapshot(w, snapshot, ends)
  }

  ghost predicate IsRun(w: Watch, events: seq<SystemEvent>)
    decreases |events|
  {
    events == [] || (Possible(w, events[0]) && IsRun(After(w, events[0]), events[1..]))
  }

  function End(w: Watch, events: seq<SystemEvent>): Watch
    requires IsRun(w, events)
    decreases |events|
  {
    if events == [] then w else End(After(w, events[0]), events[1..])
  }

  /** The server never changes the limit under an unchanged version. */
  ghost predicate VersionsTellChanges(w: Watch, events: seq<SystemEvent>)
    requires IsRun(w, events)
    decreases |events|
  {
    events == [] ||
    (&& (events[0].Receive? && w.version == Some(events[0].snapshot.version) ==> events[0].snapshot.limit == w.limiter.limit)
     && VersionsTellChanges(After(w, events[0]), events[1..]))
  }
}
