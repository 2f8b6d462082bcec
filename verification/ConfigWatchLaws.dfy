/** No wakeup is lost over any run of the limiter and its config watcher. */
module ConfigWatchLaws {
  import opened Sets
  import opened LiveLimits
  import opened LiveLimitsLaws
  import opened ConfigWatch
  import opened Options

  /** None of the hooks from `i` to `n` raises outside Exception. */
  predicate Passes(hooks: seq<Hook>, ends: seq<HookEnd>, i: nat, n: nat)
    requires n <= |hooks|
  {
    forall j :: i <= j < n ==> !EndOf(hooks, ends, j).Escapes?
  }

  /** The hook calls reach a wake() from `i` on. */
  predicate Wakes(hooks: seq<Hook>, ends: seq<HookEnd>, i: nat) {
    exists j :: i <= j < |hooks| && hooks[j].WakeLimiter? && Passes(hooks, ends, i, j)
  }

  lemma WakesStep(hooks: seq<Hook>, ends: seq<HookEnd>, i: nat)
    requires i < |hooks|
    ensures Wakes(hooks, ends, i) <==>
            hooks[i].WakeLimiter? || (!EndOf(hooks, ends, i).Escapes? && Wakes(hooks, ends, i + 1))
  {
    if hooks[i].WakeLimiter? {
      assert Passes(hooks, ends, i, i);
    }
    if !EndOf(hooks, ends, i).Escapes? && Wakes(hooks, ends, i + 1) {
      var j :| i + 1 <= j < |hooks| && hooks[j].WakeLimiter? && Passes(hooks, ends, i + 1, j);
      assert Passes(hooks, ends, i, j);
    }
    if Wakes(hooks, ends, i) {
      var j :| i <= j < |hooks| && hooks[j].WakeLimiter? && Passes(hooks, ends, i, j);
      assert Passes(hooks, ends, i + 1, j);
    }
  }

  lemma {:induction false} FireFromEffect(w: Watch, i: nat, version: string, ends: seq<HookEnd>)
    requires i <= |w.hooks|
    ensures var after := FireFrom(w, i, version, ends);
            && after.version == w.version && after.hooks == w.hooks
            && after.watching == (w.watching && Passes(w.hooks, ends, i, |w.hooks|))
            && after.limiter == if Wakes(w.hooks, ends, i) then WakeAll(w.limiter) else w.limiter
    decreases |w.hooks| - i
  {
    hide Wakes;
    if i < |w.hooks| {
      WakesStep(w.hooks, ends, i);
      if !EndOf(w.hooks, ends, i).Escapes? {
        FireFromEffect(FireOne(w, i, version), i + 1, version, ends);
        assert Passes(w.hooks, ends, i, |w.hooks|) <==> Passes(w.hooks, ends, i + 1, |w.hooks|);
        assert WakeAll(WakeAll(w.limiter)) == WakeAll(w.limiter);
      }
    } else {
      NothingWakes(w.hooks, ends);
    }
  }

  lemma NothingWakes(hooks: seq<Hook>, ends: seq<HookEnd>)
    ensures !Wakes(hooks, ends, |hooks|)
  {
  }

  lemma LimitChangeKeepsStructure(s: State, limit: int)
    requires NoAbandonedFuture(s) && SlotsBalance(s)
    ensures NoAbandonedFuture(s.(limit := limit)) && SlotsBalance(s.(limit := limit))
  {
    var r := s.(limit := limit);
    SameWaiting(s, r);
    assert Holders(r) == Holders(s);
    forall t ensures Times(r, Admitted(t)) == Times(r, Released(t)) + if t in Holders(r) then 1 else 0 {
      assert Times(s, Admitted(t)) == Times(s, Released(t)) + if t in Holders(s) then 1 else 0;
    }
  }

  /** Exactly when a received snapshot can lose a wakeup: the version is unchanged or the calls do not
      reach a wake hook, the limit is above what is in use, and a waiter is still pending. */
  lemma SnapshotLosesNothingIff(w: Watch, snapshot: Snapshot, ends: seq<HookEnd>)
    requires Invariant(w.limiter)
    ensures NoLostWakeup(ApplySnapshot(w, snapshot, ends).limiter) <==>
            || (w.version != Some(snapshot.version) && Wakes(w.hooks, ends, 0))
            || snapshot.limit <= w.limiter.inUse
            || (forall f <- w.limiter.waiters :: !w.limiter.futures[f].Pending?)
    ensures NoAbandonedFuture(ApplySnapshot(w, snapshot, ends).limiter) && SlotsBalance(ApplySnapshot(w, snapshot, ends).limiter)
    ensures ApplySnapshot(w, snapshot, ends).hooks == w.hooks
  {
    hide Wakes;
    var read := w.(limiter := w.limiter.(limit := snapshot.limit));
    LimitChangeKeepsStructure(w.limiter, snapshot.limit);
    if w.version != Some(snapshot.version) {
      FireFromEffect(read.(version := Some(snapshot.version)), 0, snapshot.version, ends);
      if Wakes(w.hooks, ends, 0) {
        WakeAllKeeps(read.limiter);
      }
    }
  }

  /** The wake hook is registered at `at`, and no snapshot makes an earlier hook raise outside Exception. */
  ghost predicate WakeIsReached(hooks: seq<Hook>, at: nat, e: SystemEvent) {
    at < |hooks| && hooks[at].WakeLimiter? && (e.Receive? ==> Passes(hooks, e.ends, 0, at))
  }

  lemma AfterKeeps(w: Watch, e: SystemEvent, at: nat)
    requires Invariant(w.limiter) && Possible(w, e) && WakeIsReached(w.hooks, at, e)
    requires e.Receive? && w.version == Some(e.snapshot.version) ==> e.snapshot.limit == w.limiter.limit
    ensures Invariant(After(w, e).limiter) && w.hooks <= After(w, e).hooks
  {
    match e {
      case Loop(event) => StepKeeps(w.limiter, event);
      case Register(hook) =>
      case Receive(snapshot, ends) =>
        assert Wakes(w.hooks, ends, 0);
        SnapshotLosesNothingIff(w, snapshot, ends);
    }
  }

  lemma ReachedLater(hooks: seq<Hook>, more: seq<Hook>, at: nat, e: SystemEvent)
    requires WakeIsReached(hooks, at, e) && hooks <= more
    ensures WakeIsReached(more, at, e)
  {
    if e.Receive? {
      forall j | 0 <= j < at ensures !EndOf(more, e.ends, j).Escapes? {
        assert EndOf(more, e.ends, j) == EndOf(hooks, e.ends, j);
      }
    }
  }

  lemma {:induction false} RunKeeps(w: Watch, events: seq<SystemEvent>, at: nat)
    requires Invariant(w.limiter) && forall e <- events :: WakeIsReached(w.hooks, at, e)
    requires IsRun(w, events) && VersionsTellChanges(w, events)
    ensures Invariant(End(w, events).limiter)
    decreases |events|
  {
    if events != [] {
      hide Invariant, WakeIsReached, After, Possible;
      assert events[0] in events && forall e <- events[1..] :: e in events;
      AfterKeeps(w, events[0], at);
      forall e <- events[1..] ensures WakeIsReached(After(w, events[0]).hooks, at, e) {
        ReachedLater(w.hooks, After(w, events[0]).hooks, at, e);
      }
      RunKeeps(After(w, events[0]), events[1..], at);
    }
  }

  /** In every state that any interleaving reaches, a waiter that is still pending means the limit is
      used up; in_use is the number of holders; the deque holds one future per suspended task; and
      every slot taken was released exactly once or is still held. Other hooks may raise any Exception,
      and those registered after wake() anything. */
  lemma NoWakeupIsEverLost(limit: int, earlier: seq<Hook>, events: seq<SystemEvent>)
    requires var start := Watch(Initial(limit), None, earlier + [WakeLimiter], [], true);
             IsRun(start, events) && VersionsTellChanges(start, events)
    requires forall e <- events :: e.Receive? ==> Passes(earlier, e.ends, 0, |earlier|)
    ensures var s := End(Watch(Initial(limit), None, earlier + [WakeLimiter], [], true), events).limiter;
            && NoLostWakeup(s) && NoAbandonedFuture(s) && SlotsBalance(s)
            && |RunningThreads(s)| <= s.inUse
  {
    var start := Watch(Initial(limit), None, earlier + [WakeLimiter], [], true);
    assert Holders(start.limiter) == {};
    forall e <- events ensures WakeIsReached(start.hooks, |earlier|, e) {
      if e.Receive? {
        forall j | 0 <= j < |earlier| ensures !EndOf(start.hooks, e.ends, j).Escapes? {
          assert EndOf(start.hooks, e.ends, j) == EndOf(earlier, e.ends, j);
        }
      }
    }
    RunKeeps(start, events, |earlier|);
    ThreadsWithinSlots(End(start, events).limiter);
  }

  lemma ThreadsWithinSlots(s: State)
    requires SlotsBalance(s)
    ensures |RunningThreads(s)| <= s.inUse
  {
    SubsetSize(RunningThreads(s), Holders(s));
  }

  /** Cancelling the caller of run_bounded neither frees its slot nor stops its thread. */
  lemma CancelledCallerKeepsItsSlot(s: State, t: nat)
    requires Invariant(s) && t in RunningThreads(s)
    ensures var next := Next(s, Cancel(t));
            && next.inUse == s.inUse && next.calls == s.calls && t in Holders(next) && RunningThreads(next) == RunningThreads(s)
            && !Enabled(next, ReleaseCallback(t)) && !Enabled(next, LeaveBody(t)) && !Enabled(next, DoneCallback(t))
  {
  }

  // ---- hooks ----

  function CallsOf(fired: seq<Firing>, hook: nat): seq<string> {
    if fired == [] then []
    else (if fired[0].hook == hook then [fired[0].version] else []) + CallsOf(fired[1..], hook)
  }

  lemma {:induction false} CallsOfAppend(fired: seq<Firing>, f: Firing, hook: nat)
    ensures CallsOf(fired + [f], hook) == CallsOf(fired, hook) + if f.hook == hook then [f.version] else []
  {
    if fired == [] {
      assert fired + [f] == [f];
    } else {
      var head := if fired[0].hook == hook then [fired[0].version] else [];
      var last := if f.hook == hook then [f.version] else [];
      assert (fired + [f])[1..] == fired[1..] + [f];
      CallsOfAppend(fired[1..], f, hook);
      assert head + (CallsOf(fired[1..], hook) + last) == head + CallsOf(fired[1..], hook) + last;
    }
  }

  lemma {:induction false} FireFromCalls(w: Watch, i: nat, version: string, ends: seq<HookEnd>, hook: nat)
    requires i <= |w.hooks|
    ensures CallsOf(FireFrom(w, i, version, ends).fired, hook) ==
            CallsOf(w.fired, hook) + if i <= hook < |w.hooks| && Passes(w.hooks, ends, i, hook) then [version] else []
    decreases |w.hooks| - i
  {
    hide CallsOf;
    if i < |w.hooks| {
      CallsOfAppend(w.fired, Firing(i, version), hook);
      if !EndOf(w.hooks, ends, i).Escapes? {
        FireFromCalls(FireOne(w, i, version), i + 1, version, ends, hook);
      }
    }
  }

  function VersionThen(version: Option<string>, e: SystemEvent): Option<string> {
    if e.Receive? then Some(e.snapshot.version) else version
  }

  predicate ChangesVersion(version: Option<string>, e: SystemEvent) {
    e.Receive? && version != Some(e.snapshot.version)
  }

  /** The versions at which the stream of received snapshots changes version. */
  function Changes(version: Option<string>, events: seq<SystemEvent>): seq<string>
    decreases |events|
  {
    if events == [] then []
    else
      (if ChangesVersion(version, events[0]) then [events[0].snapshot.version] else [])
      + Changes(VersionThen(version, events[0]), events[1..])
  }

  /** Those of them at which none of the given earlier hooks raises outside Exception. */
  function ReachedChanges(version: Option<string>, events: seq<SystemEvent>, earlier: seq<Hook>): seq<string>
    decreases |events|
  {
    if events == [] then []
    else
      (if ChangesVersion(version, events[0]) && Passes(earlier, events[0].ends, 0, |earlier|) then [events[0].snapshot.version] else [])
      + ReachedChanges(VersionThen(version, events[0]), events[1..], earlier)
  }

  lemma AfterCalls(w: Watch, e: SystemEvent, hook: nat)
    requires hook < |w.hooks| && Possible(w, e)
    ensures var next := After(w, e);
            && w.hooks <= next.hooks && next.version == VersionThen(w.version, e)
            && CallsOf(next.fired, hook) == CallsOf(w.fired, hook)
               + if ChangesVersion(w.version, e) && Passes(w.hooks[..hook], e.ends, 0, hook) then [e.snapshot.version] else []
  {
    if ChangesVersion(w.version, e) {
      var read := w.(limiter := w.limiter.(limit := e.snapshot.limit), version := Some(e.snapshot.version));
      FireFromEffect(read, 0, e.snapshot.version, e.ends);
      FireFromCalls(read, 0, e.snapshot.version, e.ends, hook);
      forall j | 0 <= j < hook ensures EndOf(w.hooks[..hook], e.ends, j) == EndOf(w.hooks, e.ends, j) { }
    }
  }

  /** From its registration on, a hook is called at exactly those changes between adjacent versions at
      which no hook registered before it raises outside Exception, once at each and in order. */
  lemma {:induction false} HookRunsUnlessEscaped(w: Watch, events: seq<SystemEvent>, hook: nat)
    requires hook < |w.hooks| && IsRun(w, events)
    ensures CallsOf(End(w, events).fired, hook) == CallsOf(w.fired, hook) + ReachedChanges(w.version, events, w.hooks[..hook])
    decreases |events|
  {
    hide After, CallsOf, Passes, Possible;
    if events != [] {
      AfterCalls(w, events[0], hook);
      var next := After(w, events[0]);
      assert next.hooks[..hook] == w.hooks[..hook];
      HookRunsUnlessEscaped(next, events[1..], hook);
    }
  }

  lemma {:induction false} AllChangesReached(version: Option<string>, events: seq<SystemEvent>, earlier: seq<Hook>)
    requires forall e <- events :: e.Receive? ==> Passes(earlier, e.ends, 0, |earlier|)
    ensures ReachedChanges(version, events, earlier) == Changes(version, events)
    decreases |events|
  {
    if events != [] {
      assert events[0] in events && forall e <- events[1..] :: e in events;
      AllChangesReached(VersionThen(version, events[0]), events[1..], earlier);
    }
  }

  /** So a hook is called exactly once per change as long as the hooks before it return or raise
      Exceptions, whatever those after it do. */
  lemma HooksFireOncePerChange(w: Watch, events: seq<SystemEvent>, hook: nat)
    requires hook < |w.hooks| && IsRun(w, events)
    requires forall e <- events :: e.Receive? ==> Passes(w.hooks[..hook], e.ends, 0, hook)
    ensures CallsOf(End(w, events).fired, hook) == CallsOf(w.fired, hook) + Changes(w.version, events)
  {
    HookRunsUnlessEscaped(w, events, hook);
    AllChangesReached(w.version, events, w.hooks[..hook]);
  }

  /** A BaseException in a hook ends the watch for good: no hook is called and no change arrives again. */
  lemma {:induction false} DeadWatch(w: Watch, events: seq<SystemEvent>)
    requires !w.watching && IsRun(w, events)
    ensures End(w, events).fired == w.fired && Changes(w.version, events) == []
    decreases |events|
  {
    if events != [] {
      DeadWatch(After(w, events[0]), events[1..]);
    }
  }
}
