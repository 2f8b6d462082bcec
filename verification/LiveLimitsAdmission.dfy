/** Who is admitted, when, and what every step does to in_use, to the calls and to the futures. */
module LiveLimitsAdmission {
  import opened LiveLimits
  import opened LiveLimitsLaws
  import opened ConfigWatch
  import opened ConfigWatchLaws
  import opened Options

  /** The event lets `t` run into the loop test of acquire(): it arrives, or it resumes uncancelled. */
  ghost predicate Seeks(s: State, e: Event, t: nat)
    requires Enabled(s, e)
  {
    match e
    case Arrive(u, _) => u == t
    case Resume(u) => u == t && s.futures[s.tasks[t].future].Resolved? && !s.tasks[t].mustCancel
    case _ => false
  }

  ghost function CallerOf(s: State, e: Event, t: nat): Caller
    requires Enabled(s, e) && Seeks(s, e, t)
  {
    match e
    case Arrive(_, caller) => caller
    case Resume(_) => s.tasks[t].caller
  }

  /** `t` gives a slot back: its body or its thread is done, or the executor refuses what it just got a slot for. */
  ghost predicate GivesBack(s: State, e: Event, t: nat)
    requires Enabled(s, e)
  {
    || e == LeaveBody(t) || e == ReleaseCallback(t)
    || (Seeks(s, e, t) && s.inUse < s.limit && CallerOf(s, e, t) == Bounded(false))
  }

  /** The calls a step makes, in order. */
  ghost function Made(s: State, e: Event): seq<Call>
    requires Enabled(s, e)
  {
    if Seeks(s, e, e.task) && s.inUse < s.limit then
      if CallerOf(s, e, e.task) == Bounded(false) then [Admitted(e.task), Released(e.task)] else [Admitted(e.task)]
    else if e.LeaveBody? || e.ReleaseCallback? then [Released(e.task)]
    else []
  }

  lemma CallsMove(s: State, e: Event)
    requires Invariant(s) && Enabled(s, e)
    ensures Next(s, e).calls == s.calls + Made(s, e) && Next(s, e).limit == s.limit
  {
    hide Woken, RemoveFirst, NoAbandonedFuture, NoLostWakeup, SlotsBalance;
  }

  lemma CallCounts(task: nat, t: nat)
    ensures multiset([Admitted(task)])[Admitted(t)] == if t == task then 1 else 0
    ensures multiset([Admitted(task)])[Released(t)] == 0
    ensures multiset([Released(task)])[Admitted(t)] == 0
    ensures multiset([Released(task)])[Released(t)] == if t == task then 1 else 0
    ensures multiset([Admitted(task), Released(task)])[Admitted(t)] == if t == task then 1 else 0
    ensures multiset([Admitted(task), Released(task)])[Released(t)] == if t == task then 1 else 0
  {
  }

  lemma OnlyTheActor(s: State, e: Event, t: nat)
    requires Enabled(s, e)
    ensures Seeks(s, e, t) ==> t == e.task
    ensures GivesBack(s, e, t) <==>
            t == e.task && (e.LeaveBody? || e.ReleaseCallback?
                            || (Seeks(s, e, t) && s.inUse < s.limit && CallerOf(s, e, t) == Bounded(false)))
    ensures e.LeaveBody? || e.ReleaseCallback? ==> !Seeks(s, e, t)
  {
  }

  lemma MadeCounts(s: State, e: Event, t: nat)
    requires Enabled(s, e)
    ensures multiset(Made(s, e))[Admitted(t)] == if Seeks(s, e, t) && s.inUse < s.limit then 1 else 0
    ensures multiset(Made(s, e))[Released(t)] == if GivesBack(s, e, t) then 1 else 0
  {
    OnlyTheActor(s, e, t);
    OnlyTheActor(s, e, e.task);
    CallCounts(e.task, t);
    hide Seeks, GivesBack, CallerOf, Enabled;
  }

  /** A task takes a slot exactly when it runs into the loop test while in_use is below the limit, and gives
      one back exactly when it is done; no step changes the limit. */
  lemma SlotsMove(s: State, e: Event, t: nat)
    requires Invariant(s) && Enabled(s, e)
    ensures var next := Next(s, e);
            && next.limit == s.limit
            && Times(next, Admitted(t)) == Times(s, Admitted(t)) + (if Seeks(s, e, t) && s.inUse < s.limit then 1 else 0)
            && Times(next, Released(t)) == Times(s, Released(t)) + (if GivesBack(s, e, t) then 1 else 0)
  {
    hide Invariant, Next, Enabled, Made, Seeks, GivesBack;
    CallsMove(s, e);
    MadeCounts(s, e, t);
    assert multiset(s.calls + Made(s, e)) == multiset(s.calls) + multiset(Made(s, e));
  }

  /** in_use never grows past the limit: a step that admits anybody starts below the limit and ends within it. */
  lemma AdmittedBelowLimit(s: State, e: Event, t: nat)
    requires Invariant(s) && Enabled(s, e)
    requires Times(Next(s, e), Admitted(t)) > Times(s, Admitted(t))
    ensures s.inUse < s.limit && Next(s, e).inUse <= s.limit == Next(s, e).limit
  {
    SlotsMove(s, e, t);
    hide Woken, RemoveFirst, NoAbandonedFuture, NoLostWakeup, SlotsBalance, Times;
  }

  /** in_use grows by at most one, and only in a step that starts below the limit. */
  lemma InUseGrowth(s: State, e: Event)
    requires Invariant(s) && Enabled(s, e)
    ensures Next(s, e).inUse <= s.inUse || (Next(s, e).inUse == s.inUse + 1 <= s.limit)
  {
    hide Woken, RemoveFirst, NoAbandonedFuture, NoLostWakeup, SlotsBalance;
  }

  /** At the limit whoever runs into the loop test suspends: nothing is called, in_use stays, and the task
      waits in the deque on a new future that is pending. */
  lemma SuspendsAtLimit(s: State, e: Event, t: nat)
    requires Invariant(s) && Enabled(s, e) && Seeks(s, e, t) && s.inUse >= s.limit
    ensures var next := Next(s, e);
            && next.inUse == s.inUse && next.calls == s.calls
            && t in next.tasks && next.tasks[t] == Waiting(|s.futures|, false, CallerOf(s, e, t))
            && |s.futures| in next.waiters && next.futures == s.futures + [Pending]
  {
    hide Woken, RemoveFirst, NoAbandonedFuture, NoLostWakeup, SlotsBalance;
  }

  /** Below the limit it goes on at once: into its body, into a thread, or out again when the executor refuses. */
  lemma GoesOnBelowLimit(s: State, e: Event, t: nat)
    requires Invariant(s) && Enabled(s, e) && Seeks(s, e, t) && s.inUse < s.limit
    ensures var next := Next(s, e);
            match CallerOf(s, e, t)
            case Body => t in next.tasks && next.tasks[t] == InBody && next.inUse == s.inUse + 1
            case Bounded(accepts) =>
              if accepts then t in next.tasks && next.tasks[t] == ThreadRunning(false) && next.inUse == s.inUse + 1
              else t !in next.tasks && next.inUse == s.inUse
  {
    hide Woken, RemoveFirst, NoAbandonedFuture, NoLostWakeup, SlotsBalance;
  }

  /** A cancelled wait ends without a slot: the task is gone and its future out of the deque. */
  lemma CancelledWaitEnds(s: State, t: nat)
    requires Invariant(s) && Enabled(s, Resume(t)) && !Seeks(s, Resume(t), t)
    ensures var next := Next(s, Resume(t));
            && t !in next.tasks && s.tasks[t].future !in next.waiters
            && next.inUse == s.inUse && next.calls == s.calls && next.futures == s.futures
  {
    hide Woken, NoLostWakeup, SlotsBalance;
  }

  /** Cancelling a waiting task cancels its pending future, or marks the task when the future is done. */
  lemma CancelReachesWaiter(s: State, t: nat)
    requires Invariant(s) && Enabled(s, Cancel(t)) && t in s.tasks && s.tasks[t].Waiting?
    ensures var next := Next(s, Cancel(t));
            Enabled(next, Resume(t)) && !Seeks(next, Resume(t), t) && next.inUse == s.inUse && next.waiters == s.waiters
  {
    hide Woken, RemoveFirst, NoAbandonedFuture, NoLostWakeup, SlotsBalance;
  }

  /** A future is settled once: done, it stays as it is; pending, only the cancellation of its own task
      cancels it, and only a step that gives a slot back resolves it. */
  lemma FuturesSettleOnce(s: State, e: Event, f: nat)
    requires Invariant(s) && Enabled(s, e) && f < |s.futures|
    ensures var next := Next(s, e);
            && f < |next.futures|
            && (!s.futures[f].Pending? ==> next.futures[f] == s.futures[f])
            && (s.futures[f].Pending? && next.futures[f].Cancelled? ==> e.Cancel? && Awaits(s, e.task, f))
            && (s.futures[f].Pending? && next.futures[f].Resolved? ==> f in s.waiters && exists t :: GivesBack(s, e, t))
  {
    hide NoAbandonedFuture, NoLostWakeup, SlotsBalance, Times, RemoveFirst;
    var next := Next(s, e);
    if s.futures[f].Pending? && next.futures[f].Resolved? {
      assert GivesBack(s, e, e.task);
    }
  }

  // ---- over runs ----

  lemma {:induction false} RunSplits(w: Watch, events: seq<SystemEvent>, k: nat)
    requires k < |events| && IsRun(w, events)
    ensures IsRun(w, events[..k]) && Possible(End(w, events[..k]), events[k])
    ensures IsRun(w, events[..k + 1]) && End(w, events[..k + 1]) == After(End(w, events[..k]), events[k])
    decreases k
  {
    hide After, Possible;
    if k == 0 {
      assert events[..1][1..] == [] && events[..0] == [];
    } else {
      assert events[1..][k - 1] == events[k];
      assert events[..k][1..] == events[1..][..k - 1] && events[..k + 1][1..] == events[1..][..k];
      RunSplits(After(w, events[0]), events[1..], k - 1);
    }
  }

  lemma {:induction false} PrefixTellsChanges(w: Watch, events: seq<SystemEvent>, k: nat)
    requires k <= |events| && IsRun(w, events) && VersionsTellChanges(w, events) && IsRun(w, events[..k])
    ensures VersionsTellChanges(w, events[..k])
    decreases k
  {
    hide After, Possible;
    if k > 0 {
      assert events[..k][1..] == events[1..][..k - 1];
      PrefixTellsChanges(After(w, events[0]), events[1..], k - 1);
    }
  }

  lemma InvariantAlong(limit: int, earlier: seq<Hook>, events: seq<SystemEvent>, k: nat)
    requires var start := Watch(Initial(limit), None, earlier + [WakeLimiter], [], true);
             IsRun(start, events) && VersionsTellChanges(start, events)
    requires forall e <- events :: e.Receive? ==> Passes(earlier, e.ends, 0, |earlier|)
    requires k < |events|
    ensures var start := Watch(Initial(limit), None, earlier + [WakeLimiter], [], true);
            && IsRun(start, events[..k]) && IsRun(start, events[..k + 1])
            && Possible(End(start, events[..k]), events[k])
            && End(start, events[..k + 1]) == After(End(start, events[..k]), events[k])
            && Invariant(End(start, events[..k]).limiter)
  {
    hide Possible, After, Passes;
    var start := Watch(Initial(limit), None, earlier + [WakeLimiter], [], true);
    RunSplits(start, events, k);
    PrefixTellsChanges(start, events, k);
    forall e <- events[..k] ensures e in events { }
    NoWakeupIsEverLost(limit, earlier, events[..k]);
  }

  /** In every run of limiter and watcher, whoever is admitted by a step was admitted below the limit read
      at that moment, and the step ends within it. */
  lemma EveryAdmissionBelowLimit(limit: int, earlier: seq<Hook>, events: seq<SystemEvent>, k: nat, t: nat)
    requires var start := Watch(Initial(limit), None, earlier + [WakeLimiter], [], true);
             IsRun(start, events) && VersionsTellChanges(start, events)
    requires forall e <- events :: e.Receive? ==> Passes(earlier, e.ends, 0, |earlier|)
    requires k < |events|
    ensures var start := Watch(Initial(limit), None, earlier + [WakeLimiter], [], true);
            && IsRun(start, events[..k]) && IsRun(start, events[..k + 1])
            && var s, next := End(start, events[..k]).limiter, End(start, events[..k + 1]).limiter;
            Times(next, Admitted(t)) > Times(s, Admitted(t)) ==> s.inUse < s.limit && next.inUse <= s.limit == next.limit
  {
    InvariantAlong(limit, earlier, events, k);
    var start := Watch(Initial(limit), None, earlier + [WakeLimiter], [], true);
    var w := End(start, events[..k]);
    hide IsRun, End, Invariant, Times, Wakes, Passes;
    match events[k] {
      case Loop(e) =>
        if Times(Next(w.limiter, e), Admitted(t)) > Times(w.limiter, Admitted(t)) {
          AdmittedBelowLimit(w.limiter, e, t);
        }
      case Register(_) =>
      case Receive(snapshot, ends) => SnapshotCallsNobody(w, snapshot, ends, t);
    }
  }

  lemma SnapshotCallsNobody(w: Watch, snapshot: Snapshot, ends: seq<HookEnd>, t: nat)
    ensures var next := ApplySnapshot(w, snapshot, ends);
            next.limiter.calls == w.limiter.calls && next.limiter.inUse == w.limiter.inUse && next.limiter.limit == snapshot.limit
    ensures Times(ApplySnapshot(w, snapshot, ends).limiter, Admitted(t)) == Times(w.limiter, Admitted(t))
  {
    if w.version != Some(snapshot.version) {
      FireFromEffect(w.(limiter := w.limiter.(limit := snapshot.limit), version := Some(snapshot.version)), 0, snapshot.version, ends);
    }
  }

  /** And whoever reaches the loop test at the limit in any run is left waiting on a pending future. */
  lemma EverySeekerWaitsAtLimit(limit: int, earlier: seq<Hook>, events: seq<SystemEvent>, k: nat, t: nat)
    requires var start := Watch(Initial(limit), None, earlier + [WakeLimiter], [], true);
             IsRun(start, events) && VersionsTellChanges(start, events)
    requires forall e <- events :: e.Receive? ==> Passes(earlier, e.ends, 0, |earlier|)
    requires k < |events| && events[k].Loop?
    ensures var start := Watch(Initial(limit), None, earlier + [WakeLimiter], [], true);
            && IsRun(start, events[..k]) && IsRun(start, events[..k + 1])
            && var s, next := End(start, events[..k]).limiter, End(start, events[..k + 1]).limiter;
            && Enabled(s, events[k].event)
            && (Seeks(s, events[k].event, t) && s.inUse >= s.limit ==>
                  && next.inUse == s.inUse && next.calls == s.calls
                  && t in next.tasks && next.tasks[t].Waiting? && next.tasks[t].future in next.waiters
                  && next.tasks[t].future < |next.futures| && next.futures[next.tasks[t].future].Pending?)
  {
    InvariantAlong(limit, earlier, events, k);
    var start := Watch(Initial(limit), None, earlier + [WakeLimiter], [], true);
    var s := End(start, events[..k]).limiter;
    hide IsRun, End, Invariant, Seeks, Next;
    if Seeks(s, events[k].event, t) && s.inUse >= s.limit {
      SuspendsAtLimit(s, events[k].event, t);
    }
  }
}
