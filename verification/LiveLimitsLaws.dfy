/** What every interleaving of arrivals, resumptions, cancellations, releases, executor callbacks and
    limit changes keeps. */
module LiveLimitsLaws {
  import opened LiveLimits

  ghost predicate Awaits(s: State, t: nat, future: nat) {
    t in s.tasks && s.tasks[t].Waiting? && s.tasks[t].future == future
  }

  function Holders(s: State): set<nat> {
    set t | t in s.tasks && !s.tasks[t].Waiting?
  }

  function RunningThreads(s: State): set<nat> {
    set t | t in s.tasks && s.tasks[t].ThreadRunning?
  }

  /** The deque holds exactly the futures that tasks are suspended on, one task each. */
  ghost predicate NoAbandonedFuture(s: State) {
    && Distinct(s.waiters)
    && (forall w <- s.waiters :: w < |s.futures| && exists t :: Awaits(s, t, w))
    && (forall t <- s.tasks :: s.tasks[t].Waiting? ==> s.tasks[t].future in s.waiters)
    && (forall t, u, w :: Awaits(s, t, w) && Awaits(s, u, w) ==> t == u)
  }

  ghost predicate NoLostWakeup(s: State) {
    forall w <- s.waiters :: w < |s.futures| && s.futures[w].Pending? ==> s.inUse >= s.limit
  }

  function Times(s: State, c: Call): nat {
    multiset(s.calls)[c]
  }

  /** in_use counts the holders, and every slot taken has been given back exactly once unless its task
      still holds it. */
  ghost predicate SlotsBalance(s: State) {
    && s.inUse == |Holders(s)|
    && forall t :: Times(s, Admitted(t)) == Times(s, Released(t)) + if t in Holders(s) then 1 else 0
  }

  ghost predicate Invariant(s: State) {
    NoAbandonedFuture(s) && NoLostWakeup(s) && SlotsBalance(s)
  }

  // ---- the pieces of a step ----

  lemma WakeAllKeeps(s: State)
    requires NoAbandonedFuture(s) && SlotsBalance(s)
    ensures Invariant(WakeAll(s))
  {
    var woken := WakeAll(s);
    assert Holders(woken) == Holders(s);
    forall w <- woken.waiters ensures w < |woken.futures| && exists t :: Awaits(woken, t, w) {
      var t :| Awaits(s, t, w);
      assert Awaits(woken, t, w);
    }
    forall t, u, w | Awaits(woken, t, w) && Awaits(woken, u, w) ensures t == u {
      assert Awaits(s, t, w) && Awaits(s, u, w);
    }
    assert forall t :: Times(woken, Admitted(t)) == Times(s, Admitted(t)) && Times(woken, Released(t)) == Times(s, Released(t));
  }

  /** Changing only what a slot-holding task does. */
  lemma ForgetHolder(s: State, t: nat)
    requires NoAbandonedFuture(s) && t in Holders(s)
    ensures NoAbandonedFuture(s.(tasks := s.tasks - {t}))
  {
    var rest := s.(tasks := s.tasks - {t});
    forall w <- rest.waiters ensures exists u :: Awaits(rest, u, w) {
      var u :| Awaits(s, u, w);
      assert Awaits(rest, u, w);
    }
    forall u, v, w | Awaits(rest, u, w) && Awaits(rest, v, w) ensures u == v {
      assert Awaits(s, u, w) && Awaits(s, v, w);
    }
  }

  lemma ReleaseKeeps(s: State, t: nat)
    requires NoAbandonedFuture(s) && SlotsBalance(s) && t in Holders(s)
    ensures Invariant(ReleaseSlot(s, t))
  {
    var given := s.(inUse := s.inUse - 1, tasks := s.tasks - {t}, calls := s.calls + [Released(t)]);
    ForgetHolder(s, t);
    assert NoAbandonedFuture(given) by { SameWaiting(s.(tasks := s.tasks - {t}), given); }
    assert Holders(given) == Holders(s) - {t};
    forall u ensures Times(given, Admitted(u)) == Times(given, Released(u)) + if u in Holders(given) then 1 else 0 {
      assert Times(s, Admitted(u)) == Times(s, Released(u)) + if u in Holders(s) then 1 else 0;
    }
    WakeAllKeeps(given);
  }

  lemma SameWaiting(s: State, r: State)
    requires NoAbandonedFuture(s) && r.waiters == s.waiters && |r.futures| == |s.futures|
    requires forall t, w :: Awaits(s, t, w) <==> Awaits(r, t, w)
    ensures NoAbandonedFuture(r)
  {
    forall t <- r.tasks | r.tasks[t].Waiting? ensures r.tasks[t].future in r.waiters {
      assert Awaits(r, t, r.tasks[t].future);
      assert Awaits(s, t, r.tasks[t].future);
    }
    forall w <- r.waiters ensures exists t :: Awaits(r, t, w) {
      var t :| Awaits(s, t, w);
    }
  }

  lemma TakeKeeps(s: State, t: nat, task: Task)
    requires Invariant(s) && t !in s.tasks && !task.Waiting? && s.inUse < s.limit
    ensures var taken := s.(inUse := s.inUse + 1, calls := s.calls + [Admitted(t)], tasks := s.tasks[t := task]);
            Invariant(taken) && Holders(taken) == Holders(s) + {t} && taken.inUse <= taken.limit
  {
    var taken := s.(inUse := s.inUse + 1, calls := s.calls + [Admitted(t)], tasks := s.tasks[t := task]);
    assert forall u, w :: Awaits(s, u, w) <==> Awaits(taken, u, w);
    SameWaiting(s, taken);
    assert Holders(taken) == Holders(s) + {t};
    forall u ensures Times(taken, Admitted(u)) == Times(taken, Released(u)) + if u in Holders(taken) then 1 else 0 {
      assert Times(s, Admitted(u)) == Times(s, Released(u)) + if u in Holders(s) then 1 else 0;
    }
  }

  lemma SuspendKeeps(s: State, t: nat, caller: Caller)
    requires Invariant(s) && t !in s.tasks && s.inUse >= s.limit
    ensures Invariant(TryAcquire(s, t, caller))
  {
    var next := TryAcquire(s, t, caller);
    assert forall i :: 0 <= i < |s.waiters| ==> s.waiters[i] in s.waiters;
    assert Awaits(next, t, |s.futures|);
    assert forall u <- s.tasks :: s.tasks[u].Waiting? ==> s.tasks[u].future in s.waiters && s.tasks[u].future < |s.futures|;
    forall w <- next.waiters ensures w < |next.futures| && exists u :: Awaits(next, u, w) {
      if w != |s.futures| {
        assert w in s.waiters;
        var u :| Awaits(s, u, w);
        assert Awaits(next, u, w);
      }
    }
    forall u, v, w | Awaits(next, u, w) && Awaits(next, v, w) ensures u == v {
      if u != t && v != t {
        assert Awaits(s, u, w) && Awaits(s, v, w);
      }
    }
    assert Holders(next) == Holders(s);
    forall u ensures Times(next, Admitted(u)) == Times(next, Released(u)) + if u in Holders(next) then 1 else 0 {
      assert Times(s, Admitted(u)) == Times(s, Released(u)) + if u in Holders(s) then 1 else 0;
    }
  }

  /** An admission never takes in_use above the limit read at that moment. */
  lemma AcquireKeeps(s: State, t: nat, caller: Caller)
    requires Invariant(s) && t !in s.tasks
    ensures var next := TryAcquire(s, t, caller);
            Invariant(next) && (s.inUse < s.limit ==> next.inUse <= next.limit)
  {
    hide Invariant;
    if s.inUse >= s.limit {
      SuspendKeeps(s, t, caller);
    } else if caller.Body? {
      TakeKeeps(s, t, InBody);
    } else if caller.executorAccepts {
      TakeKeeps(s, t, ThreadRunning(false));
    } else {
      RejectedKeeps(s, t);
    }
  }

  /** A submission the executor refuses gives its slot straight back. */
  lemma RejectedKeeps(s: State, t: nat)
    requires Invariant(s) && t !in s.tasks && s.inUse < s.limit
    ensures var next := TakeSlot(s, t, Bounded(false));
            Invariant(next) && next.inUse == s.inUse && next.tasks == s.tasks
  {
    hide NoAbandonedFuture, NoLostWakeup, SlotsBalance, Woken;
    var taken := s.(inUse := s.inUse + 1, calls := s.calls + [Admitted(t)], tasks := s.tasks[t := ThreadRunning(false)]);
    TakeKeeps(s, t, ThreadRunning(false));
    ReleaseKeeps(taken, t);
    assert taken.tasks - {t} == s.tasks == s.tasks - {t};
    assert TakeSlot(s, t, Bounded(false)) == ReleaseSlot(taken, t);
  }

  /** The suspended task with its future dropped from the deque. */
  function Dropped(s: State, t: nat): State
    requires t in s.tasks && s.tasks[t].Waiting?
  {
    s.(waiters := RemoveFirst(s.waiters, s.tasks[t].future), tasks := s.tasks - {t})
  }

  lemma DropKeeps(s: State, t: nat)
    requires Invariant(s) && t in s.tasks && s.tasks[t].Waiting?
    ensures Invariant(Dropped(s, t)) && Holders(Dropped(s, t)) == Holders(s)
  {
    var rest := Dropped(s, t);
    forall w <- rest.waiters ensures exists u :: Awaits(rest, u, w) {
      var u :| Awaits(s, u, w);
      assert Awaits(rest, u, w);
    }
    forall u, v, w | Awaits(rest, u, w) && Awaits(rest, v, w) ensures u == v {
      assert Awaits(s, u, w) && Awaits(s, v, w);
    }
    forall u <- rest.tasks | rest.tasks[u].Waiting? ensures rest.tasks[u].future in rest.waiters {
      assert Awaits(s, u, s.tasks[u].future) && Awaits(s, t, s.tasks[t].future);
    }
    assert Holders(rest) == Holders(s);
    forall u ensures Times(rest, Admitted(u)) == Times(rest, Released(u)) + if u in Holders(rest) then 1 else 0 {
      assert Times(s, Admitted(u)) == Times(s, Released(u)) + if u in Holders(s) then 1 else 0;
    }
  }

  lemma Rebind(tasks: map<nat, Task>, t: nat, task: Task)
    ensures (tasks - {t})[t := task] == tasks[t := task]
    ensures tasks - {t} - {t} == tasks - {t}
  {
  }

  lemma ResumeAsArrival(s: State, t: nat)
    requires Enabled(s, Resume(t))
    ensures ResumeTask(s, t) ==
            if s.futures[s.tasks[t].future].Cancelled? || s.tasks[t].mustCancel then Dropped(s, t)
            else TryAcquire(Dropped(s, t), t, s.tasks[t].caller)
  {
    var caller := s.tasks[t].caller;
    Rebind(s.tasks, t, Waiting(|s.futures|, false, caller));
    Rebind(s.tasks, t, InBody);
    Rebind(s.tasks, t, ThreadRunning(false));
  }

  lemma CancelKeeps(s: State, t: nat)
    requires Invariant(s) && Enabled(s, Cancel(t))
    ensures Invariant(CancelTask(s, t)) && Holders(CancelTask(s, t)) == Holders(s)
  {
    var next := CancelTask(s, t);
    assert forall u, w :: Awaits(s, u, w) <==> Awaits(next, u, w);
    SameWaiting(s, next);
    assert Holders(next) == Holders(s);
    forall u ensures Times(next, Admitted(u)) == Times(next, Released(u)) + if u in Holders(next) then 1 else 0 {
      assert Times(s, Admitted(u)) == Times(s, Released(u)) + if u in Holders(s) then 1 else 0;
    }
  }

  lemma RelabelKeeps(s: State, t: nat, task: Task)
    requires Invariant(s) && t in Holders(s) && !task.Waiting?
    ensures Invariant(s.(tasks := s.tasks[t := task]))
  {
    var next := s.(tasks := s.tasks[t := task]);
    assert forall u, w :: Awaits(s, u, w) <==> Awaits(next, u, w);
    SameWaiting(s, next);
    assert Holders(next) == Holders(s);
    forall u ensures Times(next, Admitted(u)) == Times(next, Released(u)) + if u in Holders(next) then 1 else 0 {
      assert Times(s, Admitted(u)) == Times(s, Released(u)) + if u in Holders(s) then 1 else 0;
    }
  }

  lemma StepKeeps(s: State, e: Event)
    requires Invariant(s) && Enabled(s, e)
    ensures Invariant(Next(s, e))
  {
    match e {
      case Arrive(t, caller) => AcquireKeeps(s, t, caller);
      case Resume(t) =>
        DropKeeps(s, t);
        ResumeAsArrival(s, t);
        AcquireKeeps(Dropped(s, t), t, s.tasks[t].caller);
      case Cancel(t) => CancelKeeps(s, t);
      case LeaveBody(t) => ReleaseKeeps(s, t);
      case ThreadEnds(t) => RelabelKeeps(s, t, ThreadEnded);
      case DoneCallback(t) => RelabelKeeps(s, t, ReleaseQueued);
      case ReleaseCallback(t) => ReleaseKeeps(s, t);
    }
  }
}
