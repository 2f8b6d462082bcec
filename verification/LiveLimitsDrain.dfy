/** Once the event loop stops producing anything but resumptions, waiting work drains: the loop cannot
    resume for ever, and when it is quiet nobody waits while a slot is free. */
module LiveLimitsDrain {
  import opened Sets
  import opened LiveLimits
  import opened LiveLimitsLaws

  function Suspended(s: State): set<nat> {
    set t | t in s.tasks && s.tasks[t].Waiting?
  }

  ghost function Resumable(s: State): set<nat> {
    set t | t in s.tasks && Enabled(s, Resume(t))
  }

  function Sum(suspended: nat, resumable: nat): nat {
    suspended * (suspended + 1) + resumable
  }

  ghost function Work(s: State): nat {
    Sum(|Suspended(s)|, |Resumable(s)|)
  }

  /** Suspending again, on a new future, wakes nobody. */
  lemma SuspendedAgain(s: State, t: nat, next: State, caller: Caller)
    requires NoAbandonedFuture(s) && Enabled(s, Resume(t))
    requires next.tasks == s.tasks[t := Waiting(|s.futures|, false, caller)] && next.futures == s.futures + [Pending]
    ensures Suspended(next) == Suspended(s) && Resumable(next) == Resumable(s) - {t}
  {
    forall u ensures u in Resumable(next) <==> u in Resumable(s) - {t} {
      if u in Suspended(s) && u != t {
        assert s.tasks[u].future in s.waiters;
        assert next.futures[s.tasks[u].future] == s.futures[s.tasks[u].future];
      }
    }
  }

  /** One resumption ends the task's wait for good, or suspends it again and wakes nobody. */
  lemma ResumeConsumes(s: State, t: nat)
    requires Invariant(s) && Enabled(s, Resume(t))
    ensures var next := Next(s, Resume(t));
            || Suspended(next) == Suspended(s) - {t}
            || (Suspended(next) == Suspended(s) && Resumable(next) == Resumable(s) - {t})
  {
    hide NoAbandonedFuture, NoLostWakeup, SlotsBalance, Woken, RemoveFirst, Resumable;
    var next, caller := Next(s, Resume(t)), s.tasks[t].caller;
    if t in next.tasks && next.tasks[t].Waiting? {
      assert next.tasks == s.tasks[t := Waiting(|s.futures|, false, caller)] && next.futures == s.futures + [Pending];
      SuspendedAgain(s, t, next, caller);
    } else {
      assert Suspended(next) == Suspended(s) - {t};
    }
  }

  lemma WorkDrops(s: State, t: nat)
    requires Invariant(s) && Enabled(s, Resume(t))
    ensures Work(Next(s, Resume(t))) < Work(s)
  {
    ResumeConsumes(s, t);
    hide Next, Invariant, Sum;
    SumDrops(Suspended(s), Resumable(s), Suspended(Next(s, Resume(t))), Resumable(Next(s, Resume(t))), t);
  }

  lemma SumDrops(suspended: set<nat>, resumable: set<nat>, suspended': set<nat>, resumable': set<nat>, t: nat)
    requires t in suspended && t in resumable && resumable' <= suspended'
    requires suspended' == suspended - {t} || (suspended' == suspended && resumable' == resumable - {t})
    ensures Sum(|suspended'|, |resumable'|) < Sum(|suspended|, |resumable|)
  {
    SubsetSize(resumable', suspended');
    if suspended' == suspended - {t} {
      var n := |suspended|;
      assert |suspended'| == n - 1;
      assert (n - 1) * n + 2 * n == n * (n + 1);
    }
  }

  ghost predicate IsDrain(s: State, tasks: seq<nat>)
    decreases |tasks|
  {
    tasks == [] || (Enabled(s, Resume(tasks[0])) && IsDrain(Next(s, Resume(tasks[0])), tasks[1..]))
  }

  function Drained(s: State, tasks: seq<nat>): State
    requires IsDrain(s, tasks)
    decreases |tasks|
  {
    if tasks == [] then s else Drained(Next(s, Resume(tasks[0])), tasks[1..])
  }

  /** Any run of resumptions, in any order, is bounded; when none is left, either no task waits or the
      limit is used up. */
  lemma {:induction false} DrainsToQuiet(s: State, tasks: seq<nat>)
    requires Invariant(s) && IsDrain(s, tasks)
    ensures var end := Drained(s, tasks);
            && |tasks| <= Work(s) - Work(end)
            && (Resumable(end) == {} ==> Suspended(end) == {} || end.inUse >= end.limit)
    decreases |tasks|
  {
    if tasks == [] {
      if Resumable(s) == {} && Suspended(s) != {} {
        var t :| t in Suspended(s);
        assert s.tasks[t].future in s.waiters;
        assert t !in Resumable(s);
      }
    } else {
      StepKeeps(s, Resume(tasks[0]));
      WorkDrops(s, tasks[0]);
      DrainsToQuiet(Next(s, Resume(tasks[0])), tasks[1..]);
    }
  }
}
