/** The resizable concurrency limiter of app/config/live_limits.py on a single event loop.
    A step of the model is what one task or callback runs between two awaits. */
module LiveLimits {

  datatype FutureState = Pending | Resolved | Cancelled

  /** Who calls acquire: an `async with` body, or run_bounded with an executor that takes the job or raises. */
  datatype Caller = Body | Bounded(executorAccepts: bool)

  /** Where a task is. Everything but Waiting holds a slot. */
  datatype Task =
    | Waiting(future: nat, mustCancel: bool, caller: Caller)
    | InBody
    | ThreadRunning(callerGone: bool)
    | ThreadEnded
    | ReleaseQueued

  datatype Call = Admitted(task: nat) | Released(task: nat)

  /** `limit` is what limit_fn() returns now; `futures` is indexed by creation order; `calls` records
      the changes of in_use. */
  datatype State = State(
    limit: int,
    inUse: int,
    waiters: seq<nat>,
    futures: seq<FutureState>,
    tasks: map<nat, Task>,
    calls: seq<Call>)

  datatype Event =
    | Arrive(task: nat, caller: Caller)
    | Resume(task: nat)
    | Cancel(task: nat)
    | LeaveBody(task: nat)
    | ThreadEnds(task: nat)
    | DoneCallback(task: nat)
    | ReleaseCallback(task: nat)

  function Initial(limit: int): State {
    State(limit, 0, [], [], map[], [])
  }

  function Woken(futures: seq<FutureState>, waiters: seq<nat>): seq<FutureState> {
    seq(|futures|, i requires 0 <= i < |futures| => if i in waiters && futures[i].Pending? then Resolved else futures[i])
  }

  function WakeAll(s: State): State {
    s.(futures := Woken(s.futures, s.waiters))
  }

  /** release(): give the slot of `task` back, then wake every waiter. */
  function ReleaseSlot(s: State, task: nat): State {
    WakeAll(s.(inUse := s.inUse - 1, tasks := s.tasks - {task}, calls := s.calls + [Released(task)]))
  }

  function TakeSlot(s: State, task: nat, caller: Caller): State {
    var taken := s.(inUse := s.inUse + 1, calls := s.calls + [Admitted(task)]);
    match caller
    case Body => taken.(tasks := s.tasks[task := InBody])
    case Bounded(accepts) =>
      if accepts then taken.(tasks := s.tasks[task := ThreadRunning(false)]) else ReleaseSlot(taken, task)
  }

  /** The loop test of acquire(): suspend on a new future, or take a slot. */
  function TryAcquire(s: State, task: nat, caller: Caller): State {
    if s.inUse >= s.limit then
      s.(waiters := s.waiters + [|s.futures|],
         futures := s.futures + [Pending],
         tasks := s.tasks[task := Waiting(|s.futures|, false, caller)])
    else
      TakeSlot(s, task, caller)
  }

  function RemoveFirst(waiters: seq<nat>, future: nat): (rest: seq<nat>)
    ensures forall f <- rest :: f in waiters
    ensures forall f <- waiters :: f == future || f in rest
    ensures Distinct(waiters) ==> future !in rest && Distinct(rest)
  {
    if waiters == [] then []
    else if waiters[0] == future then
      assert forall f <- waiters :: f == waiters[0] || f in waiters[1..];
      waiters[1..]
    else
      var tail := RemoveFirst(waiters[1..], future);
      assert Distinct(waiters) ==> Distinct(waiters[1..]) && waiters[0] !in waiters[1..];
      [waiters[0]] + tail
  }

  ghost predicate Distinct(xs: seq<nat>) {
    forall i, j :: 0 <= i < j < |xs| ==> xs[i] != xs[j]
  }

  ghost predicate Enabled(s: State, e: Event) {
    match e
    case Arrive(t, _) => t !in s.tasks
    case Resume(t) => t in s.tasks && s.tasks[t].Waiting? && s.tasks[t].future < |s.futures| && !s.futures[s.tasks[t].future].Pending?
    case Cancel(t) => t in s.tasks && (s.tasks[t].Waiting? ==> s.tasks[t].future < |s.futures|)
    case LeaveBody(t) => t in s.tasks && s.tasks[t].InBody?
    case ThreadEnds(t) => t in s.tasks && s.tasks[t].ThreadRunning?
    case DoneCallback(t) => t in s.tasks && s.tasks[t].ThreadEnded?
    case ReleaseCallback(t) => t in s.tasks && s.tasks[t].ReleaseQueued?
  }

  /** Task.cancel(): a pending future is cancelled; a finished one leaves a cancellation to be thrown at
      the next resume; a thread's caller goes away behind the shield. */
  function CancelTask(s: State, t: nat): State
    requires t in s.tasks && (s.tasks[t].Waiting? ==> s.tasks[t].future < |s.futures|)
  {
    match s.tasks[t]
    case Waiting(f, _, caller) =>
      if s.futures[f].Pending? then s.(futures := s.futures[f := Cancelled])
      else s.(tasks := s.tasks[t := Waiting(f, true, caller)])
    case ThreadRunning(_) => s.(tasks := s.tasks[t := ThreadRunning(true)])
    case _ => s
  }

  /** Resuming inside acquire(): the finally clause drops the future, then the cancellation is raised or
      the loop test runs again. */
  function ResumeTask(s: State, t: nat): State
    requires t in s.tasks && s.tasks[t].Waiting? && s.tasks[t].future < |s.futures|
  {
    var Waiting(f, mustCancel, caller) := s.tasks[t];
    var dropped := s.(waiters := RemoveFirst(s.waiters, f));
    if s.futures[f].Cancelled? || mustCancel then dropped.(tasks := s.tasks - {t})
    else TryAcquire(dropped, t, caller)
  }

  function Next(s: State, e: Event): State
    requires Enabled(s, e)
  {
    match e
    case Arrive(t, caller) => TryAcquire(s, t, caller)
    case Resume(t) => ResumeTask(s, t)
    case Cancel(t) => CancelTask(s, t)
    case LeaveBody(t) => ReleaseSlot(s, t)
    case ThreadEnds(t) => s.(tasks := s.tasks[t := ThreadEnded])
    case DoneCallback(t) => s.(tasks := s.tasks[t := ReleaseQueued])
    case ReleaseCallback(t) => ReleaseSlot(s, t)
  }

  /** The class itself; every method is one uninterrupted run between awaits. */
  class ResizableLimiter {
    var limit: int
    var inUse: int
    var waiters: seq<nat>
    var futures: seq<FutureState>
    var tasks: map<nat, Task>
    ghost var calls: seq<Call>

    constructor (limit: int)
      ensures Now() == Initial(limit)
    {
      this.limit, inUse, waiters, futures, tasks, calls := limit, 0, [], [], map[], [];
    }

    ghost function Now(): State
      reads this
    {
      State(limit, inUse, waiters, futures, tasks, calls)
    }

    method Wake()
      requires forall w <- waiters :: w < |futures|
      modifies this`futures
      ensures Now() == WakeAll(old(Now()))
    {
      for i := 0 to |waiters|
        invariant |futures| == |old(futures)|
        invariant futures == Woken(old(futures), waiters[..i])
      {
        assert waiters[i] in waiters;
        if futures[waiters[i]].Pending? {
          futures := futures[waiters[i] := Resolved];
        }
        assert waiters[..i + 1] == waiters[..i] + [waiters[i]];
      }
      assert waiters[..|waiters|] == waiters;
    }

    method Release(t: nat)
      requires forall w <- waiters :: w < |futures|
      modifies this
      ensures Now() == ReleaseSlot(old(Now()), t)
    {
      inUse := inUse - 1;
      tasks := tasks - {t};
      calls := calls + [Released(t)];
      Wake();
    }

    /** acquire() from its loop test to its next await, and for run_bounded on to the submission. */
    method Acquire(t: nat, caller: Caller)
      requires forall w <- waiters :: w < |futures|
      modifies this
      ensures Now() == TryAcquire(old(Now()), t, caller)
    {
      if inUse >= limit {
        var fut := |futures|;
        futures := futures + [Pending];
        waiters := waiters + [fut];
        tasks := tasks[t := Waiting(fut, false, caller)];
        return;
      }
      inUse := inUse + 1;
      calls := calls + [Admitted(t)];
      match caller {
        case Body => tasks := tasks[t := InBody];
        case Bounded(accepts) =>
          if accepts {
            tasks := tasks[t := ThreadRunning(false)];
          } else {
            Release(t);
          }
      }
    }

    method ResumeAcquire(t: nat)
      requires t in tasks && tasks[t].Waiting? && tasks[t].future < |futures|
      requires forall w <- waiters :: w < |futures|
      modifies this
      ensures Now() == ResumeTask(old(Now()), t)
    {
      var task := tasks[t];
      waiters := RemoveFirst(waiters, task.future);
      if futures[task.future].Cancelled? || task.mustCancel {
        tasks := tasks - {t};
      } else {
        Acquire(t, task.caller);
      }
    }
  }
}
