/** The maps of the live loop simulate the pure transition core, although they are not equal to it. */
module LivePairLaws {
  import opened Options
  import opened LiveTransition
  import opened LiveTransitionLaws
  import opened LivePair

  /** While flat only the exit anchor must agree, while in position only the entry anchor: the other
      one may be stale. */
  ghost predicate Simulates(pair: Pair, p: Position) {
    && pair.lastState == p.inPosition
    && (if p.inPosition then pair.lastEntryAt == p.entryTime else pair.lastExitAt == p.lastExitAt)
  }

  predicate Commits(o: Outcome) {
    o.Steady? || o.Throttled? || o.Alerted?
  }

  function TriggerOf(o: Outcome): Trigger {
    if o.Throttled? || o.Alerted? || o.AlertFailed? then o.trigger else Nothing
  }

  lemma StaleAnchorsDoNotMatter(p: Position, q: Position, i: Input)
    requires p.inPosition == q.inPosition
    requires if p.inPosition then p.entryTime == q.entryTime else p.lastExitAt == q.lastExitAt
    ensures var (p', t) := ApplyTransition(p, i);
            var (q', u) := ApplyTransition(q, i);
            && t == u && p'.inPosition == q'.inPosition
            && (if p'.inPosition then p'.entryTime == q'.entryTime else p'.lastExitAt == q'.lastExitAt)
  {
  }

  /** Where the pure core stands before the live bar of this evaluation. */
  function Before(pair: Pair, p: Position, e: Evaluation): Position {
    if pair.replayed || !Usable(e) || |e.bars| != |e.decisions.value| then p else Replayed(pair, e)
  }

  /** Where it stands afterwards: an evaluation that does not commit is a stuttering step. */
  function Follow(pair: Pair, p: Position, e: Evaluation): Position {
    var start := Before(pair, p, e);
    if Commits(Evaluate(pair, e).1) && Usable(e) then ApplyTransition(start, LiveInput(e)).0 else start
  }

  lemma EvaluationSimulates(pair: Pair, p: Position, e: Evaluation)
    requires pair.replayed ==> Simulates(pair, p)
    ensures var (after, o) := Evaluate(pair, e);
            && (after.replayed ==> Simulates(after, Follow(pair, p, e)))
            && (after.replayed <==> pair.replayed || (Usable(e) && |e.bars| == |e.decisions.value|))
            && (Commits(o) ==> Usable(e) && TriggerOf(o) == ApplyTransition(Before(pair, p, e), LiveInput(e)).1)
            && (Commits(o) ==> (o.Steady? <==> TriggerOf(o).Nothing?))
            && (o.AlertFailed? ==> o.trigger == ApplyTransition(Before(pair, p, e), LiveInput(e)).1 != Nothing)
  {
    if Usable(e) && (pair.replayed || |e.bars| == |e.decisions.value|) {
      var start := Before(pair, p, e);
      var assessed := Assessed(pair, e.availability);
      var ready := if pair.replayed then assessed
                   else assessed.(lastState := start.inPosition, lastEntryAt := start.entryTime, lastExitAt := start.lastExitAt, replayed := true);
      StaleAnchorsDoNotMatter(Position(ready.lastState, ready.lastEntryAt, ready.lastExitAt), start, LiveInput(e));
    }
  }

  // ---- whole runs ----

  function EndPair(pair: Pair, es: seq<Evaluation>): Pair
    decreases |es|
  {
    if es == [] then pair else EndPair(Evaluate(pair, es[0]).0, es[1..])
  }

  /** The live inputs that the run commits, failed alerts left out. */
  function CommittedInputs(pair: Pair, es: seq<Evaluation>): seq<Input>
    decreases |es|
  {
    if es == [] then []
    else
      var (next, o) := Evaluate(pair, es[0]);
      (if Commits(o) && Usable(es[0]) then [LiveInput(es[0])] else []) + CommittedInputs(next, es[1..])
  }

  /** The transitions whose alert was sent or throttled, in order. */
  function CommittedTransitions(pair: Pair, es: seq<Evaluation>): seq<Transition>
    decreases |es|
  {
    if es == [] then []
    else
      var (next, o) := Evaluate(pair, es[0]);
      (if Commits(o) && !o.Steady? && Usable(es[0]) then [Transition(o.trigger, LiveInput(es[0]))] else [])
      + CommittedTransitions(next, es[1..])
  }

  /** Every run of the class on a replayed key is a run of the pure core on the committed inputs, with
      the same transitions. */
  lemma {:induction false} ClassRunIsCoreRun(pair: Pair, p: Position, es: seq<Evaluation>)
    requires pair.replayed && Simulates(pair, p)
    ensures Simulates(EndPair(pair, es), Run(p, CommittedInputs(pair, es)))
    ensures CommittedTransitions(pair, es) == Transitions(p, CommittedInputs(pair, es))
    decreases |es|
  {
    hide Evaluate, Simulates;
    if es != [] {
      var (next, o) := Evaluate(pair, es[0]);
      EvaluationSimulates(pair, p, es[0]);
      ClassRunIsCoreRun(next, Follow(pair, p, es[0]), es[1..]);
      if Commits(o) {
        assert CommittedInputs(pair, es)[1..] == CommittedInputs(next, es[1..]);
      } else {
        assert CommittedInputs(pair, es) == CommittedInputs(next, es[1..]);
      }
      if !Commits(o) || o.Steady? {
        assert CommittedTransitions(pair, es) == CommittedTransitions(next, es[1..]);
      }
    }
  }

  /** The boot backfill may write while an evaluation awaits its durable write or its alert. The outcome
      is that of the undisturbed evaluation. A committed exit ends flat as it should, with the backfilled
      entry time as a stale anchor that the simulation allows; otherwise the state is as if the backfill
      had come after the evaluation. */
  lemma BackfillDuringEvaluation(pair: Pair, next: Position, trigger: Trigger, e: Evaluation, entryTime: int, p: Position)
    requires next.inPosition <==> trigger.Entry?
    requires trigger != Nothing
    ensures var (during, o) := Finish(Backfilled(AnchorWritten(pair, next, trigger), entryTime), next, trigger, e);
            var (after, u) := Record(pair, next, trigger, e);
            && o == u
            && (if Commits(o) && trigger.Exit? then !during.lastState && (Simulates(after, p) ==> Simulates(during, p))
                else during == Backfilled(after, entryTime))
  {
  }

  // ---- runs with backfills ----

  /** The pair once the evaluation has assessed it and, if need be, replayed its history. */
  function Ready(pair: Pair, e: Evaluation): Pair
    requires Usable(e) && (pair.replayed || |e.bars| == |e.decisions.value|)
  {
    var assessed := Assessed(pair, e.availability);
    if pair.replayed then assessed
    else
      var start := Replayed(pair, e);
      assessed.(lastState := start.inPosition, lastEntryAt := start.entryTime, lastExitAt := start.lastExitAt, replayed := true)
  }

  /** The evaluation during whose awaited writes a backfill writes; without a transition nothing is awaited. */
  function EvaluateDisturbed(pair: Pair, e: Evaluation, entryTime: int): (Pair, Outcome) {
    if !Usable(e) || !(pair.replayed || |e.bars| == |e.decisions.value|) then Evaluate(pair, e)
    else
      var ready := Ready(pair, e);
      var (next, trigger) := ApplyTransition(Position(ready.lastState, ready.lastEntryAt, ready.lastExitAt), LiveInput(e));
      if trigger.Nothing? then Evaluate(pair, e)
      else Finish(Backfilled(AnchorWritten(ready, next, trigger), entryTime), next, trigger, e)
  }

  predicate CommitsExit(o: Outcome) {
    (o.Throttled? || o.Alerted?) && o.trigger.Exit?
  }

  /** A disturbed evaluation ends as if the backfill had come after it, except that a committed exit ends
      flat. */
  lemma DisturbedIs(pair: Pair, e: Evaluation, entryTime: int)
    requires pair.replayed
    ensures var (during, o) := EvaluateDisturbed(pair, e, entryTime);
            var (after, u) := Evaluate(pair, e);
            && o == u && during.replayed && after.replayed
            && (if TriggerOf(o).Nothing? then during == after
                else if CommitsExit(o) then forall p :: Simulates(after, p) ==> Simulates(during, p)
                else during == Backfilled(after, entryTime))
  {
    if Usable(e) {
      var ready := Ready(pair, e);
      var p := Position(ready.lastState, ready.lastEntryAt, ready.lastExitAt);
      var (next, trigger) := ApplyTransition(p, LiveInput(e));
      FiresIff(p, LiveInput(e));
      hide ApplyTransition, LiveInput;
      assert Evaluate(pair, e) == EvaluateReplayed(ready, e);
    }
  }

  datatype Happening = Evaluates(e: Evaluation) | Backfills(entryTime: int) | Disturbed(e: Evaluation, entryTime: int)

  function AfterHappening(pair: Pair, h: Happening): (Pair, Outcome) {
    match h
    case Evaluates(e) => Evaluate(pair, e)
    case Backfills(entryTime) => (Backfilled(pair, entryTime), Steady)
    case Disturbed(e, entryTime) => EvaluateDisturbed(pair, e, entryTime)
  }

  function EndOfRun(pair: Pair, hs: seq<Happening>): Pair
    decreases |hs|
  {
    if hs == [] then pair else EndOfRun(AfterHappening(pair, hs[0]).0, hs[1..])
  }

  /** The core either takes an input, or is set open by a backfill. */
  datatype CoreStep = Takes(input: Input) | Jumps(entryTime: int)

  function AfterCoreStep(p: Position, step: CoreStep): Position {
    match step
    case Takes(i) => ApplyTransition(p, i).0
    case Jumps(entryTime) => Position(true, Some(entryTime), p.lastExitAt)
  }

  function CoreEnd(p: Position, steps: seq<CoreStep>): Position
    decreases |steps|
  {
    if steps == [] then p else CoreEnd(AfterCoreStep(p, steps[0]), steps[1..])
  }

  /** What one happening means for the core: the committed input, then the jump unless it is lost. */
  function StepsOf(pair: Pair, h: Happening): seq<CoreStep> {
    var o := AfterHappening(pair, h).1;
    if h.Backfills? then [Jumps(h.entryTime)]
    else
      (if Commits(o) && Usable(h.e) then [Takes(LiveInput(h.e))] else [])
      + (if h.Disturbed? && !TriggerOf(o).Nothing? && !CommitsExit(o) then [Jumps(h.entryTime)] else [])
  }

  function CoreSteps(pair: Pair, hs: seq<Happening>): seq<CoreStep>
    decreases |hs|
  {
    if hs == [] then [] else StepsOf(pair, hs[0]) + CoreSteps(AfterHappening(pair, hs[0]).0, hs[1..])
  }

  lemma {:induction false} CoreEndConcat(p: Position, a: seq<CoreStep>, b: seq<CoreStep>)
    ensures CoreEnd(p, a + b) == CoreEnd(CoreEnd(p, a), b)
    decreases |a|
  {
    hide AfterCoreStep;
    if a == [] {
      assert a + b == b;
    } else {
      assert (a + b)[1..] == a[1..] + b;
      CoreEndConcat(AfterCoreStep(p, a[0]), a[1..], b);
    }
  }

  lemma OneStep(p: Position, step: CoreStep)
    ensures CoreEnd(p, [step]) == AfterCoreStep(p, step)
  {
    assert [step][1..] == [];
    assert CoreEnd(AfterCoreStep(p, step), []) == AfterCoreStep(p, step);
  }

  /** One undisturbed evaluation of a replayed pair is what it means for the core. */
  lemma EvaluationSteps(pair: Pair, p: Position, e: Evaluation)
    requires pair.replayed && Simulates(pair, p)
    ensures var (after, o) := Evaluate(pair, e);
            var steps := if Commits(o) && Usable(e) then [Takes(LiveInput(e))] else [];
            after.replayed && Simulates(after, CoreEnd(p, steps))
  {
    hide Evaluate, Simulates, ApplyTransition, LiveInput;
    EvaluationSimulates(pair, p, e);
    if Usable(e) {
      OneStep(p, Takes(LiveInput(e)));
    }
  }

  lemma HappeningSimulates(pair: Pair, p: Position, h: Happening)
    requires pair.replayed && Simulates(pair, p)
    ensures AfterHappening(pair, h).0.replayed
    ensures Simulates(AfterHappening(pair, h).0, CoreEnd(p, StepsOf(pair, h)))
  {
    hide Evaluate, EvaluateDisturbed, ApplyTransition, LiveInput, CoreEnd;
    match h {
      case Evaluates(e) =>
        EvaluationSteps(pair, p, e);
        assert StepsOf(pair, h) == if Commits(Evaluate(pair, e).1) && Usable(e) then [Takes(LiveInput(e))] else [];
      case Backfills(entryTime) =>
        OneStep(p, Jumps(entryTime));
      case Disturbed(e, entryTime) =>
        EvaluationSteps(pair, p, e);
        DisturbedIs(pair, e, entryTime);
        var o := Evaluate(pair, e).1;
        var takes := if Commits(o) && Usable(e) then [Takes(LiveInput(e))] else [];
        if !TriggerOf(o).Nothing? && !CommitsExit(o) {
          CoreEndConcat(p, takes, [Jumps(entryTime)]);
          OneStep(CoreEnd(p, takes), Jumps(entryTime));
        } else {
          assert StepsOf(pair, h) == takes;
        }
    }
  }

  /** With backfills at any points, between evaluations or during their awaits, every run of the class on
      a replayed key is a run of the core on the committed inputs, with one jump to open for each backfill
      that a committed exit does not swallow. */
  lemma {:induction false} BackfilledRunIsCoreRun(pair: Pair, p: Position, hs: seq<Happening>)
    requires pair.replayed && Simulates(pair, p)
    ensures Simulates(EndOfRun(pair, hs), CoreEnd(p, CoreSteps(pair, hs)))
    decreases |hs|
  {
    hide AfterHappening, StepsOf, Simulates;
    if hs != [] {
      HappeningSimulates(pair, p, hs[0]);
      BackfilledRunIsCoreRun(AfterHappening(pair, hs[0]).0, CoreEnd(p, StepsOf(pair, hs[0])), hs[1..]);
      CoreEndConcat(p, StepsOf(pair, hs[0]), CoreSteps(AfterHappening(pair, hs[0]).0, hs[1..]));
    }
  }

  /** From the first evaluation after a restart: the run is the replay of that evaluation's history,
      started flat from the known anchors, followed by the committed live inputs; so whatever the
      pure core obeys, the class obeys. */
  lemma FreshRunIsReplayThenCore(pair: Pair, first: Evaluation, es: seq<Evaluation>)
    requires !pair.replayed && Usable(first) && |first.bars| == |first.decisions.value|
    ensures var all := [first] + es;
            && Simulates(EndPair(pair, all), Run(Replayed(pair, first), CommittedInputs(pair, all)))
            && CommittedTransitions(pair, all) == Transitions(Replayed(pair, first), CommittedInputs(pair, all))
            && Disciplined(Replayed(pair, first), CommittedTransitions(pair, all), Run(Replayed(pair, first), CommittedInputs(pair, all)))
  {
    var start := Replayed(pair, first);
    var (next, o) := Evaluate(pair, first);
    EvaluationSimulates(pair, start, first);
    var after := Follow(pair, start, first);
    ClassRunIsCoreRun(next, after, es);
    var all := [first] + es;
    assert all[1..] == es;
    if Commits(o) {
      assert CommittedInputs(pair, all)[1..] == CommittedInputs(next, es);
    } else {
      assert CommittedInputs(pair, all) == CommittedInputs(next, es);
    }
    if !Commits(o) || o.Steady? {
      assert CommittedTransitions(pair, all) == CommittedTransitions(next, es);
    }
    ReplayKeepsAnchors(Position(false, pair.lastEntryAt, pair.lastExitAt),
                       HistoryInputs(Front(first.bars), Front(first.decisions.value), first.cooldownDays, first.exitCooldownDays));
    RunsAreDisciplined(start, CommittedInputs(pair, all));
  }

  lemma SameLiveInput(e: Evaluation, retry: Evaluation)
    requires Usable(e) && retry.decisions == e.decisions && retry.bars == e.bars && retry.denyEntry == e.denyEntry
    requires retry.availability == e.availability && retry.cooldownDays == e.cooldownDays && retry.exitCooldownDays == e.exitCooldownDays
    ensures Usable(retry) && LiveInput(e) == LiveInput(retry)
  {
  }

  lemma RetryCommits(ready: Pair, e: Evaluation, retry: Evaluation)
    requires Usable(e) && Usable(retry) && LiveInput(e) == LiveInput(retry)
    requires EvaluateReplayed(ready, e).1.AlertFailed? && !retry.alertFails
    ensures var failed := EvaluateReplayed(ready, e).0;
            var (after, o) := EvaluateReplayed(failed, retry);
            && failed.replayed == ready.replayed && failed.unavailable == ready.unavailable
            && (o.Alerted? || o.Throttled?) && o.trigger == EvaluateReplayed(ready, e).1.trigger
            && after.lastState == !failed.lastState
  {
    hide IsCooldownActive;
  }

  /** A failed alert is retried: evaluating the same bar again, with the alert going through, commits
      the very transition that failed. */
  lemma FailedAlertIsRetried(pair: Pair, e: Evaluation, retry: Evaluation)
    requires Evaluate(pair, e).1.AlertFailed? && !retry.alertFails
    requires retry.decisions == e.decisions && retry.bars == e.bars && retry.denyEntry == e.denyEntry
    requires retry.availability == e.availability && retry.cooldownDays == e.cooldownDays && retry.exitCooldownDays == e.exitCooldownDays
    ensures var failed := Evaluate(pair, e).0;
            var (after, o) := Evaluate(failed, retry);
            && (o.Alerted? || o.Throttled?) && o.trigger == Evaluate(pair, e).1.trigger
            && after.lastState == !failed.lastState
  {
    hide EvaluateReplayed, LiveInput, Replayed;
    var assessed := Assessed(pair, e.availability);
    var start := Before(pair, Position(false, None, None), e);
    var ready := if pair.replayed then assessed
                 else assessed.(lastState := start.inPosition, lastEntryAt := start.entryTime, lastExitAt := start.lastExitAt, replayed := true);
    assert Evaluate(pair, e) == EvaluateReplayed(ready, e);
    SameLiveInput(e, retry);
    RetryCommits(ready, e, retry);
  }

  function Outcomes(pair: Pair, es: seq<Evaluation>): seq<Outcome>
    decreases |es|
  {
    if es == [] then [] else [Evaluate(pair, es[0]).1] + Outcomes(Evaluate(pair, es[0]).0, es[1..])
  }

  lemma ReplayedStays(ready: Pair, e: Evaluation)
    requires Usable(e)
    ensures EvaluateReplayed(ready, e).0.replayed == ready.replayed
  {
    hide ApplyTransition;
  }

  lemma SameReplay(pair: Pair, e: Evaluation)
    requires Usable(e) && |e.bars| == |e.decisions.value|
    ensures Replayed(pair, e) == Replayed(pair.(lastState := true), e) == Replayed(pair.(lastState := false), e)
  {
    hide Run, HistoryInputs;
  }

  lemma BackfilledStep(pair: Pair, e: Evaluation)
    requires !pair.replayed
    ensures var (open, o) := Evaluate(pair.(lastState := true), e);
            var (flat, u) := Evaluate(pair.(lastState := false), e);
            o == u && (if open.replayed then open == flat else open == flat.(lastState := true) && !flat.lastState && !flat.replayed)
  {
    hide EvaluateReplayed, Replayed;
    if Usable(e) && |e.bars| == |e.decisions.value| {
      var start := Replayed(pair, e);
      assert start == Replayed(pair.(lastState := true), e) == Replayed(pair.(lastState := false), e) by { SameReplay(pair, e); }
      ReplayedStays(Assessed(pair, e.availability).(lastState := start.inPosition, lastEntryAt := start.entryTime,
                                                    lastExitAt := start.lastExitAt, replayed := true), e);
    }
  }

  /** The open state that the boot backfill writes before a pair's first evaluation has no effect on
      any outcome of any run: replay starts flat, and only the entry anchor is carried over. */
  lemma {:induction false} BackfilledStateIsIgnored(pair: Pair, es: seq<Evaluation>)
    requires !pair.replayed
    ensures Outcomes(pair.(lastState := true), es) == Outcomes(pair.(lastState := false), es)
    decreases |es|
  {
    hide Evaluate;
    if es != [] {
      BackfilledStep(pair, es[0]);
      var flat := Evaluate(pair.(lastState := false), es[0]).0;
      var open := Evaluate(pair.(lastState := true), es[0]).0;
      if !open.replayed {
        assert flat == flat.(lastState := false);
        BackfilledStateIsIgnored(flat, es[1..]);
      }
    }
  }

  /** So a pair that was backfilled as open is flat after its first evaluation when the history holds no entry. */
  lemma BackfilledStateIsLost(pair: Pair, e: Evaluation)
    requires !pair.replayed && pair.lastState && Usable(e) && |e.bars| == |e.decisions.value|
    requires forall k :: 0 <= k < |e.bars| ==> !e.decisions.value[k].entry
    ensures Evaluate(pair, e).1.Steady?
    ensures !Evaluate(pair, e).0.lastState && Evaluate(pair, e).0.lastEntryAt == pair.lastEntryAt
  {
    NoEntryStaysFlat(Position(false, pair.lastEntryAt, pair.lastExitAt),
                     HistoryInputs(Front(e.bars), Front(e.decisions.value), e.cooldownDays, e.exitCooldownDays));
  }

  lemma {:induction false} NoEntryStaysFlat(p: Position, inputs: seq<Input>)
    requires !p.inPosition && forall i <- inputs :: !i.decision.entry
    ensures Run(p, inputs) == p
    decreases |inputs|
  {
    if inputs != [] {
      NoEntryStaysFlat(ApplyTransition(p, inputs[0]).0, inputs[1..]);
    }
  }
}
