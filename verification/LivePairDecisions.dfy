/** What one evaluation decides, in terms of what it reads: the last decision, the last bar, the anchors,
    the denials, the throttle and the alert. */
module LivePairDecisions {
  import opened Options
  import opened LiveTransition
  import opened LiveTransitionLaws
  import opened LivePair
  import opened LivePairLaws

  /** Entry is denied by the caller or because required fundamentals are unavailable. */
  predicate Denied(e: Evaluation) {
    e.denyEntry || e.availability == Unavailable
  }

  predicate EntryDue(flat: bool, lastExitAt: Option<int>, e: Evaluation)
    requires Usable(e)
  {
    && flat && e.decisions.value[|e.decisions.value| - 1].entry && !Denied(e)
    && (lastExitAt.Some? ==> e.bars[|e.bars| - 1] >= lastExitAt.value + e.cooldownDays * DAY)
  }

  predicate ExitDue(held: bool, lastEntryAt: Option<int>, e: Evaluation)
    requires Usable(e)
  {
    && held && e.decisions.value[|e.decisions.value| - 1].exit
    && lastEntryAt.Some? && e.bars[|e.bars| - 1] >= lastEntryAt.value + e.exitCooldownDays * DAY
  }

  /** On a replayed pair an evaluation carries Entry or Exit exactly when the last decision asks for it, it
      is not denied, and the matching cooldown is over at the last bar; otherwise it is steady. */
  lemma CarriesIff(pair: Pair, e: Evaluation)
    requires pair.replayed && e.bars != [] && e.decisions.Some? && e.decisions.value != []
    ensures var o := Evaluate(pair, e).1;
            && (TriggerOf(o) == Entry <==> EntryDue(!pair.lastState, pair.lastExitAt, e))
            && (TriggerOf(o) == Exit <==> ExitDue(pair.lastState, pair.lastEntryAt, e))
            && (TriggerOf(o) == Nothing <==> o == Steady)
  {
  }

  /** What the evaluation does with its transition: the anchor is the last bar in any case; within the
      throttle nothing is sent and the state moves, a failed alert leaves state and alert time, and a sent
      one moves both. */
  lemma TransitionTakesEffect(pair: Pair, e: Evaluation)
    requires pair.replayed && e.bars != [] && e.decisions.Some? && e.decisions.value != []
    requires TriggerOf(Evaluate(pair, e).1) != Nothing
    ensures var (after, o) := Evaluate(pair, e);
            var entry, bar := TriggerOf(o) == Entry, Some(e.bars[|e.bars| - 1]);
            && after.lastEntryAt == (if entry then bar else pair.lastEntryAt)
            && after.lastExitAt == (if entry then pair.lastExitAt else bar)
            && after.lastState == (if e.now - pair.lastAlert >= e.throttle && e.alertFails then pair.lastState else entry)
            && after.lastAlert == (if e.now - pair.lastAlert < e.throttle || e.alertFails then pair.lastAlert else e.now)
            && (o.Throttled? <==> e.now - pair.lastAlert < e.throttle)
            && (o.AlertFailed? <==> e.now - pair.lastAlert >= e.throttle && e.alertFails)
            && after.replayed && after.loggedUnresolved == pair.loggedUnresolved
  {
  }

  /** A steady evaluation leaves position, anchors and alert time, and logs an open pair without an anchor. */
  lemma SteadyChangesNothing(pair: Pair, e: Evaluation)
    requires pair.replayed && Evaluate(pair, e).1 == Steady
    ensures var after := Evaluate(pair, e).0;
            && after.lastState == pair.lastState && after.lastEntryAt == pair.lastEntryAt && after.lastExitAt == pair.lastExitAt
            && after.lastAlert == pair.lastAlert && after.replayed
            && after.loggedUnresolved == (pair.loggedUnresolved || (pair.lastState && pair.lastEntryAt == None))
  {
  }

  /** Availability is tracked by every evaluation that has bars; one without bars changes nothing. */
  lemma AvailabilityIsTracked(pair: Pair, e: Evaluation)
    ensures e.bars == [] ==> Evaluate(pair, e) == (pair, NoBars)
    ensures e.bars != [] ==>
              Evaluate(pair, e).0.unavailable ==
                if e.availability == Unavailable then true
                else if e.availability == Available || e.availability == NotRequired then false
                else pair.unavailable
  {
  }

  /** Without decisions nothing else changes. */
  lemma NoDecisionNoChange(pair: Pair, e: Evaluation)
    requires e.bars != [] && (e.decisions == None || e.decisions.value == [])
    ensures var (after, o) := Evaluate(pair, e);
            && after == pair.(unavailable := after.unavailable)
            && o == if e.decisions == None then Raised else NoDecisions
  {
  }

  /** The first evaluation of a pair is that of the pair as the replay of all bars but the last leaves it,
      started flat from its anchors; when bars and decisions differ in number it raises. */
  lemma FirstEvaluation(pair: Pair, e: Evaluation)
    requires !pair.replayed && e.bars != [] && e.decisions.Some? && e.decisions.value != []
    ensures |e.bars| != |e.decisions.value| ==>
              var (after, o) := Evaluate(pair, e); o == Raised && after == pair.(unavailable := after.unavailable)
    ensures |e.bars| == |e.decisions.value| ==>
              var n := |e.bars| - 1;
              var start := Run(Position(false, pair.lastEntryAt, pair.lastExitAt),
                               HistoryInputs(e.bars[..n], e.decisions.value[..n], e.cooldownDays, e.exitCooldownDays));
              Evaluate(pair, e) == Evaluate(pair.(lastState := start.inPosition, lastEntryAt := start.entryTime,
                                                  lastExitAt := start.lastExitAt, replayed := true), e)
  {
    hide ApplyTransition, Finish, Run, HistoryInputs;
  }

  /** Neither a caller's denial nor missing fundamentals ever lets a pair enter, replayed or not. */
  lemma DeniedNeverEnters(pair: Pair, e: Evaluation)
    requires Denied(e)
    ensures TriggerOf(Evaluate(pair, e).1) != Entry
  {
    hide EntryDue, ExitDue, Run, HistoryInputs, ApplyTransition, IsCooldownActive;
    if e.bars != [] && e.decisions.Some? && e.decisions.value != [] {
      if pair.replayed {
        NotDue(pair, e);
      } else {
        FirstEvaluation(pair, e);
        if |e.bars| == |e.decisions.value| {
          var start := Replayed(pair, e);
          NotDue(pair.(lastState := start.inPosition, lastEntryAt := start.entryTime, lastExitAt := start.lastExitAt, replayed := true), e);
        }
      }
    }
  }

  lemma NotDue(pair: Pair, e: Evaluation)
    requires Denied(e) && pair.replayed && e.bars != [] && e.decisions.Some? && e.decisions.value != []
    ensures TriggerOf(Evaluate(pair, e).1) != Entry
  {
    CarriesIff(pair, e);
  }

  // ---- over runs ----

  /** In every run of a pair no denied evaluation enters, whatever the others do. */
  lemma {:induction false} DeniedRunNeverEnters(pair: Pair, es: seq<Evaluation>, k: nat)
    requires k < |es| && Denied(es[k])
    ensures |Outcomes(pair, es)| == |es| && TriggerOf(Outcomes(pair, es)[k]) != Entry
    decreases |es|
  {
    hide Evaluate, TriggerOf;
    OutcomesLength(pair, es);
    if k == 0 {
      DeniedNeverEnters(pair, es[0]);
    } else {
      DeniedRunNeverEnters(Evaluate(pair, es[0]).0, es[1..], k - 1);
    }
  }

  lemma {:induction false} OutcomesLength(pair: Pair, es: seq<Evaluation>)
    ensures |Outcomes(pair, es)| == |es|
    decreases |es|
  {
    hide Evaluate;
    if es != [] {
      OutcomesLength(Evaluate(pair, es[0]).0, es[1..]);
    }
  }

  /** Evaluation `k` of the run commits the transition, at its last bar; an entry only undenied. */
  ghost predicate CommittedBy(pair: Pair, es: seq<Evaluation>, k: nat, t: Transition) {
    && k < |es| && k < |Outcomes(pair, es)|
    && Commits(Outcomes(pair, es)[k]) && TriggerOf(Outcomes(pair, es)[k]) == t.trigger
    && es[k].bars != [] && t.input.barTime == es[k].bars[|es[k].bars| - 1]
    && (t.trigger == Entry ==> !Denied(es[k]))
  }

  /** So every transition a run commits is committed by one of its evaluations, and no entry by a denied one. */
  lemma {:induction false} CommittedEntriesAreAllowed(pair: Pair, es: seq<Evaluation>, t: Transition)
    requires t in CommittedTransitions(pair, es)
    ensures exists k: nat :: CommittedBy(pair, es, k, t)
    decreases |es|
  {
    hide Evaluate, Denied;
    OutcomesLength(pair, es);
    var (next, o) := Evaluate(pair, es[0]);
    if Commits(o) && !o.Steady? && Usable(es[0]) && t == Transition(o.trigger, LiveInput(es[0])) {
      if Denied(es[0]) { DeniedNeverEnters(pair, es[0]); }
      assert CommittedBy(pair, es, 0, t);
    } else {
      CommittedEntriesAreAllowed(next, es[1..], t);
      var k: nat :| CommittedBy(next, es[1..], k, t);
      assert es[1..][k] == es[k + 1] && Outcomes(pair, es)[k + 1] == Outcomes(next, es[1..])[k];
      assert CommittedBy(pair, es, k + 1, t);
    }
  }
}
