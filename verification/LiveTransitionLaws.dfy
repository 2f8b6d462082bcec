/** What every run of the transition core obeys. */
module LiveTransitionLaws {
  import opened Options
  import opened LiveTransition

  ghost predicate Anchored(p: Position) {
    p.inPosition ==> p.entryTime.Some?
  }

  /** The gate between two consecutive transitions, or between an initial anchor and the first one. */
  predicate Waited(since: Option<int>, t: Transition) {
    since.Some? ==>
      t.input.barTime >= since.value + DAY * if t.trigger.Exit? then t.input.exitCooldownDays else t.input.cooldownDays
  }

  predicate Justified(t: Transition) {
    match t.trigger
    case Entry => t.input.decision.entry && !t.input.denyEntry
    case Exit => t.input.decision.exit
    case Nothing => false
  }

  function Anchor(p: Position): Option<int> {
    if p.inPosition then p.entryTime else p.lastExitAt
  }

  /** A step fires exactly when the wanted edge is allowed and its waiting time is over. */
  lemma FiresIff(p: Position, i: Input)
    ensures var edge := Transition(if p.inPosition then Exit else Entry, i);
            var (next, trigger) := ApplyTransition(p, i);
            if Justified(edge) && Waited(Anchor(p), edge) && (p.inPosition ==> p.entryTime.Some?)
            then trigger == edge.trigger && next.inPosition != p.inPosition && Anchor(next) == Some(i.barTime)
            else trigger == Nothing && next == p
  {
  }

  /** Transitions alternate; each is justified; each exit comes at least the exit cooldown after its
      entry and each re-entry at least the cooldown after the exit before it; and the final position
      is the one the last transition left. */
  ghost predicate Disciplined(p: Position, ts: seq<Transition>, end: Position) {
    && Anchored(end)
    && (forall k :: 0 <= k < |ts| ==> Justified(ts[k]) && (ts[k].trigger.Exit? <==> (k % 2 == 0) == p.inPosition))
    && (forall k :: 0 < k < |ts| ==> Waited(Some(ts[k - 1].input.barTime), ts[k]))
    && (ts == [] ==> end == p)
    && (ts != [] ==>
          && Waited(Anchor(p), ts[0])
          && (end.inPosition <==> ts[|ts| - 1].trigger.Entry?)
          && Anchor(end) == Some(ts[|ts| - 1].input.barTime))
  }

  lemma DisciplinedPrepend(p: Position, t: Transition, next: Position, rest: seq<Transition>, end: Position)
    requires Justified(t) && Waited(Anchor(p), t) && t.trigger == (if p.inPosition then Exit else Entry)
    requires next.inPosition != p.inPosition && Anchor(next) == Some(t.input.barTime)
    requires Disciplined(next, rest, end)
    ensures Disciplined(p, [t] + rest, end)
  {
    hide Waited, Justified, Anchor;
    var ts := [t] + rest;
    assert rest != [] ==> ts[|ts| - 1] == rest[|rest| - 1];
    forall k | 0 < k < |ts| ensures Waited(Some(ts[k - 1].input.barTime), ts[k]) {
      assert ts[k] == rest[k - 1];
      if k > 1 { assert ts[k - 1] == rest[k - 2]; }
    }
    forall k | 0 <= k < |ts| ensures Justified(ts[k]) && (ts[k].trigger.Exit? <==> (k % 2 == 0) == p.inPosition) {
      if k > 0 { assert ts[k] == rest[k - 1]; }
    }
  }

  lemma {:induction false} RunsAreDisciplined(p: Position, inputs: seq<Input>)
    requires Anchored(p)
    ensures Disciplined(p, Transitions(p, inputs), Run(p, inputs))
    decreases |inputs|
  {
    if inputs != [] {
      var (next, trigger) := ApplyTransition(p, inputs[0]);
      FiresIff(p, inputs[0]);
      RunsAreDisciplined(next, inputs[1..]);
      var rest := Transitions(next, inputs[1..]);
      if trigger.Nothing? {
        assert Transitions(p, inputs) == rest;
      } else {
        DisciplinedPrepend(p, Transition(trigger, inputs[0]), next, rest, Run(p, inputs));
      }
    }
  }

  function Undenied(inputs: seq<Input>): seq<Input> {
    seq(|inputs|, k requires 0 <= k < |inputs| => inputs[k].(denyEntry := false))
  }

  /** The transition that evaluation number `k` of the run commits, if any. */
  function TriggerAt(p: Position, inputs: seq<Input>, k: nat): Trigger
    requires k < |inputs|
    decreases k
  {
    var (next, trigger) := ApplyTransition(p, inputs[0]);
    if k == 0 then trigger else TriggerAt(next, inputs[1..], k - 1)
  }

  /** Evaluation `k` commits the first transition of the run. */
  ghost predicate FiresFirst(p: Position, inputs: seq<Input>, k: nat)
    requires k < |inputs|
  {
    TriggerAt(p, inputs, k) != Nothing && forall j :: 0 <= j < k ==> TriggerAt(p, inputs, j) == Nothing
  }

  lemma FirstLater(p: Position, inputs: seq<Input>, k: nat)
    requires 0 < k < |inputs|
    ensures var (next, trigger) := ApplyTransition(p, inputs[0]);
            FiresFirst(p, inputs, k) <==> trigger == Nothing && FiresFirst(next, inputs[1..], k - 1)
  {
    var (next, trigger) := ApplyTransition(p, inputs[0]);
    assert TriggerAt(p, inputs, 0) == trigger;
    forall j | 0 <= j < k - 1
      ensures TriggerAt(next, inputs[1..], j) == TriggerAt(p, inputs, j + 1)
    {
    }
    if FiresFirst(next, inputs[1..], k - 1) && trigger == Nothing {
      forall j | 0 <= j < k ensures TriggerAt(p, inputs, j) == Nothing {
        if j > 0 { assert TriggerAt(next, inputs[1..], j - 1) == Nothing; }
      }
    }
    if FiresFirst(p, inputs, k) {
      forall j | 0 <= j < k - 1 ensures TriggerAt(next, inputs[1..], j) == Nothing {
        assert TriggerAt(p, inputs, j + 1) == Nothing;
      }
    }
  }

  lemma {:induction false} FlatDenied(p: Position, inputs: seq<Input>, k: nat)
    requires !p.inPosition && k < |inputs| && forall i <- inputs :: i.denyEntry
    ensures TriggerAt(p, inputs, k) == Nothing
    decreases k
  {
    assert inputs[0] in inputs && forall i <- inputs[1..] :: i in inputs;
    if k > 0 {
      FlatDenied(p, inputs[1..], k - 1);
    }
  }

  /** With entry denied throughout, an evaluation commits something exactly when the pair was held and
      the same evaluation commits the first transition of the run without the denial, and then it is
      that same exit; so a flat pair never trades and a held one makes no other transition. */
  lemma {:induction false} DeniedRun(p: Position, inputs: seq<Input>, k: nat)
    requires k < |inputs| && forall i <- inputs :: i.denyEntry
    ensures var free := Undenied(inputs);
            && TriggerAt(p, inputs, k) == (if p.inPosition && FiresFirst(p, free, k) then Exit else Nothing)
            && (p.inPosition && FiresFirst(p, free, k) ==> TriggerAt(p, free, k) == Exit)
    decreases k
  {
    var free := Undenied(inputs);
    assert inputs[0] in inputs && forall i <- inputs[1..] :: i in inputs;
    assert free[1..] == Undenied(inputs[1..]);
    if !p.inPosition {
      FlatDenied(p, inputs, k);
    } else if k > 0 {
      var next := ApplyTransition(p, inputs[0]).0;
      assert ApplyTransition(p, free[0]) == ApplyTransition(p, inputs[0]);
      FirstLater(p, free, k);
      DeniedRun(next, inputs[1..], k - 1);
    }
  }

  lemma {:induction false} TransitionsAreTriggers(p: Position, inputs: seq<Input>, t: Transition)
    requires t in Transitions(p, inputs)
    ensures exists k :: 0 <= k < |inputs| && inputs[k] == t.input && TriggerAt(p, inputs, k) == t.trigger != Nothing
    decreases |inputs|
  {
    var (next, trigger) := ApplyTransition(p, inputs[0]);
    if trigger != Nothing && t == Transition(trigger, inputs[0]) {
      assert TriggerAt(p, inputs, 0) == t.trigger;
    } else {
      TransitionsAreTriggers(next, inputs[1..], t);
      var k :| 0 <= k < |inputs[1..]| && inputs[1..][k] == t.input && TriggerAt(next, inputs[1..], k) == t.trigger != Nothing;
      assert TriggerAt(p, inputs, k + 1) == t.trigger;
    }
  }

  /** Replay never forgets an anchor, and in position it always knows its entry time. */
  lemma {:induction false} ReplayKeepsAnchors(p: Position, inputs: seq<Input>)
    requires Anchored(p)
    ensures Anchored(Run(p, inputs)) && (p.lastExitAt.Some? ==> Run(p, inputs).lastExitAt.Some?)
    decreases |inputs|
  {
    if inputs != [] {
      ReplayKeepsAnchors(ApplyTransition(p, inputs[0]).0, inputs[1..]);
    }
  }

  lemma {:induction false} RunConcat(p: Position, a: seq<Input>, b: seq<Input>)
    ensures Run(p, a + b) == Run(Run(p, a), b)
    ensures Transitions(p, a + b) == Transitions(p, a) + Transitions(Run(p, a), b)
    decreases |a|
  {
    if a == [] {
      assert a + b == b;
    } else {
      assert (a + b)[1..] == a[1..] + b;
      RunConcat(ApplyTransition(p, a[0]).0, a[1..], b);
    }
  }

  /** One bar of a replayed history, in terms of the history: an entry when flat waits out the re-entry
      cooldown, an exit when held the exit cooldown, nothing is denied, and each anchors at its bar. */
  lemma ReplayStep(p: Position, bars: seq<int>, decisions: seq<Decision>, cooldownDays: int, exitCooldownDays: int, k: nat)
    requires k < |bars| == |decisions|
    ensures var inputs := HistoryInputs(bars, decisions, cooldownDays, exitCooldownDays);
            && |inputs| == |bars| && Run(p, inputs[..0]) == p
            && var before, after := Run(p, inputs[..k]), Run(p, inputs[..k + 1]);
            if !before.inPosition && decisions[k].entry
               && (before.lastExitAt.Some? ==> bars[k] >= before.lastExitAt.value + cooldownDays * DAY)
            then after == Position(true, Some(bars[k]), before.lastExitAt)
            else if before.inPosition && decisions[k].exit
               && before.entryTime.Some? && bars[k] >= before.entryTime.value + exitCooldownDays * DAY
            then after == Position(false, None, Some(bars[k]))
            else after == before
  {
    var inputs := HistoryInputs(bars, decisions, cooldownDays, exitCooldownDays);
    assert inputs[..k + 1] == inputs[..k] + [inputs[k]];
    RunConcat(p, inputs[..k], [inputs[k]]);
    RunOne(Run(p, inputs[..k]), inputs[k]);
  }

  lemma RunOne(p: Position, i: Input)
    ensures Run(p, [i]) == ApplyTransition(p, i).0
  {
    assert [i][1..] == [];
    assert Run(ApplyTransition(p, i).0, []) == ApplyTransition(p, i).0;
  }

  // ---- the deny list ----

  /** Membership in the universe: covered and not denied, or held and denied; and only the latter are
      marked as denied for entry. */
  lemma UniverseMembers(d: Definition, watchlist: set<string>, held: set<string>, signals: set<string>,
                        blendId: string, fundamentals: set<string>, symbol: string)
    ensures var r := ResolveUniverse(d, watchlist, held, signals, blendId, fundamentals);
            var blend := blendId != "" && d.strategyId == blendId;
            && (symbol in r.universe <==>
                if symbol in d.denied then symbol in held
                else if blend then symbol in fundamentals
                else if d.allowlist != {} then symbol in d.allowlist
                else symbol in watchlist || symbol in held || (d.signalEligible && symbol in signals))
            && (symbol in r.denyEntry <==> symbol in r.universe && symbol in d.denied)
            && (symbol in r.union <==>
                if blend then symbol in fundamentals || (symbol in held && symbol in d.denied)
                else if d.allowlist != {} then symbol in d.allowlist
                else symbol in watchlist || symbol in held || (d.signalEligible && symbol in signals))
            && r.denied == d.denied
  {
  }

  /** One cycle for one pair: what its universe is resolved from, whether the owner's drains succeeded,
      whether the rotation reached the pair, and the evaluation input it would get. */
  datatype Cycle = Cycle(definition: Definition, watchlist: set<string>, held: set<string>, signals: set<string>,
                         blendId: string, blendActive: bool, fundamentals: set<string>, drained: bool,
                         reached: bool, input: Input)

  function Resolved(c: Cycle): Universe {
    ResolveUniverse(c.definition, c.watchlist, c.held, c.signals, c.blendId, c.fundamentals)
  }

  /** The cycle leaves the whole strategy out: a drain failed, or it is the blend strategy and the blend
      is inactive or has no fundamentals universe. */
  predicate Skips(c: Cycle) {
    !c.drained || (c.definition.strategyId == c.blendId && (!c.blendActive || c.fundamentals == {}))
  }

  predicate Evaluates(c: Cycle, symbol: string) {
    !Skips(c) && symbol in Resolved(c).universe && c.reached
  }

  /** The inputs the pair is actually evaluated on, with entry denied when the universe says so. */
  function Evaluated(cycles: seq<Cycle>, symbol: string): seq<Input> {
    if cycles == [] then []
    else
      var c := cycles[0];
      (if Evaluates(c, symbol) then [c.input.(denyEntry := c.input.denyEntry || symbol in Resolved(c).denyEntry)] else [])
      + Evaluated(cycles[1..], symbol)
  }

  /** How many cycles neither skip the strategy nor fall short of the pair. */
  function Served(cycles: seq<Cycle>): nat {
    if cycles == [] then 0 else (if !Skips(cycles[0]) && cycles[0].reached then 1 else 0) + Served(cycles[1..])
  }

  /** A denied symbol that is held is evaluated in every cycle that serves its pair, one that is not held
      in none, and always with entry denied. */
  lemma {:induction false} EvaluatedAreDenied(cycles: seq<Cycle>, symbol: string)
    requires forall c <- cycles :: symbol in c.definition.denied
    ensures forall i <- Evaluated(cycles, symbol) :: i.denyEntry
    ensures (forall c <- cycles :: symbol in c.held) ==> |Evaluated(cycles, symbol)| == Served(cycles)
    ensures (forall c <- cycles :: symbol !in c.held) ==> Evaluated(cycles, symbol) == []
  {
    if cycles != [] {
      var c := cycles[0];
      assert c in cycles && forall d <- cycles[1..] :: d in cycles;
      UniverseMembers(c.definition, c.watchlist, c.held, c.signals, c.blendId, c.fundamentals, symbol);
      EvaluatedAreDenied(cycles[1..], symbol);
    }
  }

  /** Over any cycles a denied symbol never enters. Held throughout, it is evaluated once for every cycle
      that serves its pair, and evaluation `k` commits an exit exactly when it would be the first
      transition without the denial. */
  lemma DeniedSymbols(p: Position, cycles: seq<Cycle>, symbol: string)
    requires forall c <- cycles :: symbol in c.definition.denied
    ensures var inputs := Evaluated(cycles, symbol);
            && (forall t <- Transitions(p, inputs) :: t.trigger.Exit?)
            && ((forall c <- cycles :: symbol in c.held) ==> |inputs| == Served(cycles))
            && (forall k :: 0 <= k < |inputs| ==>
                  TriggerAt(p, inputs, k) == if p.inPosition && FiresFirst(p, Undenied(inputs), k) then Exit else Nothing)
  {
    EvaluatedAreDenied(cycles, symbol);
    var inputs := Evaluated(cycles, symbol);
    forall k | 0 <= k < |inputs|
      ensures TriggerAt(p, inputs, k) == if p.inPosition && FiresFirst(p, Undenied(inputs), k) then Exit else Nothing
    {
      DeniedRun(p, inputs, k);
    }
    forall t <- Transitions(p, inputs)
      ensures t.trigger.Exit?
    {
      TransitionsAreTriggers(p, inputs, t);
    }
  }
}
