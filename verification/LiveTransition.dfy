/** The edge-triggered transition core of app/engine/live_loop.py, its historical replay, and the
    cooldown gate of app/services/cooldown.py. Times are microseconds. */
module LiveTransition {
  import opened Options

  const DAY := 86_400_000_000

  datatype Decision = Decision(entry: bool, exit: bool)

  datatype Position = Position(inPosition: bool, entryTime: Option<int>, lastExitAt: Option<int>)

  datatype Trigger = Nothing | Entry | Exit

  datatype Input = Input(decision: Decision, barTime: int, cooldownDays: int, exitCooldownDays: int, denyEntry: bool)

  predicate IsCooldownActive(gateStart: Option<int>, now: int, days: int) {
    gateStart.Some? && now < gateStart.value + days * DAY
  }

  function ApplyTransition(p: Position, i: Input): (Position, Trigger) {
    if !p.inPosition && i.decision.entry then
      if i.denyEntry then (p, Nothing)
      else if IsCooldownActive(p.lastExitAt, i.barTime, i.cooldownDays) then (p, Nothing)
      else (Position(true, Some(i.barTime), p.lastExitAt), Entry)
    else if p.inPosition && i.decision.exit then
      if p.entryTime.None? || IsCooldownActive(p.entryTime, i.barTime, i.exitCooldownDays) then (p, Nothing)
      else (Position(false, None, Some(i.barTime)), Exit)
    else (p, Nothing)
  }

  function Run(p: Position, inputs: seq<Input>): Position
    decreases |inputs|
  {
    if inputs == [] then p else Run(ApplyTransition(p, inputs[0]).0, inputs[1..])
  }

  datatype Transition = Transition(trigger: Trigger, input: Input)

  /** The transitions a run commits, in order. */
  function Transitions(p: Position, inputs: seq<Input>): seq<Transition>
    decreases |inputs|
  {
    if inputs == [] then []
    else
      var (next, trigger) := ApplyTransition(p, inputs[0]);
      (if trigger.Nothing? then [] else [Transition(trigger, inputs[0])]) + Transitions(next, inputs[1..])
  }

  /** What replay feeds the core: historical bars, with entry never denied. */
  function HistoryInputs(bars: seq<int>, decisions: seq<Decision>, cooldownDays: int, exitCooldownDays: int): seq<Input>
    requires |bars| == |decisions|
  {
    seq(|bars|, k requires 0 <= k < |bars| => Input(decisions[k], bars[k], cooldownDays, exitCooldownDays, false))
  }

  /** The replay fold; None stands for the error raised on lists of different lengths. */
  method ReplayState(bars: seq<int>, decisions: seq<Decision>, cooldownDays: int, exitCooldownDays: int,
                     initialEntryTime: Option<int>, initialLastExitAt: Option<int>) returns (result: Option<Position>)
    ensures result.Some? <==> |bars| == |decisions|
    ensures result.Some? ==>
              result.value == Run(Position(false, initialEntryTime, initialLastExitAt),
                                  HistoryInputs(bars, decisions, cooldownDays, exitCooldownDays))
  {
    if |bars| != |decisions| {
      return None;
    }
    var p := Position(false, initialEntryTime, initialLastExitAt);
    ghost var all := HistoryInputs(bars, decisions, cooldownDays, exitCooldownDays);
    for k := 0 to |bars|
      invariant Run(p, all[k..]) == Run(Position(false, initialEntryTime, initialLastExitAt), all)
    {
      assert all[k..][1..] == all[k + 1..];
      p := ApplyTransition(p, Input(decisions[k], bars[k], cooldownDays, exitCooldownDays, false)).0;
    }
    return Some(p);
  }

  // ---- the evaluation universe ----

  datatype Definition = Definition(strategyId: string, denied: set<string>, allowlist: set<string>, signalEligible: bool)

  datatype Universe = Universe(universe: set<string>, denyEntry: set<string>, union: set<string>, denied: set<string>)

  function ResolveUniverse(definition: Definition, watchlist: set<string>, held: set<string>, signals: set<string>,
                           blendId: string, fundamentals: set<string>): Universe
  {
    var denyEntry := held * definition.denied;
    var union :=
      if blendId != "" && definition.strategyId == blendId then fundamentals + denyEntry
      else if definition.allowlist != {} then definition.allowlist
      else watchlist + held + (if definition.signalEligible then signals else {});
    Universe((union - definition.denied) + denyEntry, denyEntry, union, definition.denied)
  }
}
