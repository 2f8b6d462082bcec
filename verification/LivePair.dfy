/** The per-key state of LiveEvaluationLoop and one evaluation of a (user, strategy, symbol) pair. */
module LivePair {
  import opened Options
  import opened LiveTransition

  datatype Key = Key(userId: string, strategyId: string, symbol: string)

  datatype Availability = Available | NotRequired | Unavailable | OtherAvailability

  /** Everything one evaluation reads from outside. `decisions` is None when the evaluator raises;
      `now` is the monotonic clock. */
  datatype Evaluation = Evaluation(
    bars: seq<int>,
    decisions: Option<seq<Decision>>,
    cooldownDays: int,
    exitCooldownDays: int,
    denyEntry: bool,
    availability: Availability,
    throttle: int,
    now: int,
    alertFails: bool)

  datatype Outcome = NoBars | NoDecisions | Raised | Steady | Throttled(trigger: Trigger) | Alerted(trigger: Trigger) | AlertFailed(trigger: Trigger)

  /** What the maps and sets say about one key. */
  datatype Pair = Pair(
    lastState: bool,
    lastEntryAt: Option<int>,
    lastExitAt: Option<int>,
    lastAlert: int,
    replayed: bool,
    unavailable: bool,
    loggedUnresolved: bool)

  ghost predicate MapKept<V>(m: map<Key, V>, n: map<Key, V>, changed: Key) {
    forall k :: k != changed ==> (k in m <==> k in n) && (k in m ==> m[k] == n[k])
  }

  ghost predicate SetKept(m: set<Key>, n: set<Key>, changed: Key) {
    forall k :: k != changed ==> (k in m <==> k in n)
  }

  function Last<T>(xs: seq<T>): T
    requires xs != []
  {
    xs[|xs| - 1]
  }

  function Front<T>(xs: seq<T>): seq<T>
    requires xs != []
  {
    xs[..|xs| - 1]
  }

  predicate Usable(e: Evaluation) {
    e.bars != [] && e.decisions.Some? && e.decisions.value != []
  }

  function LiveInput(e: Evaluation): Input
    requires Usable(e)
  {
    Input(Last(e.decisions.value), Last(e.bars), e.cooldownDays, e.exitCooldownDays, e.denyEntry || e.availability.Unavailable?)
  }

  function Replayed(p: Pair, e: Evaluation): Position
    requires Usable(e) && |e.bars| == |e.decisions.value|
  {
    Run(Position(false, p.lastEntryAt, p.lastExitAt),
        HistoryInputs(Front(e.bars), Front(e.decisions.value), e.cooldownDays, e.exitCooldownDays))
  }

  function Assessed(p: Pair, availability: Availability): Pair {
    match availability
    case Unavailable => p.(unavailable := true)
    case OtherAvailability => p
    case _ => p.(unavailable := false)
  }

  /** One evaluation of a key whose replay has run. */
  function EvaluateReplayed(p: Pair, e: Evaluation): (Pair, Outcome)
    requires Usable(e)
  {
    var (next, trigger) := ApplyTransition(Position(p.lastState, p.lastEntryAt, p.lastExitAt), LiveInput(e));
    if trigger.Nothing? then
      (if p.lastState && p.lastEntryAt.None? then p.(loggedUnresolved := true) else p, Steady)
    else Record(p, next, trigger, e)
  }

  /** The anchor of a transition is written on the fact, before the throttle and the alert. */
  function AnchorWritten(p: Pair, next: Position, trigger: Trigger): Pair {
    if trigger.Exit? then p.(lastExitAt := next.lastExitAt) else p.(lastEntryAt := next.entryTime)
  }

  /** After the awaited durable write: throttle, alert, state. */
  function Finish(p: Pair, next: Position, trigger: Trigger, e: Evaluation): (Pair, Outcome) {
    if e.now - p.lastAlert < e.throttle then (p.(lastState := next.inPosition), Throttled(trigger))
    else if e.alertFails then (p, AlertFailed(trigger))
    else (p.(lastAlert := e.now, lastState := next.inPosition), Alerted(trigger))
  }

  function Record(p: Pair, next: Position, trigger: Trigger, e: Evaluation): (Pair, Outcome) {
    Finish(AnchorWritten(p, next, trigger), next, trigger, e)
  }

  /** What the boot backfill writes for one pair. */
  function Backfilled(p: Pair, entryTime: int): Pair {
    p.(lastState := true, lastEntryAt := Some(entryTime))
  }

  function Evaluate(p: Pair, e: Evaluation): (Pair, Outcome) {
    if e.bars == [] then (p, NoBars)
    else
      var assessed := Assessed(p, e.availability);
      if e.decisions.None? then (assessed, Raised)
      else if e.decisions.value == [] then (assessed, NoDecisions)
      else if p.replayed then EvaluateReplayed(assessed, e)
      else if |e.bars| != |e.decisions.value| then (assessed, Raised)
      else
        var start := Replayed(p, e);
        EvaluateReplayed(assessed.(lastState := start.inPosition, lastEntryAt := start.entryTime,
                                   lastExitAt := start.lastExitAt, replayed := true), e)
  }

  class LiveEvaluationLoop {
    var lastState: map<Key, bool>
    var fundUnavailable: set<Key>
    var lastAlertTs: map<Key, int>
    var lastExitAt: map<Key, Option<int>>
    var lastEntryAt: map<Key, Option<int>>
    var replayed: set<Key>
    var loggedUnresolved: set<Key>

    constructor ()
      ensures forall k :: View(k) == Pair(false, None, None, 0, false, false, false)
    {
      lastState, lastAlertTs, lastExitAt, lastEntryAt := map[], map[], map[], map[];
      fundUnavailable, replayed, loggedUnresolved := {}, {}, {};
    }

    ghost function View(k: Key): Pair
      reads this
    {
      Pair(k in lastState && lastState[k],
           if k in lastEntryAt then lastEntryAt[k] else None,
           if k in lastExitAt then lastExitAt[k] else None,
           if k in lastAlertTs then lastAlertTs[k] else 0,
           k in replayed, k in fundUnavailable, k in loggedUnresolved)
    }

    /** Nothing recorded under another key has changed. */
    twostate predicate OthersKept(key: Key)
      reads this
    {
      && MapKept(old(lastState), lastState, key) && MapKept(old(lastAlertTs), lastAlertTs, key)
      && MapKept(old(lastEntryAt), lastEntryAt, key) && MapKept(old(lastExitAt), lastExitAt, key)
      && SetKept(old(replayed), replayed, key) && SetKept(old(fundUnavailable), fundUnavailable, key)
      && SetKept(old(loggedUnresolved), loggedUnresolved, key)
    }

    /** Boot: load one persisted row; neither the state nor the replay marker is touched. */
    method Hydrate(key: Key, exitAt: Option<int>, entryAt: Option<int>)
      modifies this
      ensures View(key) == old(View(key)).(lastExitAt := exitAt, lastEntryAt := if entryAt.Some? then entryAt else old(View(key)).lastEntryAt)
      ensures OthersKept(key)
    {
      lastExitAt := lastExitAt[key := exitAt];
      if entryAt.Some? {
        lastEntryAt := lastEntryAt[key := entryAt];
      }
    }

    /** Boot: what entry_backfill writes for a pair whose entry time it inferred. */
    method Backfill(key: Key, entryTime: int)
      modifies this
      ensures View(key) == Backfilled(old(View(key)), entryTime)
      ensures OthersKept(key)
    {
      lastState := lastState[key := true];
      lastEntryAt := lastEntryAt[key := Some(entryTime)];
    }

    method Assess(key: Key, availability: Availability)
      modifies this`fundUnavailable
      ensures View(key) == Assessed(old(View(key)), availability)
      ensures availability.Unavailable? ==> key in fundUnavailable
      ensures availability.Available? || availability.NotRequired? ==> key !in fundUnavailable
      ensures availability.OtherAvailability? ==> fundUnavailable == old(fundUnavailable)
      ensures OthersKept(key)
    {
      if availability.Unavailable? {
        fundUnavailable := fundUnavailable + {key};
      } else if availability.Available? || availability.NotRequired? {
        fundUnavailable := fundUnavailable - {key};
      }
    }

    method InstallReplay(key: Key, start: Position)
      modifies this`lastState, this`lastEntryAt, this`lastExitAt, this`replayed
      ensures View(key) == old(View(key)).(lastState := start.inPosition, lastEntryAt := start.entryTime,
                                           lastExitAt := start.lastExitAt, replayed := true)
      ensures OthersKept(key)
    {
      lastState := lastState[key := start.inPosition];
      lastEntryAt := lastEntryAt[key := start.entryTime];
      lastExitAt := lastExitAt[key := start.lastExitAt];
      replayed := replayed + {key};
    }

    /** Resolve a key first reached since the restart from its history; false is the raised error. */
    method ReplayHistory(key: Key, e: Evaluation) returns (ok: bool)
      requires Usable(e)
      modifies this`lastState, this`lastEntryAt, this`lastExitAt, this`replayed
      ensures ok <==> |e.bars| == |e.decisions.value|
      ensures OthersKept(key) && (!ok ==> View(key) == old(View(key)))
      ensures ok ==>
                var start := Replayed(old(View(key)), e);
                View(key) == old(View(key)).(lastState := start.inPosition, lastEntryAt := start.entryTime,
                                             lastExitAt := start.lastExitAt, replayed := true)
    {
      var decisions := e.decisions.value;
      var start := ReplayState(e.bars[..|e.bars| - 1], decisions[..|decisions| - 1], e.cooldownDays, e.exitCooldownDays,
                               if key in lastEntryAt then lastEntryAt[key] else None,
                               if key in lastExitAt then lastExitAt[key] else None);
      if start.None? {
        return false;
      }
      InstallReplay(key, start.value);
      return true;
    }

    method WriteAnchor(key: Key, next: Position, trigger: Trigger)
      modifies this`lastEntryAt, this`lastExitAt
      ensures View(key) == AnchorWritten(old(View(key)), next, trigger)
      ensures OthersKept(key)
    {
      if trigger.Exit? {
        lastExitAt := lastExitAt[key := next.lastExitAt];
      } else {
        lastEntryAt := lastEntryAt[key := next.entryTime];
      }
    }

    method FinishTransition(key: Key, next: Position, trigger: Trigger, e: Evaluation) returns (outcome: Outcome)
      modifies this`lastState, this`lastAlertTs
      ensures (View(key), outcome) == Finish(old(View(key)), next, trigger, e)
      ensures OthersKept(key)
    {
      var lastAlert := if key in lastAlertTs then lastAlertTs[key] else 0;
      if e.now - lastAlert < e.throttle {
        lastState := lastState[key := next.inPosition];
        return Throttled(trigger);
      }
      if e.alertFails {
        return AlertFailed(trigger);
      }
      lastAlertTs := lastAlertTs[key := e.now];
      lastState := lastState[key := next.inPosition];
      return Alerted(trigger);
    }

    method RecordTransition(key: Key, next: Position, trigger: Trigger, e: Evaluation) returns (outcome: Outcome)
      modifies this`lastState, this`lastEntryAt, this`lastExitAt, this`lastAlertTs
      ensures (View(key), outcome) == Record(old(View(key)), next, trigger, e)
      ensures OthersKept(key)
    {
      WriteAnchor(key, next, trigger);
      outcome := FinishTransition(key, next, trigger, e);
    }

    method EvalLiveBar(key: Key, e: Evaluation) returns (outcome: Outcome)
      requires Usable(e)
      modifies this`lastState, this`lastEntryAt, this`lastExitAt, this`lastAlertTs, this`loggedUnresolved
      ensures (View(key), outcome) == EvaluateReplayed(old(View(key)), e)
      ensures OthersKept(key)
    {
      hide ApplyTransition, Record;
      var inPosition := key in lastState && lastState[key];
      var entryAt := if key in lastEntryAt then lastEntryAt[key] else None;
      var exitAt := if key in lastExitAt then lastExitAt[key] else None;
      var (next, trigger) := ApplyTransition(Position(inPosition, entryAt, exitAt), LiveInput(e));
      if trigger.Nothing? {
        if inPosition && entryAt.None? {
          loggedUnresolved := loggedUnresolved + {key};
        }
        return Steady;
      }
      outcome := RecordTransition(key, next, trigger, e);
    }

    method EvalPair(key: Key, e: Evaluation) returns (outcome: Outcome)
      modifies this
      ensures (View(key), outcome) == Evaluate(old(View(key)), e)
      ensures OthersKept(key)
    {
      if e.bars == [] {
        return NoBars;
      }
      Assess(key, e.availability);
      if e.decisions.None? {
        return Raised;
      }
      if e.decisions.value == [] {
        return NoDecisions;
      }
      if key !in replayed {
        var ok := ReplayHistory(key, e);
        if !ok {
          return Raised;
        }
      }
      outcome := EvalLiveBar(key, e);
    }
  }
}
