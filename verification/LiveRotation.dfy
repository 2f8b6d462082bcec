/** The rotating cursor of LiveEvaluationLoop._run_cycle. A pair's sort key (created_at, strategy_id,
    symbol) is modelled by its rank in the lexicographic order, an int. */
module LiveRotation {
  import opened Options

  /** Insertion point after every key not above `key`, in a sorted list. */
  function BisectRight(pairs: seq<int>, key: int): nat {
    if pairs == [] || pairs[0] > key then 0 else 1 + BisectRight(pairs[1..], key)
  }

  function Start(pairs: seq<int>, cursor: Option<int>): nat {
    var at := if cursor.Some? then BisectRight(pairs, cursor.value) else 0;
    if at >= |pairs| then 0 else at
  }

  function Min(a: nat, b: nat): nat {
    if a < b then a else b
  }

  function Successor(at: nat, size: nat): nat {
    if at + 1 >= size then 0 else at + 1
  }

  /** The place reached after `steps` places of the circle. */
  function Ahead(from: nat, steps: nat, size: nat): nat {
    if steps == 0 then from else Successor(Ahead(from, steps - 1, size), size)
  }

  /** The next `steps` places of the circle. */
  function Walk(from: nat, steps: nat, size: nat): seq<nat> {
    if steps == 0 then [] else Walk(from, steps - 1, size) + [Ahead(from, steps - 1, size)]
  }

  datatype CycleResult = CycleResult(evaluated: seq<nat>, cursor: Option<int>)

  /** One cycle: which indices are evaluated, in order, and where the cursor ends. */
  function Cycle(pairs: seq<int>, cursor: Option<int>, maxPairs: nat): CycleResult {
    var n := Min(maxPairs, |pairs|);
    if n == 0 then CycleResult([], cursor)
    else
      var start := Start(pairs, cursor);
      var last := Ahead(start, n - 1, |pairs|);
      CycleResult(Walk(start, n, |pairs|), if last < |pairs| then Some(pairs[last]) else cursor)
  }

  lemma {:induction false} AheadIs(from: nat, steps: nat, size: nat)
    requires from < size && steps <= size
    ensures Ahead(from, steps, size) == if from + steps < size then from + steps else from + steps - size
  {
    if steps > 0 {
      AheadIs(from, steps - 1, size);
    }
  }

  lemma Wraps(at: nat, size: nat)
    requires 0 < size && at < 2 * size
    ensures at % size == if at < size then at else at - size
  {
  }

  /** How many of the evaluations raise. */
  function Failures(evaluated: seq<nat>, failing: set<nat>): nat {
    if evaluated == [] then 0
    else Failures(evaluated[..|evaluated| - 1], failing) + if evaluated[|evaluated| - 1] in failing then 1 else 0
  }

  lemma NextIndex(start: nat, i: nat, size: nat)
    requires start < size && i < size
    ensures (start + i) % size == Ahead(start, i, size) < size
    ensures Walk(start, i + 1, size) == Walk(start, i, size) + [Ahead(start, i, size)]
    ensures Walk(start, 0, size) == []
  {
    AheadIs(start, i, size);
    Wraps(start + i, size);
  }

  lemma OneMoreEvaluation(evaluated: seq<nat>, idx: nat, failing: set<nat>)
    ensures Failures(evaluated + [idx], failing) == Failures(evaluated, failing) + if idx in failing then 1 else 0
  {
    assert (evaluated + [idx])[..|evaluated|] == evaluated;
  }

  class Rotation {
    var cursorKey: Option<int>

    constructor ()
      ensures cursorKey == None
    {
      cursorKey := None;
    }

    /** `failing` marks pairs whose evaluation raises; the error is contained to the pair. */
    method RunCycle(pairs: seq<int>, maxPairs: nat, failing: set<nat>) returns (evaluated: seq<nat>, errors: nat)
      modifies this
      ensures CycleResult(evaluated, cursorKey) == Cycle(pairs, old(cursorKey), maxPairs)
      ensures |evaluated| == Min(maxPairs, |pairs|) && errors == Failures(evaluated, failing)
      ensures pairs == [] || maxPairs == 0 ==> cursorKey == old(cursorKey)
    {
      evaluated, errors := [], 0;
      assert Failures([], failing) == 0;
      hide Failures, BisectRight, Ahead, Walk;
      if pairs == [] {
        return;
      }
      var n := Min(maxPairs, |pairs|);
      if n == 0 {
        return;
      }
      var start := if cursorKey.Some? then BisectRight(pairs, cursorKey.value) else 0;
      if start >= |pairs| {
        start := 0;
      }
      var lastIdx := 0;
      NextIndex(start, 0, |pairs|);
      for i := 0 to n
        invariant evaluated == Walk(start, i, |pairs|) && |evaluated| == i && errors == Failures(evaluated, failing)
        invariant i > 0 ==> lastIdx == Ahead(start, i - 1, |pairs|) < |pairs|
      {
        NextIndex(start, i, |pairs|);
        var idx := (start + i) % |pairs|;
        lastIdx := idx;
        OneMoreEvaluation(evaluated, idx, failing);
        evaluated := evaluated + [idx];
        if idx in failing {
          errors := errors + 1;
        }
      }
      cursorKey := Some(pairs[lastIdx]);
    }
  }

  /** The indices evaluated by consecutive cycles over one fleet. */
  function Evaluated(pairs: seq<int>, cursor: Option<int>, budgets: seq<nat>): seq<nat>
    decreases |budgets|
  {
    if budgets == [] then []
    else
      var c := Cycle(pairs, cursor, budgets[0]);
      c.evaluated + Evaluated(pairs, c.cursor, budgets[1..])
  }
}
