/** Fairness of the rotation over a fixed fleet and over a changing one. */
module LiveRotationLaws {
  import opened Sets
  import opened Options
  import opened LiveRotation

  predicate Sorted(pairs: seq<int>) {
    forall i, j :: 0 <= i < j < |pairs| ==> pairs[i] <= pairs[j]
  }

  predicate Increasing(pairs: seq<int>) {
    forall i, j :: 0 <= i < j < |pairs| ==> pairs[i] < pairs[j]
  }

  lemma {:induction false} BisectSplits(pairs: seq<int>, key: int)
    requires Sorted(pairs)
    ensures BisectRight(pairs, key) <= |pairs|
    ensures forall i :: 0 <= i < BisectRight(pairs, key) ==> pairs[i] <= key
    ensures forall i :: BisectRight(pairs, key) <= i < |pairs| ==> pairs[i] > key
  {
    if pairs != [] && pairs[0] <= key {
      BisectSplits(pairs[1..], key);
      var at := BisectRight(pairs[1..], key);
      forall i | 0 <= i < 1 + at ensures pairs[i] <= key {
        if i > 0 { assert pairs[i] == pairs[1..][i - 1]; }
      }
      forall i | 1 + at <= i < |pairs| ensures pairs[i] > key {
        assert pairs[i] == pairs[1..][i - 1];
      }
    } else if pairs != [] {
      forall i | 0 <= i < |pairs| ensures pairs[i] > key {
        if i > 0 { assert pairs[0] <= pairs[i]; }
      }
    }
  }

  /** After a pair was evaluated last, the next cycle starts at the pair after it. */
  lemma StartAfter(pairs: seq<int>, last: nat)
    requires Increasing(pairs) && last < |pairs|
    ensures Start(pairs, Some(pairs[last])) == Successor(last, |pairs|)
  {
    BisectSplits(pairs, pairs[last]);
    var at := BisectRight(pairs, pairs[last]);
    assert last + 1 < |pairs| ==> pairs[last + 1] > pairs[last];
    assert at == last + 1;
  }

  lemma {:induction false} AheadInside(from: nat, steps: nat, size: nat)
    requires from < size
    ensures Ahead(from, steps, size) < size
  {
    if steps > 0 {
      AheadInside(from, steps - 1, size);
    }
  }

  lemma {:induction false} WalkConcat(from: nat, a: nat, b: nat, size: nat)
    ensures Ahead(from, a + b, size) == Ahead(Ahead(from, a, size), b, size)
    ensures Walk(from, a + b, size) == Walk(from, a, size) + Walk(Ahead(from, a, size), b, size)
    decreases b
  {
    if b > 0 {
      WalkConcat(from, a, b - 1, size);
    }
  }

  // ---- a fixed fleet ----

  predicate Positive(budgets: seq<nat>) {
    forall b <- budgets :: b >= 1
  }

  function Volume(budgets: seq<nat>, size: nat): nat {
    if budgets == [] then 0 else Min(budgets[0], size) + Volume(budgets[1..], size)
  }

  /** Consecutive cycles, whatever their budgets, evaluate one uninterrupted walk round the fleet. */
  lemma {:induction false} CyclesWalk(pairs: seq<int>, cursor: Option<int>, budgets: seq<nat>)
    requires Increasing(pairs) && pairs != [] && Positive(budgets)
    ensures Evaluated(pairs, cursor, budgets) == Walk(Start(pairs, cursor), Volume(budgets, |pairs|), |pairs|)
    decreases |budgets|
  {
    if budgets != [] {
      var start, n := Start(pairs, cursor), Min(budgets[0], |pairs|);
      assert budgets[0] in budgets;
      AheadInside(start, n - 1, |pairs|);
      var c := Cycle(pairs, cursor, budgets[0]);
      StartAfter(pairs, Ahead(start, n - 1, |pairs|));
      assert Start(pairs, c.cursor) == Ahead(start, n, |pairs|);
      assert forall b <- budgets[1..] :: b in budgets;
      CyclesWalk(pairs, c.cursor, budgets[1..]);
      WalkConcat(start, n, Volume(budgets[1..], |pairs|), |pairs|);
    }
  }

  predicate InArc(from: nat, to: nat, j: nat) {
    if from <= to then from <= j < to else j >= from || j < to
  }

  function ArcLength(from: nat, to: nat, size: nat): int {
    if from <= to then to - from else to - from + size
  }

  /** Every place has been visited `rounds` times, and those on the unfinished round once more. */
  lemma {:induction false} WalkCounts(from: nat, steps: nat, size: nat) returns (rounds: nat)
    requires from < size
    ensures var to := Ahead(from, steps, size);
            && to < size
            && (steps < size ==> rounds == 0 && ArcLength(from, to, size) == steps)
            && (steps == size ==> rounds == 1 && to == from)
            && (steps >= size ==> rounds >= 1)
            && forall j :: 0 <= j < size ==> multiset(Walk(from, steps, size))[j] == rounds + if InArc(from, to, j) then 1 else 0
  {
    if steps == 0 {
      rounds := 0;
    } else {
      rounds := WalkCounts(from, steps - 1, size);
      var before := Ahead(from, steps - 1, size);
      var walk := Walk(from, steps - 1, size);
      assert multiset(walk + [before]) == multiset(walk) + multiset{before};
      if Successor(before, size) == from {
        rounds := rounds + 1;
      }
    }
  }

  /** Over a fleet with distinct keys, from any cursor and with any positive budgets: two pairs'
      evaluation counts never differ by more than one, and once as many evaluations have been made as
      there are pairs, every pair has been evaluated. */
  lemma RotationIsFair(pairs: seq<int>, cursor: Option<int>, budgets: seq<nat>)
    requires Increasing(pairs) && Positive(budgets)
    ensures var counts := multiset(Evaluated(pairs, cursor, budgets));
            && (forall i, j :: 0 <= i < |pairs| && 0 <= j < |pairs| ==> counts[i] <= counts[j] + 1)
            && (Volume(budgets, |pairs|) >= |pairs| ==> forall j :: 0 <= j < |pairs| ==> counts[j] >= 1)
            && (Volume(budgets, |pairs|) <= |pairs| ==> forall j :: 0 <= j < |pairs| ==> counts[j] <= 1)
  {
    hide Evaluated, Walk, Ahead, Start, ArcLength;
    if pairs != [] {
      CyclesWalk(pairs, cursor, budgets);
      StartInside(pairs, cursor);
      var rounds := WalkCounts(Start(pairs, cursor), Volume(budgets, |pairs|), |pairs|);
    }
  }

  lemma StartInside(pairs: seq<int>, cursor: Option<int>)
    requires pairs != []
    ensures Start(pairs, cursor) < |pairs|
  {
  }

  function Repeat(budget: nat, cycles: nat): seq<nat> {
    seq(cycles, _ => budget)
  }

  lemma {:induction false} RepeatVolume(budget: nat, cycles: nat, size: nat)
    ensures Volume(Repeat(budget, cycles), size) == cycles * Min(budget, size)
  {
    if cycles > 0 {
      assert Repeat(budget, cycles)[1..] == Repeat(budget, cycles - 1);
      RepeatVolume(budget, cycles - 1, size);
    }
  }

  lemma OneCycle(pairs: seq<int>, cursor: Option<int>, budget: nat)
    ensures Evaluated(pairs, cursor, [budget]) == Cycle(pairs, cursor, budget).evaluated
    ensures Volume([budget], |pairs|) == Min(budget, |pairs|)
  {
    assert [budget][1..] == [];
  }

  lemma EnoughVolume(budget: nat, cycles: nat, size: nat)
    requires budget >= 1 && cycles * budget >= size
    ensures cycles * Min(budget, size) >= size
  {
    if budget > size > 0 {
      assert cycles != 0;
      assert (cycles - 1) * size >= 0;
    }
  }

  /** With a fixed budget every pair is evaluated within any ceil(pairs/budget) consecutive cycles, and
      never twice within one cycle. */
  lemma EveryPairWithin(pairs: seq<int>, cursor: Option<int>, budget: nat, cycles: nat)
    requires Increasing(pairs) && budget >= 1 && cycles * budget >= |pairs|
    ensures forall j :: 0 <= j < |pairs| ==> j in Evaluated(pairs, cursor, Repeat(budget, cycles))
    ensures forall j :: 0 <= j < |pairs| ==> multiset(Cycle(pairs, cursor, budget).evaluated)[j] <= 1
  {
    hide Evaluated, Cycle;
    RepeatVolume(budget, cycles, |pairs|);
    EnoughVolume(budget, cycles, |pairs|);
    RotationIsFair(pairs, cursor, Repeat(budget, cycles));
    forall j | 0 <= j < |pairs| ensures j in Evaluated(pairs, cursor, Repeat(budget, cycles)) {
      assert multiset(Evaluated(pairs, cursor, Repeat(budget, cycles)))[j] >= 1;
    }
    OneCycle(pairs, cursor, budget);
    RotationIsFair(pairs, cursor, [budget]);
  }

  /** Of two adjacent equal keys a cycle never starts at the second, so with a budget of one the second
      is never evaluated. */
  lemma {:induction false} EqualKeysStarve(pairs: seq<int>, i: nat, cursor: Option<int>, cycles: nat)
    requires Sorted(pairs) && i + 1 < |pairs| && pairs[i] == pairs[i + 1]
    ensures i + 1 !in Evaluated(pairs, cursor, Repeat(1, cycles))
    decreases cycles
  {
    if cycles > 0 {
      if cursor.Some? { BisectSplits(pairs, cursor.value); }
      var start := Start(pairs, cursor);
      assert start != i + 1;
      assert Walk(start, 1, |pairs|) == [start] by { assert Walk(start, 0, |pairs|) == []; }
      assert Repeat(1, cycles)[1..] == Repeat(1, cycles - 1);
      EqualKeysStarve(pairs, i, Cycle(pairs, cursor, 1).cursor, cycles - 1);
    }
  }

  /** The rotation reaches every pair at every budget exactly when the keys are distinct. */
  lemma FairIffKeysDistinct(pairs: seq<int>)
    requires Sorted(pairs)
    ensures Increasing(pairs) <==>
            forall cursor, budget: nat, cycles: nat, j {:trigger Evaluated(pairs, cursor, Repeat(budget, cycles)), InArc(0, |pairs|, j)} ::
              budget >= 1 && cycles * budget >= |pairs| && InArc(0, |pairs|, j) ==> j in Evaluated(pairs, cursor, Repeat(budget, cycles))
  {
    if Increasing(pairs) {
      forall cursor, budget: nat, cycles: nat, j | budget >= 1 && cycles * budget >= |pairs| && InArc(0, |pairs|, j)
        ensures j in Evaluated(pairs, cursor, Repeat(budget, cycles))
      {
        EveryPairWithin(pairs, cursor, budget, cycles);
      }
    } else {
      var i := AdjacentEqual(pairs);
      EqualKeysStarve(pairs, i, None, |pairs|);
      assert |pairs| * 1 >= |pairs| && InArc(0, |pairs|, i + 1);
    }
  }

  lemma AdjacentEqual(pairs: seq<int>) returns (i: nat)
    requires Sorted(pairs) && !Increasing(pairs)
    ensures i + 1 < |pairs| && pairs[i] == pairs[i + 1]
  {
    var a, b :| 0 <= a < b < |pairs| && pairs[a] >= pairs[b];
    i := a;
    assert pairs[a] <= pairs[a + 1];
    if a + 1 < b { assert pairs[a + 1] <= pairs[b]; }
  }

  /** A cycle over no pairs, or with no budget, evaluates nothing and leaves the cursor where it was; any other
      evaluates as many pairs as budget and fleet allow and leaves the cursor at the last of them. */
  lemma CycleShape(pairs: seq<int>, cursor: Option<int>, budget: nat)
    ensures var c := Cycle(pairs, cursor, budget);
            && |c.evaluated| == (if budget < |pairs| then budget else |pairs|)
            && (c.evaluated == [] ==> c.cursor == cursor)
            && (c.evaluated != [] ==>
                  && c.evaluated[|c.evaluated| - 1] < |pairs|
                  && c.cursor == Some(pairs[c.evaluated[|c.evaluated| - 1]]))
  {
    var n := Min(budget, |pairs|);
    if n > 0 {
      StartInside(pairs, cursor);
      WalkLength(Start(pairs, cursor), n, |pairs|);
      AheadInside(Start(pairs, cursor), n - 1, |pairs|);
    }
  }

  lemma {:induction false} WalkLength(from: nat, steps: nat, size: nat)
    ensures |Walk(from, steps, size)| == steps
  {
    if steps > 0 {
      WalkLength(from, steps - 1, size);
    }
  }

  // ---- a changing fleet ----

  function Keys(pairs: seq<int>): set<int> {
    set k <- pairs
  }

  predicate Between(cursor: Option<int>, y: int, x: int) {
    match cursor
    case None => y < x
    case Some(c) => if c < x then c < y < x else y > c || y < x
  }

  /** The keys standing in line before `x`, going round from the cursor. */
  function Line(pairs: seq<int>, cursor: Option<int>, x: int): set<int> {
    set y | y in pairs && Between(cursor, y, x)
  }

  function Rank(pairs: seq<int>, cursor: Option<int>, x: int): nat {
    |Line(pairs, cursor, x)|
  }

  lemma {:induction false} KeysCount(pairs: seq<int>)
    requires Increasing(pairs)
    ensures |Keys(pairs)| == |pairs|
  {
    if pairs == [] {
      assert Keys(pairs) == {};
    } else {
      KeysCount(pairs[1..]);
      forall y <- pairs[1..] ensures y > pairs[0] {
        var i :| 0 <= i < |pairs[1..]| && pairs[1..][i] == y;
        assert pairs[i + 1] == y;
      }
      assert Keys(pairs) == {pairs[0]} + Keys(pairs[1..]);
    }
  }

  lemma BetweenByIndex(pairs: seq<int>, cursor: Option<int>, ix: nat, i: nat)
    requires Increasing(pairs) && ix < |pairs| && i < |pairs|
    ensures Between(cursor, pairs[i], pairs[ix]) <==> InArc(Start(pairs, cursor), ix, i)
  {
    assert i < ix ==> pairs[i] < pairs[ix];
    assert ix < i ==> pairs[ix] < pairs[i];
    if cursor.Some? {
      BisectSplits(pairs, cursor.value);
    }
  }

  function ArcKeys(pairs: seq<int>, from: nat, to: nat): set<int> {
    set i | 0 <= i < |pairs| && InArc(from, to, i) :: pairs[i]
  }

  lemma ArcKeysCount(pairs: seq<int>, from: nat, to: nat)
    requires Increasing(pairs) && from <= |pairs| && to <= |pairs|
    ensures |ArcKeys(pairs, from, to)| == ArcLength(from, to, |pairs|)
  {
    if from <= to {
      RunKeys(pairs, from, to);
      assert ArcKeys(pairs, from, to) == Keys(pairs[from..to]);
    } else {
      RunKeys(pairs, from, |pairs|);
      RunKeys(pairs, 0, to);
      RunsDisjoint(pairs, to, from);
      hide Keys;
      assert ArcKeys(pairs, from, to) == Keys(pairs[from..|pairs|]) + Keys(pairs[0..to]);
    }
  }

  lemma RunsDisjoint(pairs: seq<int>, to: nat, from: nat)
    requires Increasing(pairs) && to <= from <= |pairs|
    ensures Keys(pairs[from..|pairs|]) !! Keys(pairs[0..to])
  {
    RunKeys(pairs, from, |pairs|);
    RunKeys(pairs, 0, to);
    hide Keys;
    forall i, j | from <= i < |pairs| && 0 <= j < to ensures pairs[i] != pairs[j] { }
  }

  lemma RunKeys(pairs: seq<int>, lo: nat, hi: nat)
    requires Increasing(pairs) && lo <= hi <= |pairs|
    ensures Keys(pairs[lo..hi]) == set i | lo <= i < hi :: pairs[i]
    ensures |Keys(pairs[lo..hi])| == hi - lo
  {
    var run := pairs[lo..hi];
    forall i | lo <= i < hi ensures pairs[i] in run { assert run[i - lo] == pairs[i]; }
    KeysCount(run);
  }

  /** The rank is the number of pairs the walk passes before reaching the pair. */
  lemma RankIsDistance(pairs: seq<int>, cursor: Option<int>, ix: nat)
    requires Increasing(pairs) && ix < |pairs|
    ensures Rank(pairs, cursor, pairs[ix]) == ArcLength(Start(pairs, cursor), ix, |pairs|)
  {
    hide Start, Between, InArc;
    forall i | 0 <= i < |pairs|
      ensures Between(cursor, pairs[i], pairs[ix]) <==> InArc(Start(pairs, cursor), ix, i)
    {
      BetweenByIndex(pairs, cursor, ix, i);
    }
    assert Line(pairs, cursor, pairs[ix]) == ArcKeys(pairs, Start(pairs, cursor), ix);
    StartInside(pairs, cursor);
    ArcKeysCount(pairs, Start(pairs, cursor), ix);
  }

  lemma WalkVisits(from: nat, steps: nat, size: nat, j: nat)
    requires from < size && steps <= size && j < size
    ensures j in Walk(from, steps, size) <==> ArcLength(from, j, size) < steps
  {
    var rounds := WalkCounts(from, steps, size);
    AheadIs(from, steps, size);
    assert j in Walk(from, steps, size) <==> multiset(Walk(from, steps, size))[j] >= 1;
  }

  /** A cycle reaches the pairs of rank below its budget; any other pair moves up by exactly the budget. */
  lemma CycleAdvances(pairs: seq<int>, cursor: Option<int>, budget: nat, ix: nat)
    requires Increasing(pairs) && ix < |pairs| && budget >= 1
    ensures var c := Cycle(pairs, cursor, budget);
            var rank := Rank(pairs, cursor, pairs[ix]);
            if ix in c.evaluated then rank < budget else Rank(pairs, c.cursor, pairs[ix]) == rank - budget
  {
    hide Rank, Walk, Start, Ahead;
    var start, n, size := Start(pairs, cursor), Min(budget, |pairs|), |pairs|;
    StartInside(pairs, cursor);
    RankIsDistance(pairs, cursor, ix);
    WalkVisits(start, n, size, ix);
    AheadIs(start, n - 1, size);
    if ix !in Walk(start, n, size) {
      StartAfter(pairs, Ahead(start, n - 1, size));
      RankIsDistance(pairs, Cycle(pairs, cursor, budget).cursor, ix);
    }
  }

  /** Only insertions can move a pair back in line; deletions, even of the cursor's own pair, cannot. */
  lemma FleetChange(before: seq<int>, after: seq<int>, cursor: Option<int>, x: int)
    ensures Rank(after, cursor, x) <= Rank(before, cursor, x) + |Keys(after) - Keys(before)|
  {
    var grown := Line(before, cursor, x) + (Keys(after) - Keys(before));
    SubsetSize(Line(after, cursor, x), grown);
  }

  function Insertions(fleets: seq<seq<int>>): nat {
    if |fleets| <= 1 then 0 else |Keys(fleets[1]) - Keys(fleets[0])| + Insertions(fleets[1..])
  }

  /** Some cycle of the run, one fleet per cycle, evaluates the pair with key `x`. */
  predicate Reached(fleets: seq<seq<int>>, cursor: Option<int>, budget: nat, x: int)
    decreases |fleets|
  {
    fleets != [] &&
    var c := Cycle(fleets[0], cursor, budget);
    || (exists i :: 0 <= i < |fleets[0]| && fleets[0][i] == x && i in c.evaluated)
    || Reached(fleets[1..], c.cursor, budget, x)
  }

  lemma {:induction false} ReachedByRank(fleets: seq<seq<int>>, cursor: Option<int>, budget: nat, x: int)
    requires fleets != [] && budget >= 1 && forall f <- fleets :: Increasing(f) && x in f
    requires Rank(fleets[0], cursor, x) + Insertions(fleets) < |fleets| * budget
    ensures Reached(fleets, cursor, budget, x)
    decreases |fleets|
  {
    var fleet := fleets[0];
    assert fleet in fleets;
    var ix :| 0 <= ix < |fleet| && fleet[ix] == x;
    CycleAdvances(fleet, cursor, budget, ix);
    var c := Cycle(fleet, cursor, budget);
    if ix !in c.evaluated {
      assert |fleets| * budget == (|fleets| - 1) * budget + budget;
      if |fleets| > 1 {
        FleetChange(fleet, fleets[1], c.cursor, x);
        ReachedByRank(fleets[1..], c.cursor, budget, x);
      }
    }
  }

  /** A pair present in every cycle is evaluated within ceil((pairs + insertions) / budget) cycles, from
      any cursor, however the rest of the fleet changes. */
  lemma ReachedDespiteChanges(fleets: seq<seq<int>>, cursor: Option<int>, budget: nat, x: int)
    requires fleets != [] && budget >= 1 && forall f <- fleets :: Increasing(f) && x in f
    requires |fleets| * budget >= |fleets[0]| + Insertions(fleets)
    ensures Reached(fleets, cursor, budget, x)
  {
    var fleet := fleets[0];
    assert fleet in fleets && x in Keys(fleet);
    KeysCount(fleet);
    assert x !in Line(fleet, cursor, x);
    SubsetSize(Line(fleet, cursor, x) + {x}, Keys(fleet));
    ReachedByRank(fleets, cursor, budget, x);
  }
}
