/** What retention keeps over any interleaving of the statements of any callers, with any crashes. */
module BacktestRetentionLaws {
  import opened Sets
  import opened Options
  import opened BacktestRetention

  /** One statement of some call. A crash between the two is a Storing with no Evicting after it. */
  datatype Statement =
    | Storing(id: string, row: Row)
    | Evicting(strategy: string, user: Option<string>, retention: nat, kept: set<string>)

  /** The table, and every row that was ever stored. */
  datatype State = State(table: Table, history: Table)

  /** A backtest id names one result; the subselect answers as SQL allows. */
  ghost predicate Legal(s: State, e: Statement) {
    match e
    case Storing(id, row) => id in s.history ==> s.history[id] == row
    case Evicting(strategy, user, retention, kept) =>
      IsNewest(s.table, Owned(s.table, strategy, user), retention, kept)
  }

  function Next(s: State, e: Statement): State {
    match e
    case Storing(id, row) => State(InsertRow(s.table, id, row), InsertRow(s.history, id, row))
    case Evicting(strategy, user, _, kept) => s.(table := Evict(s.table, strategy, user, kept))
  }

  function Apply(s: State, run: seq<Statement>): State
    decreases |run|
  {
    if run == [] then s else Apply(Next(s, run[0]), run[1..])
  }

  ghost predicate LegalRun(s: State, run: seq<Statement>)
    decreases |run|
  {
    run != [] ==> Legal(s, run[0]) && LegalRun(Next(s, run[0]), run[1..])
  }

  /** Every eviction of the group keeps at least `k`. */
  ghost predicate RetainsAtLeast(run: seq<Statement>, strategy: string, user: Option<string>, k: nat) {
    forall e <- run :: e.Evicting? && e.strategy == strategy && e.user == user ==> e.retention >= k
  }

  ghost predicate InHistory(s: State) {
    forall id :: id in s.table ==> id in s.history && s.history[id] == s.table[id]
  }

  /** Rows of `ids` that are no older than `id`. */
  function NoOlder(rows: Table, ids: set<string>, id: string): set<string>
    requires ids <= rows.Keys && id in rows
  {
    set x | x in ids && rows[x].completedAt >= rows[id].completedAt
  }

  /** Whatever was stored and is gone has `k` surviving rows of its group that are no older. */
  ghost predicate Covered(s: State, strategy: string, user: Option<string>, k: nat)
    requires InHistory(s)
  {
    var live := Owned(s.table, strategy, user);
    forall id :: id in Owned(s.history, strategy, user) - live ==> |NoOlder(s.history, live, id)| >= k
  }

  lemma StoringKeeps(s: State, e: Statement, strategy: string, user: Option<string>, k: nat)
    requires e.Storing? && Legal(s, e) && InHistory(s) && Covered(s, strategy, user, k)
    ensures InHistory(Next(s, e)) && Covered(Next(s, e), strategy, user, k)
  {
    var t := Next(s, e);
    var live, live' := Owned(s.table, strategy, user), Owned(t.table, strategy, user);
    forall id | id in Owned(t.history, strategy, user) - live'
      ensures |NoOlder(t.history, live', id)| >= k
    {
      assert id in Owned(s.history, strategy, user) - live;
      SubsetSize(NoOlder(s.history, live, id), NoOlder(t.history, live', id));
    }
  }

  /** Evicting from a group keeps as many rows no older than any given one as there were, or all it may keep. */
  lemma EvictionCovers(rows: Table, live: set<string>, limit: nat, kept: set<string>, id: string)
    requires live <= rows.Keys && id in rows && IsNewest(rows, live, limit, kept)
    ensures NoOlder(rows, kept, id) == NoOlder(rows, live, id)
         || (NoOlder(rows, kept, id) == kept && |kept| == limit)
  {
    if gone :| gone in NoOlder(rows, live, id) && gone !in kept {
      assert gone in live - kept;
      assert NoOlder(rows, kept, id) == kept;
      if |kept| == |live| {
        ProperSubsetSize(kept, live, gone);
      }
    } else {
      assert NoOlder(rows, kept, id) == NoOlder(rows, live, id);
    }
  }

  lemma EvictionKeeps(s: State, e: Statement, strategy: string, user: Option<string>, k: nat)
    requires e.Evicting? && Legal(s, e) && InHistory(s) && Covered(s, strategy, user, k)
    requires e.strategy == strategy && e.user == user ==> e.retention >= k
    ensures InHistory(Next(s, e)) && Covered(Next(s, e), strategy, user, k)
  {
    var t := Next(s, e);
    var live, live' := Owned(s.table, strategy, user), Owned(t.table, strategy, user);
    if e.strategy == strategy && e.user == user {
      assert live' == e.kept;
      assert IsNewest(s.history, live, e.retention, e.kept);
      forall id | id in Owned(t.history, strategy, user) - live'
        ensures |NoOlder(t.history, live', id)| >= k
      {
        EvictionCovers(s.history, live, e.retention, e.kept, id);
        if id in live {
          assert id in NoOlder(s.history, live, id) && id !in NoOlder(s.history, e.kept, id);
        }
      }
    } else {
      assert live' == live;
    }
  }

  /** Over any interleaving of the callers' statements, with any crashes and any order of completion: a
      stored row of the group is still there, or at least k rows no older than it are. */
  lemma {:induction false} NothingNewIsLost(s: State, run: seq<Statement>, strategy: string, user: Option<string>, k: nat)
    requires LegalRun(s, run) && InHistory(s) && Covered(s, strategy, user, k)
    requires RetainsAtLeast(run, strategy, user, k)
    ensures InHistory(Apply(s, run)) && Covered(Apply(s, run), strategy, user, k)
    decreases |run|
  {
    if run != [] {
      var e := run[0];
      assert e in run && forall x <- run[1..] :: x in run;
      if e.Storing? {
        StoringKeeps(s, e, strategy, user, k);
      } else {
        EvictionKeeps(s, e, strategy, user, k);
      }
      NothingNewIsLost(Next(s, e), run[1..], strategy, user, k);
    }
  }

  // ---- the statements ----

  /** An INSERT of an id that exists changes nothing; any other adds its row. */
  lemma FirstRowWins(table: Table, id: string, row: Row)
    ensures var after := InsertRow(table, id, row);
            && id in after && after[id] == (if id in table then table[id] else row)
            && forall x :: x != id ==> (x in after <==> x in table) && (x in table ==> after[x] == table[x])
  {
  }

  /** An eviction deletes exactly the rows of the owner and strategy that were not kept, and none for a
      NULL owner. */
  lemma EvictsItsGroup(table: Table, strategy: string, user: Option<string>, kept: set<string>, x: string)
    ensures var after := Evict(table, strategy, user, kept);
            && (x in after <==> x in table && !(user != None && table[x].strategy == strategy && table[x].user == user && x !in kept))
            && (x in after ==> after[x] == table[x])
  {
  }

  // ---- with distinct completion times ----

  ghost predicate DistinctTimes(rows: Table, ids: set<string>)
    requires ids <= rows.Keys
  {
    forall a, b :: a in ids && b in ids && a != b ==> rows[a].completedAt != rows[b].completedAt
  }

  function Newer(rows: Table, ids: set<string>, id: string): set<string>
    requires ids <= rows.Keys && id in rows
  {
    set x | x in ids && rows[x].completedAt > rows[id].completedAt
  }

  /** The k newest of a set of rows. */
  function NewestOf(rows: Table, ids: set<string>, k: nat): set<string>
    requires ids <= rows.Keys
  {
    set id | id in ids && |Newer(rows, ids, id)| < k
  }

  /** The table always holds the k newest rows ever stored for the owner and strategy. */
  lemma HoldsNewest(s: State, strategy: string, user: Option<string>, k: nat)
    requires InHistory(s) && Covered(s, strategy, user, k)
    requires DistinctTimes(s.history, Owned(s.history, strategy, user))
    ensures NewestOf(s.history, Owned(s.history, strategy, user), k) <= Owned(s.table, strategy, user)
    ensures Owned(s.table, strategy, user) <= Owned(s.history, strategy, user)
  {
    var all, live := Owned(s.history, strategy, user), Owned(s.table, strategy, user);
    assert live <= all;
    forall id | id in NewestOf(s.history, all, k)
      ensures id in live
    {
      if id !in live {
        SubsetSize(NoOlder(s.history, live, id), Newer(s.history, all, id));
        assert false;
      }
    }
  }

  /** And exactly those once an eviction to k has run. */
  lemma ExactAfterEviction(s: State, e: Statement)
    requires e.Evicting? && Legal(s, e) && InHistory(s) && Covered(s, e.strategy, e.user, e.retention)
    requires DistinctTimes(s.history, Owned(s.history, e.strategy, e.user))
    ensures Owned(Next(s, e).table, e.strategy, e.user)
         == NewestOf(s.history, Owned(s.history, e.strategy, e.user), e.retention)
  {
    var t := Next(s, e);
    EvictionKeeps(s, e, e.strategy, e.user, e.retention);
    HoldsNewest(t, e.strategy, e.user, e.retention);
    var all, live := Owned(t.history, e.strategy, e.user), Owned(t.table, e.strategy, e.user);
    assert live == e.kept;
    forall id | id in live
      ensures id in NewestOf(s.history, all, e.retention)
    {
      NewerAreLive(t, e.strategy, e.user, e.retention, id);
      ProperSubsetSize(Newer(t.history, all, id), live, id);
    }
  }

  /** When no more than k rows are left, every stored row newer than a surviving one survives. */
  lemma NewerAreLive(s: State, strategy: string, user: Option<string>, k: nat, id: string)
    requires InHistory(s) && Covered(s, strategy, user, k)
    requires var live := Owned(s.table, strategy, user); id in live && |live| <= k
    ensures Newer(s.history, Owned(s.history, strategy, user), id) <= Owned(s.table, strategy, user)
  {
    var all, live := Owned(s.history, strategy, user), Owned(s.table, strategy, user);
    forall x | x in Newer(s.history, all, id)
      ensures x in live
    {
      if x !in live {
        ProperSubsetSize(NoOlder(s.history, live, x), live, id);
        assert false;
      }
    }
  }

  const EMPTY := State(map[], map[])

  lemma {:induction false} RunSnoc(s: State, run: seq<Statement>, e: Statement)
    requires LegalRun(s, run + [e])
    ensures LegalRun(s, run) && Legal(Apply(s, run), e)
    ensures Apply(s, run + [e]) == Next(Apply(s, run), e)
    decreases |run|
  {
    if run == [] {
      assert [e][1..] == [];
      assert run + [e] == [e];
    } else {
      assert (run + [e])[1..] == run[1..] + [e];
      RunSnoc(Next(s, run[0]), run[1..], e);
    }
  }

  /** From an empty table, over any interleaving and any crashes: the k newest rows ever stored for an
      owner and strategy are there, and right after an eviction to k nothing else of theirs is. */
  lemma RetentionHolds(run: seq<Statement>, last: Statement, strategy: string, user: Option<string>, k: nat)
    requires LegalRun(EMPTY, run + [last]) && RetainsAtLeast(run + [last], strategy, user, k)
    requires var end := Apply(EMPTY, run + [last]); DistinctTimes(end.history, Owned(end.history, strategy, user))
    ensures var end := Apply(EMPTY, run + [last]);
            var newest := NewestOf(end.history, Owned(end.history, strategy, user), k);
            && newest <= Owned(end.table, strategy, user) <= Owned(end.history, strategy, user)
            && (last.Evicting? && last.strategy == strategy && last.user == user && last.retention == k
                ==> Owned(end.table, strategy, user) == newest)
  {
    hide Owned, NewestOf, DistinctTimes, Covered;
    RunSnoc(EMPTY, run, last);
    assert forall e <- run :: e in run + [last];
    EmptyIsCovered(strategy, user, k);
    NothingNewIsLost(EMPTY, run, strategy, user, k);
    NothingNewIsLost(EMPTY, run + [last], strategy, user, k);
    HoldsNewest(Apply(EMPTY, run + [last]), strategy, user, k);
    if last.Evicting? && last.strategy == strategy && last.user == user && last.retention == k {
      ExactAfterEviction(Apply(EMPTY, run), last);
    }
  }

  lemma EmptyIsCovered(strategy: string, user: Option<string>, k: nat)
    ensures InHistory(EMPTY) && Covered(EMPTY, strategy, user, k)
  {
  }

  // ---- other rows ----

  /** Retention touches nothing outside the group; a row without an owner is never evicted. */
  lemma {:induction false} OtherRowsStay(s: State, run: seq<Statement>, id: string)
    requires id in s.table
    requires forall e <- run :: e.Evicting? && e.user == s.table[id].user && e.strategy == s.table[id].strategy ==> e.user.None?
    ensures id in Apply(s, run).table && Apply(s, run).table[id] == s.table[id]
    decreases |run|
  {
    if run != [] {
      var e := run[0];
      assert e in run && forall x <- run[1..] :: x in run;
      assert id in Next(s, e).table && Next(s, e).table[id] == s.table[id];
      OtherRowsStay(Next(s, e), run[1..], id);
    }
  }

  // ---- extra rows ----

  ghost predicate NoEviction(run: seq<Statement>, strategy: string, user: Option<string>) {
    forall e <- run :: !(e.Evicting? && e.strategy == strategy && e.user == user)
  }

  /** The statement stores a new row of the group. */
  predicate StoresFresh(s: State, e: Statement, strategy: string, user: Option<string>) {
    e.Storing? && e.id !in s.table && e.row.strategy == strategy && e.row.user == user
  }

  /** How many new rows of the group the run stores. */
  function FreshStores(s: State, run: seq<Statement>, strategy: string, user: Option<string>): nat
    decreases |run|
  {
    if run == [] then 0
    else (if StoresFresh(s, run[0], strategy, user) then 1 else 0) + FreshStores(Next(s, run[0]), run[1..], strategy, user)
  }

  lemma GroupGrows(s: State, e: Statement, strategy: string, user: Option<string>)
    requires user.Some? && !(e.Evicting? && e.strategy == strategy && e.user == user)
    ensures |Owned(Next(s, e).table, strategy, user)|
         == |Owned(s.table, strategy, user)| + if StoresFresh(s, e, strategy, user) then 1 else 0
  {
    var before, after := Owned(s.table, strategy, user), Owned(Next(s, e).table, strategy, user);
    if StoresFresh(s, e, strategy, user) {
      assert after == before + {e.id};
    } else {
      assert after == before;
    }
  }

  /** While no eviction of the group runs, the group grows by exactly the new rows stored for it, whatever
      other statements lie between: each call that dies between its statements leaves its row. */
  lemma {:induction false} CrashesPileUp(s: State, run: seq<Statement>, strategy: string, user: Option<string>)
    requires user.Some? && NoEviction(run, strategy, user)
    ensures |Owned(Apply(s, run).table, strategy, user)|
         == |Owned(s.table, strategy, user)| + FreshStores(s, run, strategy, user)
    decreases |run|
  {
    if run != [] {
      hide Owned, StoresFresh;
      assert run[0] in run && forall e <- run[1..] :: e in run;
      GroupGrows(s, run[0], strategy, user);
      CrashesPileUp(Next(s, run[0]), run[1..], strategy, user);
    }
  }

  /** What the documentation promises of an eviction and everything up to the next one: at most one row
      more than the eviction left exactly when at most one new row was stored since; and when the
      eviction found at least its limit, at most one row beyond the limit exactly then. */
  lemma OneExtraRowIff(s: State, e: Statement, run: seq<Statement>)
    requires e.Evicting? && e.user.Some? && Legal(s, e) && NoEviction(run, e.strategy, e.user)
    ensures var left := |Owned(Next(s, e).table, e.strategy, e.user)|;
            var rows := |Owned(Apply(Next(s, e), run).table, e.strategy, e.user)|;
            var added := FreshStores(Next(s, e), run, e.strategy, e.user);
            && left <= e.retention && rows == left + added
            && (rows <= left + 1 <==> added <= 1)
            && (|Owned(s.table, e.strategy, e.user)| >= e.retention ==> (rows <= e.retention + 1 <==> added <= 1))
  {
    assert Owned(Next(s, e).table, e.strategy, e.user) == e.kept;
    CrashesPileUp(Next(s, e), run, e.strategy, e.user);
  }
}
