/** Count-based retention of app/repositories/backtest_details.py: insert one row, then evict beyond the
    newest. The two statements are separate, so any other statement or a crash may fall between them. */
module BacktestRetention {
  import opened Options

  /** `user` is None for a NULL owner. */
  datatype Row = Row(strategy: string, user: Option<string>, completedAt: int)

  type Table = map<string, Row>

  /** INSERT .. ON CONFLICT (backtest_id) DO NOTHING. */
  function InsertRow(table: Table, id: string, row: Row): Table {
    if id in table then table else table[id := row]
  }

  /** WHERE strategy_id = $1 AND user_id = $3: no row equals a NULL owner. */
  function Owned(table: Table, strategy: string, user: Option<string>): set<string> {
    set id | id in table && user.Some? && table[id].strategy == strategy && table[id].user == user
  }

  /** What the subselect may return: `limit` of the group, newest first, ties broken any way. */
  predicate IsNewest(table: Table, ids: set<string>, limit: nat, kept: set<string>)
    requires ids <= table.Keys
  {
    && kept <= ids
    && |kept| == (if |ids| < limit then |ids| else limit)
    && forall a, b :: a in kept && b in ids - kept ==> table[a].completedAt >= table[b].completedAt
  }

  /** DELETE .. WHERE the row is in the group AND backtest_id NOT IN the kept ones. */
  function Evict(table: Table, strategy: string, user: Option<string>, kept: set<string>): Table {
    table - (Owned(table, strategy, user) - kept)
  }

  lemma Newest(table: Table, ids: set<string>) returns (id: string)
    requires ids <= table.Keys && ids != {}
    ensures id in ids && forall x :: x in ids ==> table[x].completedAt <= table[id].completedAt
    decreases |ids|
  {
    var some :| some in ids;
    id := some;
    if ids != {some} {
      var rest := ids - {some};
      assert ids == {some} + rest;
      var best := Newest(table, rest);
      if table[best].completedAt > table[some].completedAt { id := best; }
      assert forall x :: x in ids ==> x == some || x in rest;
    }
  }

  lemma {:induction false} NewestExist(table: Table, ids: set<string>, limit: nat) returns (kept: set<string>)
    requires ids <= table.Keys
    ensures IsNewest(table, ids, limit, kept)
    decreases limit
  {
    if limit == 0 || ids == {} {
      kept := {};
    } else {
      var top := Newest(table, ids);
      var rest := NewestExist(table, ids - {top}, limit - 1);
      kept := rest + {top};
      assert ids - kept == ids - {top} - rest;
    }
  }

  class BacktestDetails {
    var table: Table

    constructor ()
      ensures table == map[]
    {
      table := map[];
    }

    /** One call; `reachesEviction` is false when the process dies or fails after the first statement. */
    method Insert(id: string, row: Row, retention: nat, reachesEviction: bool) returns (ghost kept: set<string>)
      modifies this
      ensures var stored := InsertRow(old(table), id, row);
              if reachesEviction then
                && IsNewest(stored, Owned(stored, row.strategy, row.user), retention, kept)
                && table == Evict(stored, row.strategy, row.user, kept)
              else table == stored
      ensures forall x :: x in table && x in old(table) ==> table[x] == old(table)[x]
      ensures forall x :: x in table ==> x in old(table) || (x == id && table[x] == row)
      ensures !reachesEviction ==> id in table && forall x :: x in old(table) ==> x in table
      ensures row.user == None ==> forall x :: x in old(table) ==> x in table
      ensures forall x :: x in old(table) && (old(table)[x].strategy != row.strategy || old(table)[x].user != row.user) ==> x in table
      ensures reachesEviction && row.user.Some? ==>
                |set x | x in table && table[x].strategy == row.strategy && table[x].user == row.user| <= retention
    {
      kept := {};
      if id !in table {
        table := table[id := row];
      }
      if reachesEviction {
        var owned := Owned(table, row.strategy, row.user);
        ghost var possible := NewestExist(table, owned, retention);
        var newest :| newest <= owned && IsNewest(table, owned, retention, newest);
        table := table - (owned - newest);
        assert row.user.Some? ==> (set x | x in table && table[x].strategy == row.strategy && table[x].user == row.user) == newest;
        kept := newest;
      }
    }
  }
}
