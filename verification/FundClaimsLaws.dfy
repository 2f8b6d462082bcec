/** How often one symbol can be emitted on one day, over every interleaving of runs, write failures,
    crashes and forced deletions. */
module FundClaimsLaws {
  import opened Sets
  import opened Options
  import opened FundClaims

  function Of(claims: set<Claim>, key: ClaimKey): set<Claim> {
    set c <- claims | c.key == key
  }

  /** The successful IngestSignal calls for one (symbol, source, day). */
  function Successes(s: State, key: ClaimKey): nat {
    |Of(s.signals.Keys, key)|
  }

  ghost predicate RunConsistent(s: State, r: nat, phase: Phase) {
    match phase
    case Claimed(k) => Claim(k, r) in s.claims && Claim(k, r) !in s.signals && Claim(k, r) !in s.released
    case Emitted(k, signalId) => Claim(k, r) in s.claims && Claim(k, r) in s.signals && s.signals[Claim(k, r)] == signalId
    case Failing(k) => Claim(k, r) in s.claims && (Claim(k, r) in s.signals ==> Claim(k, r) in s.lostConfirms)
    case _ => true
  }

  ghost predicate RunsConsistent(s: State) {
    && (forall c <- s.claims :: c.runId in s.runs && c.key in s.runs[c.runId].tried)
    && (forall r <- s.runs :: RunConsistent(s, r, s.runs[r].phase))
  }

  /** Every row belongs to an unreleased claim, and a recorded signal is the one ingest returned to the
      run recorded beside it. */
  ghost predicate RowsConsistent(s: State) {
    forall k <- s.rows ::
      var c := Claim(k, s.rows[k].runId);
      && c in s.claims && c !in s.released
      && (s.rows[k].signalId.Some? ==> c in s.signals && s.signals[c] == s.rows[k].signalId.value)
  }

  /** The claim that the table holds for its key now. */
  predicate Current(s: State, c: Claim) {
    c.key in s.rows && s.rows[c.key].runId == c.runId
  }

  /** Every claim won is released, or removed by force, or current, and never two of these; a released
      claim that succeeded lost its confirm, and only claims that succeeded do. */
  ghost predicate HistoryConsistent(s: State) {
    && s.lostConfirms <= s.signals.Keys <= s.claims
    && s.released !! s.forced
    && (forall c :: c in s.claims <==> c in s.released || c in s.forced || Current(s, c))
    && (forall c :: Current(s, c) ==> c !in s.released && c !in s.forced)
    && (forall c <- s.released :: c in s.signals ==> c in s.lostConfirms)
  }

  ghost predicate Invariant(s: State) {
    RunsConsistent(s) && RowsConsistent(s) && HistoryConsistent(s)
  }

  lemma OfAdd(claims: set<Claim>, c: Claim)
    requires c !in claims
    ensures forall k :: Of(claims + {c}, k) == (if k == c.key then Of(claims, k) + {c} else Of(claims, k))
    ensures forall k :: |Of(claims + {c}, k)| == |Of(claims, k)| + if k == c.key then 1 else 0
  {
    forall k ensures Of(claims + {c}, k) == (if k == c.key then Of(claims, k) + {c} else Of(claims, k)) { }
    forall k ensures |Of(claims + {c}, k)| == |Of(claims, k)| + if k == c.key then 1 else 0 {
      assert Of(claims + {c}, k) == (if k == c.key then Of(claims, k) + {c} else Of(claims, k));
      assert c !in Of(claims, k);
    }
  }

  // ---- what leaves the three parts alone ----

  /** History that grows only by one claim of another run does not concern this run. */
  lemma OtherRun(s: State, n: State, q: nat, phase: Phase, c: Claim)
    requires RunConsistent(s, q, phase) && c.runId != q
    requires s.claims <= n.claims && s.lostConfirms <= n.lostConfirms && n.released <= s.released + {c}
    requires s.signals - {c} == n.signals - {c}
    ensures RunConsistent(n, q, phase)
  {
    if phase.Claimed? || phase.Emitted? || phase.Failing? {
      var own := Claim(phase.key, q);
      assert own in s.signals <==> own in s.signals - {c};
      assert own in n.signals <==> own in n.signals - {c};
      if own in s.signals { assert s.signals[own] == (s.signals - {c})[own]; }
      if own in n.signals { assert n.signals[own] == (n.signals - {c})[own]; }
    }
  }

  lemma RunsAfter(s: State, n: State, r: nat, c: Claim)
    requires RunsConsistent(s) && r in s.runs && c.runId == r
    requires r in n.runs && n.runs == s.runs[r := n.runs[r]] && s.runs[r].tried <= n.runs[r].tried
    requires s.claims <= n.claims <= s.claims + {c} && (c in n.claims ==> c.key in n.runs[r].tried)
    requires s.lostConfirms <= n.lostConfirms && n.released <= s.released + {c}
    requires s.signals - {c} == n.signals - {c}
    requires RunConsistent(n, r, n.runs[r].phase)
    ensures RunsConsistent(n)
  {
    forall q <- n.runs ensures RunConsistent(n, q, n.runs[q].phase) {
      if q != r { OtherRun(s, n, q, s.runs[q].phase, c); }
    }
  }

  lemma HistoryAfter(s: State, n: State)
    requires HistoryConsistent(s)
    requires n.claims == s.claims && n.released == s.released && n.forced == s.forced
    requires n.signals.Keys == s.signals.Keys
    requires n.lostConfirms == s.lostConfirms || s.lostConfirms <= n.lostConfirms <= s.lostConfirms + s.signals.Keys
    requires forall c :: Current(n, c) <==> Current(s, c)
    ensures HistoryConsistent(n)
  {
  }

  // ---- one step ----

  lemma ClaimKeeps(s: State, r: nat, k: ClaimKey)
    requires Invariant(s) && Enabled(s, TryClaim(r, k))
    ensures Invariant(Next(s, TryClaim(r, k)))
  {
    var c, n := Claim(k, r), Next(s, TryClaim(r, k));
    if k in s.rows {
      RunsAfter(s, n, r, c);
      HistoryAfter(s, n);
    } else {
      assert c !in s.claims;
      RunsAfter(s, n, r, c);
      ClaimHistory(s, n, c);
      ClaimRows(s, n, c);
    }
  }

  lemma ClaimHistory(s: State, n: State, c: Claim)
    requires HistoryConsistent(s) && c !in s.claims && c.key !in s.rows
    requires n.claims == s.claims + {c} && n.rows == s.rows[c.key := Row(c.runId, None)]
    requires n.released == s.released && n.signals == s.signals && n.lostConfirms == s.lostConfirms && n.forced == s.forced
    ensures HistoryConsistent(n)
  {
    assert forall d :: Current(n, d) <==> d == c || Current(s, d);
  }

  lemma ClaimRows(s: State, n: State, c: Claim)
    requires RowsConsistent(s) && HistoryConsistent(s) && c !in s.claims
    requires n.claims == s.claims + {c} && n.rows == s.rows[c.key := Row(c.runId, None)]
    requires n.released == s.released && n.signals == s.signals
    ensures RowsConsistent(n)
  {
  }

  lemma ReleaseKeeps(s: State, r: nat, k: ClaimKey)
    requires Invariant(s) && r in s.runs && s.runs[r].phase == Failing(k)
    ensures Invariant(AfterRelease(InPhase(s, r, Idle), r, k))
  {
    hide HistoryConsistent;
    var c, n := Claim(k, r), AfterRelease(InPhase(s, r, Idle), r, k);
    assert RunConsistent(s, r, Failing(k));
    RunsAfter(s, n, r, c);
    if k in s.rows && s.rows[k] == Row(r, None) {
      assert c !in s.released;
      ReleaseHistory(s, n, c);
      ReleaseRows(s, n, c);
    } else {
      HistoryAfter(s, n);
    }
  }

  lemma ReleaseRows(s: State, n: State, c: Claim)
    requires RowsConsistent(s)
    requires n.released == s.released + {c} && n.rows == s.rows - {c.key} && n.claims == s.claims && n.signals == s.signals
    ensures RowsConsistent(n)
  {
  }

  lemma ReleaseHistory(s: State, n: State, c: Claim)
    requires HistoryConsistent(s) && Current(s, c) && (c in s.signals ==> c in s.lostConfirms)
    requires n.released == s.released + {c} && n.rows == s.rows - {c.key}
    requires n.claims == s.claims && n.signals == s.signals && n.lostConfirms == s.lostConfirms && n.forced == s.forced
    ensures HistoryConsistent(n)
  {
    assert forall d :: Current(n, d) <==> Current(s, d) && d != c;
  }

  lemma ForceKeeps(s: State, source: string, day: int)
    requires Invariant(s)
    ensures Invariant(Next(s, ForceDelete(source, day)))
  {
    var gone, n := ForceTargets(s.rows, source, day), Next(s, ForceDelete(source, day));
    assert forall c :: Current(n, c) <==> Current(s, c) && c.key !in gone;
    assert forall c :: c in n.forced <==> c in s.forced || (Current(s, c) && c.key in gone);
  }

  /** Both confirm outcomes: the write may or may not have been applied, and may be reported lost. */
  lemma ConfirmKeeps(s: State, n: State, r: nat, k: ClaimKey, signalId: int)
    requires Invariant(s) && r in s.runs && s.runs[r].phase == Emitted(k, signalId)
    requires r in n.runs && n.runs == s.runs[r := s.runs[r].(phase := n.runs[r].phase)]
    requires n.rows == s.rows || n.rows == Confirmed(s.rows, k, r, signalId)
    requires n.claims == s.claims && n.released == s.released && n.signals == s.signals && n.forced == s.forced
    requires || (n.runs[r].phase.Idle? && n.lostConfirms == s.lostConfirms)
             || (n.runs[r].phase == Failing(k) && n.lostConfirms == s.lostConfirms + {Claim(k, r)})
    ensures Invariant(n)
  {
    assert RunConsistent(s, r, Emitted(k, signalId));
    RunsAfter(s, n, r, Claim(k, r));
    assert forall c :: Current(n, c) <==> Current(s, c);
    HistoryAfter(s, n);
    ConfirmRows(s, n, r, k, signalId);
  }

  lemma ConfirmRows(s: State, n: State, r: nat, k: ClaimKey, signalId: int)
    requires RowsConsistent(s) && Claim(k, r) in s.signals && s.signals[Claim(k, r)] == signalId
    requires n.rows == s.rows || n.rows == Confirmed(s.rows, k, r, signalId)
    requires n.claims == s.claims && n.released == s.released && n.signals == s.signals
    ensures RowsConsistent(n)
  {
  }

  lemma IngestKeeps(s: State, r: nat, signalId: int)
    requires Invariant(s) && Enabled(s, IngestSucceeds(r, signalId))
    ensures Invariant(Next(s, IngestSucceeds(r, signalId)))
  {
    var k := s.runs[r].phase.key;
    var c, n := Claim(k, r), Next(s, IngestSucceeds(r, signalId));
    assert RunConsistent(s, r, Claimed(k));
    assert n.signals.Keys == s.signals.Keys + {c};
    RunsAfter(s, n, r, c);
    assert HistoryConsistent(n);
    assert RowsConsistent(n);
  }

  /** Steps that only move one run on. */
  lemma PhaseKeeps(s: State, e: Event)
    requires Invariant(s) && Enabled(s, e) && (e.Begin? || e.IngestFails? || e.Crash?)
    ensures Invariant(Next(s, e))
  {
    hide HistoryConsistent;
    var n := Next(s, e);
    if e.Begin? {
      assert forall c <- s.claims :: c.runId != e.runId;
    } else {
      assert RunConsistent(s, e.runId, s.runs[e.runId].phase);
      RunsAfter(s, n, e.runId, Claim(if e.IngestFails? then s.runs[e.runId].phase.key else ClaimKey("", "", 0), e.runId));
    }
    HistoryAfter(s, n);
  }

  lemma StepKeeps(s: State, e: Event)
    requires Invariant(s) && Enabled(s, e)
    ensures Invariant(Next(s, e))
  {
    hide Invariant, AfterRelease, Confirmed;
    match e {
      case Begin(r) => PhaseKeeps(s, e);
      case TryClaim(r, k) => ClaimKeeps(s, r, k);
      case IngestSucceeds(r, signalId) => IngestKeeps(s, r, signalId);
      case IngestFails(r) => PhaseKeeps(s, e);
      case ConfirmWrites(r) => ConfirmKeeps(s, Next(s, e), r, s.runs[r].phase.key, s.runs[r].phase.signalId);
      case ConfirmFails(r, applied) => ConfirmKeeps(s, Next(s, e), r, s.runs[r].phase.key, s.runs[r].phase.signalId);
      case ReleaseWrites(r) => ReleaseKeeps(s, r, s.runs[r].phase.key);
      case ReleaseFails(r, applied) =>
        if applied { ReleaseKeeps(s, r, s.runs[r].phase.key); } else { UnreleasedKeeps(s, r); }
      case Crash(r) => PhaseKeeps(s, e);
      case ForceDelete(source, day) => ForceKeeps(s, source, day);
    }
  }

  lemma UnreleasedKeeps(s: State, r: nat)
    requires Invariant(s) && r in s.runs && s.runs[r].phase.Failing?
    ensures Invariant(InPhase(s, r, Idle))
  {
    var n := InPhase(s, r, Idle);
    RunsAfter(s, n, r, Claim(s.runs[r].phase.key, r));
    HistoryAfter(s, n);
  }

  lemma {:induction false} RunKeeps(s: State, events: seq<Event>)
    requires Invariant(s) && IsRun(s, events)
    ensures Invariant(End(s, events))
    decreases |events|
  {
    if events != [] {
      StepKeeps(s, events[0]);
      RunKeeps(Next(s, events[0]), events[1..]);
    }
  }

  // ---- how many emissions ----

  /** The claims for a key whose success was lost: the confirm write failed and the row was released. */
  function LostSuccesses(s: State, key: ClaimKey): set<Claim> {
    Of(s.lostConfirms * s.released, key)
  }

  /** The claims for a key that succeeded and whose row a forced run removed. */
  function ForcedSuccesses(s: State, key: ClaimKey): set<Claim> {
    Of(s.forced * s.signals.Keys, key)
  }

  /** The claim that the table holds for the key has succeeded. */
  predicate CurrentSucceeded(s: State, key: ClaimKey) {
    key in s.rows && Claim(key, s.rows[key].runId) in s.signals
  }

  lemma SuccessesByFate(s: State, key: ClaimKey, c: Claim)
    requires HistoryConsistent(s)
    ensures c in Of(s.signals.Keys, key) <==>
            || c in LostSuccesses(s, key) || c in ForcedSuccesses(s, key)
            || (CurrentSucceeded(s, key) && c == Claim(key, s.rows[key].runId))
    ensures !(c in LostSuccesses(s, key) && c in ForcedSuccesses(s, key))
    ensures CurrentSucceeded(s, key) && c == Claim(key, s.rows[key].runId) ==>
              c !in LostSuccesses(s, key) && c !in ForcedSuccesses(s, key)
  {
    assert c in s.signals ==> c in s.claims;
    assert c == Claim(c.key, c.runId);
  }

  lemma EmissionCount(s: State, key: ClaimKey)
    requires Invariant(s)
    ensures Successes(s, key) == |LostSuccesses(s, key)| + |ForcedSuccesses(s, key)| + if CurrentSucceeded(s, key) then 1 else 0
  {
    forall c {
      SuccessesByFate(s, key, c);
    }
    hide HistoryConsistent, LostSuccesses, ForcedSuccesses, Of, RunsConsistent, RowsConsistent;
    var lost, forced := LostSuccesses(s, key), ForcedSuccesses(s, key);
    if CurrentSucceeded(s, key) {
      var current := Claim(key, s.rows[key].runId);
      assert Of(s.signals.Keys, key) == lost + forced + {current};
    } else {
      assert Of(s.signals.Keys, key) == lost + forced;
    }
  }

  /** Over every interleaving from the empty table, the successful emissions of a symbol on a day are
      counted exactly: one per failed confirm that was then released, one per success that a forced run
      deleted, and one if the claim now in the table has succeeded. A confirm write that raised after it
      was applied permits nothing. */
  lemma EmissionsAreCounted(events: seq<Event>, key: ClaimKey)
    requires IsRun(START, events)
    ensures var s := End(START, events);
            && Successes(s, key) == |LostSuccesses(s, key)| + |ForcedSuccesses(s, key)| + (if CurrentSucceeded(s, key) then 1 else 0)
            && (forall k <- s.rows :: s.rows[k].signalId.Some? ==>
                  Claim(k, s.rows[k].runId) in s.signals && s.signals[Claim(k, s.rows[k].runId)] == s.rows[k].signalId.value)
  {
    StartInvariant();
    RunKeeps(START, events);
    EmissionCount(End(START, events), key);
  }

  /** Without a forced deletion of the symbol, it was emitted at most once exactly when no success was
      lost, or one was and nothing has succeeded since. */
  lemma AtMostOneEmission(events: seq<Event>, key: ClaimKey)
    requires IsRun(START, events)
    requires Of(End(START, events).forced, key) == {}
    ensures var s := End(START, events);
            && (Successes(s, key) <= 1 <==>
                LostSuccesses(s, key) == {} || (|LostSuccesses(s, key)| == 1 && !CurrentSucceeded(s, key)))
            && (Of(s.lostConfirms, key) == {} ==> Successes(s, key) <= 1)
  {
    EmissionsAreCounted(events, key);
    var s := End(START, events);
    SubsetSize(ForcedSuccesses(s, key), Of(s.forced, key));
    SubsetSize(LostSuccesses(s, key), Of(s.lostConfirms, key));
  }

  lemma StartInvariant()
    ensures Invariant(START)
  {
  }

  /** The failed-confirm allowance is used up to the full: whenever a confirm write is lost and the
      claim released, the next run to reach the symbol emits it once more. */
  lemma LostConfirmEmitsAgain(s: State, k: ClaimKey, r: nat, again: nat, signalId: int)
    requires Invariant(s) && r in s.runs && s.runs[r].phase.Emitted? && s.runs[r].phase.key == k
    requires k in s.rows && s.rows[k] == Row(r, None)
    requires again in s.runs && s.runs[again].phase.Idle? && k !in s.runs[again].tried
    ensures var events := [ConfirmFails(r, false)] + ([ReleaseWrites(r)] + ([TryClaim(again, k)] + ([IngestSucceeds(again, signalId)] + [])));
            && IsRun(s, events)
            && Successes(End(s, events), k) == Successes(s, k) + 1 && Successes(s, k) >= 1
            && End(s, events).forced == s.forced
  {
    hide Invariant, IsRun, End;
    var s1 := Next(s, ConfirmFails(r, false));
    var s2 := Next(s1, ReleaseWrites(r));
    assert k !in s2.rows;
    var s3 := Next(s2, TryClaim(again, k));
    var s4 := Next(s3, IngestSucceeds(again, signalId));
    EmptyRun(s4);
    RunFromTo(s3, IngestSucceeds(again, signalId), []);
    RunFromTo(s2, TryClaim(again, k), [IngestSucceeds(again, signalId)] + []);
    RunFromTo(s1, ReleaseWrites(r), [TryClaim(again, k)] + ([IngestSucceeds(again, signalId)] + []));
    RunFromTo(s, ConfirmFails(r, false), [ReleaseWrites(r)] + ([TryClaim(again, k)] + ([IngestSucceeds(again, signalId)] + [])));
    assert s4.signals == s.signals[Claim(k, again) := signalId] && s4.forced == s.forced;
    OneMoreSuccess(s, k, r, again, signalId, s4);
  }

  lemma OneMoreSuccess(s: State, k: ClaimKey, r: nat, again: nat, signalId: int, n: State)
    requires Invariant(s) && r in s.runs && s.runs[r].phase.Emitted? && s.runs[r].phase.key == k
    requires again in s.runs && k !in s.runs[again].tried
    requires n.signals == s.signals[Claim(k, again) := signalId]
    ensures Successes(n, k) == Successes(s, k) + 1 && Successes(s, k) >= 1
  {
    assert RunConsistent(s, r, s.runs[r].phase);
    assert Claim(k, again) !in s.signals;
    assert n.signals.Keys == s.signals.Keys + {Claim(k, again)};
    OfAdd(s.signals.Keys, Claim(k, again));
    assert Claim(k, r) in Of(s.signals.Keys, k);
  }

  lemma EmptyRun(s: State)
    ensures IsRun(s, []) && End(s, []) == s
  {
  }

  lemma RunFromTo(s: State, e: Event, rest: seq<Event>)
    requires Enabled(s, e) && IsRun(Next(s, e), rest)
    ensures IsRun(s, [e] + rest) && End(s, [e] + rest) == End(Next(s, e), rest)
  {
    assert ([e] + rest)[1..] == rest;
  }

  // ---- fencing and crashes ----

  function Actor(e: Event): Option<nat> {
    match e
    case ForceDelete(_, _) => None
    case _ => Some(e.runId)
  }

  /** A run can change no row but its own: whatever it does, rows recorded for other runs stay as they
      are, even when its own claim was deleted and taken over. */
  lemma RunsAreFenced(s: State, e: Event, k: ClaimKey)
    requires Enabled(s, e) && k in s.rows && Actor(e).Some? && s.rows[k].runId != Actor(e).value
    ensures k in Next(s, e).rows && Next(s, e).rows[k] == s.rows[k]
  {
  }

  ghost predicate Forces(e: Event, k: ClaimKey) {
    e.ForceDelete? && k.source == e.source && k.day == e.day
  }

  /** Nothing but force can touch the row: its signal is recorded, or its run is dead. */
  predicate Settled(s: State, k: ClaimKey) {
    k in s.rows && (s.rows[k].signalId.Some? || (s.rows[k].runId in s.runs && s.runs[s.rows[k].runId].phase.Crashed?))
  }

  /** A recorded signal, or a claim that a crash left behind, stays until it is forced out, and while it
      stays, only a run that force had dispossessed can emit the symbol. */
  lemma {:induction false} SettledRowBlocks(s: State, events: seq<Event>, k: ClaimKey)
    requires Invariant(s) && IsRun(s, events) && Settled(s, k)
    requires forall e <- events :: !Forces(e, k)
    ensures var end := End(s, events);
            && k in end.rows && k in s.rows && end.rows[k] == s.rows[k] && Settled(end, k)
            && Of(end.signals.Keys, k) <= Of(s.signals.Keys, k) + Of(s.forced, k)
            && Of(end.forced, k) == Of(s.forced, k)
    decreases |events|
  {
    assert k in s.rows;
    if events != [] {
      hide Invariant, Settled, Of, Next, Enabled, Forces;
      StepKeeps(s, events[0]);
      SettledStep(s, events[0], k);
      SettledRowBlocks(Next(s, events[0]), events[1..], k);
    }
  }

  lemma SettledStep(s: State, e: Event, k: ClaimKey)
    requires Invariant(s) && Enabled(s, e) && Settled(s, k) && !Forces(e, k)
    ensures var next := Next(s, e);
            && k in next.rows && k in s.rows && next.rows[k] == s.rows[k] && Settled(next, k)
            && Of(next.signals.Keys, k) <= Of(s.signals.Keys, k) + Of(s.forced, k)
            && Of(next.forced, k) == Of(s.forced, k)
  {
    hide Invariant;
    SettledRowStep(s, e, k);
    if e.IngestSucceeds? {
      SettledSignalStep(s, e.runId, e.signalId, k);
    } else {
      assert Next(s, e).signals == s.signals;
    }
  }

  lemma SettledRowStep(s: State, e: Event, k: ClaimKey)
    requires Enabled(s, e) && Settled(s, k) && !Forces(e, k)
    ensures var next := Next(s, e);
            && Settled(next, k) && next.rows[k] == s.rows[k] && Of(next.forced, k) == Of(s.forced, k)
  {
    if !e.ForceDelete? {
      assert Next(s, e).forced == s.forced;
      if e.runId != s.rows[k].runId {
        RunsAreFenced(s, e, k);
        assert s.rows[k].runId in s.runs ==> Next(s, e).runs[s.rows[k].runId] == s.runs[s.rows[k].runId];
      }
    }
  }

  lemma SettledSignalStep(s: State, r: nat, signalId: int, k: ClaimKey)
    requires Invariant(s) && Enabled(s, IngestSucceeds(r, signalId)) && Settled(s, k)
    ensures Of(Next(s, IngestSucceeds(r, signalId)).signals.Keys, k) <= Of(s.signals.Keys, k) + Of(s.forced, k)
  {
    var c := Claim(s.runs[r].phase.key, r);
    assert Next(s, IngestSucceeds(r, signalId)).signals.Keys == s.signals.Keys + {c};
    assert RunConsistent(s, r, s.runs[r].phase);
    assert Current(s, c) || c in s.forced;
  }
}
