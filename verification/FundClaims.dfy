/** The emission claims of app/engine/fundsignal_loop.py: the table analysis.fundsignal_emitted with its
    four statements, one run's emission loop over it, and the protocol of concurrent runs. */
module FundClaims {
  import opened Options
  import opened Writes

  datatype ClaimKey = ClaimKey(symbol: string, source: string, day: int)

  datatype Row = Row(runId: nat, signalId: Option<int>)

  // ---- the statements ----

  /** INSERT .. ON CONFLICT DO NOTHING */
  function Inserted(rows: map<ClaimKey, Row>, key: ClaimKey, runId: nat): map<ClaimKey, Row> {
    if key in rows then rows else rows[key := Row(runId, None)]
  }

  /** UPDATE .. WHERE run_id = mine AND signal_id IS NULL */
  function Confirmed(rows: map<ClaimKey, Row>, key: ClaimKey, runId: nat, signalId: int): map<ClaimKey, Row> {
    if key in rows && rows[key] == Row(runId, None) then rows[key := Row(runId, Some(signalId))] else rows
  }

  /** DELETE .. WHERE run_id = mine AND signal_id IS NULL */
  function Released(rows: map<ClaimKey, Row>, key: ClaimKey, runId: nat): map<ClaimKey, Row> {
    if key in rows && rows[key] == Row(runId, None) then rows - {key} else rows
  }

  function ForceTargets(rows: map<ClaimKey, Row>, source: string, day: int): set<ClaimKey> {
    set k <- rows | k.source == source && k.day == day
  }

  // ---- one run ----

  datatype Emission = Accepted(signalId: int) | Failure | Rejected

  /** A scored symbol in symbol order, with what ingest will answer and what becomes of the writes. */
  datatype Candidate = Candidate(key: ClaimKey, score: real, claim: Write, emission: Emission, confirm: Write, release: Write)

  ghost predicate DistinctKeys(candidates: seq<Candidate>) {
    forall i, j :: 0 <= i < j < |candidates| ==> candidates[i].key != candidates[j].key
  }

  /** The loop reaches ingest for this candidate. */
  predicate Attempts(before: map<ClaimKey, Row>, c: Candidate, minConviction: real) {
    c.score >= minConviction && c.claim.Stored? && c.key !in before
  }

  predicate Sends(before: map<ClaimKey, Row>, c: Candidate, minConviction: real) {
    Attempts(before, c, minConviction) && c.emission.Accepted? && c.confirm.Stored?
  }

  /** An INSERT that raises, a rejection, or a confirm write that raises ends the loop. */
  predicate Stops(before: map<ClaimKey, Row>, c: Candidate, minConviction: real) {
    && c.score >= minConviction
    && (!c.claim.Stored? || (c.key !in before && (c.emission.Rejected? || (c.emission.Accepted? && !c.confirm.Stored?))))
  }

  /** The row a candidate leaves: the confirmed one; or the bare claim when the release fails, or when the
      INSERT was applied and then raised, which no release follows. */
  function Left(before: map<ClaimKey, Row>, c: Candidate, runId: nat, minConviction: real): Option<Row> {
    if c.score < minConviction || c.key in before || c.claim.Refused? then None
    else if c.claim.StoredThenRaised? then Some(Row(runId, None))
    else if c.emission.Accepted? && !c.confirm.Refused? then Some(Row(runId, Some(c.emission.signalId)))
    else if c.release.Refused? then Some(Row(runId, None))
    else None
  }

  /** The rows that the candidates leave. */
  function Traces(before: map<ClaimKey, Row>, candidates: seq<Candidate>, runId: nat, minConviction: real): map<ClaimKey, Row> {
    if candidates == [] then map[]
    else
      var c := candidates[|candidates| - 1];
      var earlier := Traces(before, candidates[..|candidates| - 1], runId, minConviction);
      var left := Left(before, c, runId, minConviction);
      if left.Some? then earlier[c.key := left.value] else earlier
  }

  function CountSent(before: map<ClaimKey, Row>, candidates: seq<Candidate>, minConviction: real): nat {
    if candidates == [] then 0
    else
      var c := candidates[|candidates| - 1];
      CountSent(before, candidates[..|candidates| - 1], minConviction)
      + if Sends(before, c, minConviction) then 1 else 0
  }

  /** Candidate by candidate: exactly those that leave a row are traced, with that row. */
  lemma {:induction false} TracesAre(before: map<ClaimKey, Row>, candidates: seq<Candidate>, runId: nat, minConviction: real)
    requires DistinctKeys(candidates)
    ensures var traces := Traces(before, candidates, runId, minConviction);
            && (forall k <- traces :: k !in before && exists i :: 0 <= i < |candidates| && candidates[i].key == k)
            && (forall i :: 0 <= i < |candidates| ==>
                  var left := Left(before, candidates[i], runId, minConviction);
                  if left.Some? then candidates[i].key in traces && traces[candidates[i].key] == left.value
                  else candidates[i].key !in traces)
  {
    if candidates != [] {
      var last := |candidates| - 1;
      TracesAre(before, candidates[..last], runId, minConviction);
      forall i | 0 <= i < last ensures candidates[i] == candidates[..last][i] && candidates[i].key != candidates[last].key { }
    }
  }

  /** In terms of the answers and the writes: a candidate below the threshold or already in the table
      leaves nothing; one that is accepted and confirmed leaves its signal, whatever the release would do. */
  lemma TracesMean(before: map<ClaimKey, Row>, candidates: seq<Candidate>, runId: nat, minConviction: real, i: nat)
    requires DistinctKeys(candidates) && i < |candidates|
    ensures var traces, c := Traces(before, candidates, runId, minConviction), candidates[i];
            && (c.score < minConviction || c.key in before || c.claim.Refused? ==> c.key !in traces)
            && (c.score >= minConviction && c.key !in before && c.claim.StoredThenRaised? ==>
                  c.key in traces && traces[c.key] == Row(runId, None))
            && (c.score >= minConviction && c.key !in before && c.claim.Stored? ==>
                  if c.emission.Accepted? && !c.confirm.Refused? then
                    c.key in traces && traces[c.key] == Row(runId, Some(c.emission.signalId))
                  else if c.release.Refused? then c.key in traces && traces[c.key] == Row(runId, None)
                  else c.key !in traces)
  {
    TracesAre(before, candidates, runId, minConviction);
  }

  /** What a run emitted and confirmed, a later run over the table does not attempt. */
  lemma NextRunSkips(before: map<ClaimKey, Row>, candidates: seq<Candidate>, runId: nat, minConviction: real, i: nat,
                     after: map<ClaimKey, Row>, again: Candidate, minAgain: real)
    requires DistinctKeys(candidates) && i < |candidates| && after == before + Traces(before, candidates, runId, minConviction)
    requires candidates[i].score >= minConviction && candidates[i].claim.Stored?
    requires candidates[i].emission.Accepted? && !candidates[i].confirm.Refused? && again.key == candidates[i].key
    ensures again.key in after && !Attempts(after, again, minAgain) && !Sends(after, again, minAgain) && Left(after, again, runId, minAgain) == None
  {
    TracesMean(before, candidates, runId, minConviction, i);
  }

  /** No claim is left open unless a release write failed or an INSERT was applied and then raised. */
  lemma NoOpenClaim(before: map<ClaimKey, Row>, candidates: seq<Candidate>, runId: nat, minConviction: real)
    requires DistinctKeys(candidates) && forall c <- candidates :: !c.release.Refused? && !c.claim.StoredThenRaised?
    ensures var traces := Traces(before, candidates, runId, minConviction);
            forall k <- traces :: traces[k].signalId.Some?
  {
    TracesAre(before, candidates, runId, minConviction);
    var traces := Traces(before, candidates, runId, minConviction);
    forall k <- traces ensures traces[k].signalId.Some? {
      var i :| 0 <= i < |candidates| && candidates[i].key == k;
      assert candidates[i] in candidates;
    }
  }

  lemma TracesAreElsewhere(before: map<ClaimKey, Row>, candidates: seq<Candidate>, i: nat, runId: nat, minConviction: real)
    requires DistinctKeys(candidates) && i < |candidates|
    ensures candidates[i].key !in Traces(before, candidates[..i], runId, minConviction)
  {
    TracesAre(before, candidates[..i], runId, minConviction);
  }

  lemma LastCandidate(before: map<ClaimKey, Row>, candidates: seq<Candidate>, i: nat, runId: nat, minConviction: real)
    requires DistinctKeys(candidates) && i < |candidates|
    ensures var c, earlier := candidates[i], Traces(before, candidates[..i], runId, minConviction);
            var left := Left(before, c, runId, minConviction);
            && (c.key in before + earlier <==> c.key in before)
            && before + Traces(before, candidates[..i + 1], runId, minConviction)
               == (if left.Some? then (before + earlier)[c.key := left.value] else before + earlier)
            && CountSent(before, candidates[..i + 1], minConviction) == CountSent(before, candidates[..i], minConviction)
               + if Sends(before, c, minConviction) then 1 else 0
  {
    hide Left, Sends;
    var earlier, c := Traces(before, candidates[..i], runId, minConviction), candidates[i];
    TracesAreElsewhere(before, candidates, i, runId, minConviction);
    assert candidates[..i + 1][..i] == candidates[..i];
    assert candidates[..i + 1][i] == candidates[i];
    var left := Left(before, c, runId, minConviction);
    Overlay(before, earlier, c.key, if left.Some? then left.value else Row(runId, None));
  }

  /** What a candidate does depends on the table only through the presence of its key. */
  lemma SameFate(a: map<ClaimKey, Row>, b: map<ClaimKey, Row>, c: Candidate, runId: nat, minConviction: real)
    requires c.key in a <==> c.key in b
    ensures Attempts(a, c, minConviction) == Attempts(b, c, minConviction) && Sends(a, c, minConviction) == Sends(b, c, minConviction)
    ensures Stops(a, c, minConviction) == Stops(b, c, minConviction)
    ensures Left(a, c, runId, minConviction) == Left(b, c, runId, minConviction)
  {
  }

  lemma Overlay(before: map<ClaimKey, Row>, earlier: map<ClaimKey, Row>, key: ClaimKey, row: Row)
    requires key !in earlier
    ensures before + earlier[key := row] == (before + earlier)[key := row]
    ensures key in before + earlier <==> key in before
  {
  }

  /** Aborted means that an exception leaves the loop; `reached` tells whether ingest was called. */
  datatype Result = Skipped | Sent | NotSent | Aborted(reached: bool)

  class EmittedTable {
    var rows: map<ClaimKey, Row>

    constructor ()
      ensures rows == map[]
    {
      rows := map[];
    }

    method TakeClaim(key: ClaimKey, runId: nat) returns (won: bool)
      modifies this
      ensures rows == Inserted(old(rows), key, runId) && (won <==> key !in old(rows))
      ensures if won then rows == old(rows)[key := Row(runId, None)] else rows == old(rows)
    {
      won := key !in rows;
      if won {
        rows := rows[key := Row(runId, None)];
      }
    }

    method Confirm(key: ClaimKey, runId: nat, signalId: int)
      modifies this
      ensures rows == Confirmed(old(rows), key, runId, signalId)
      ensures if key in old(rows) && old(rows)[key].runId == runId && old(rows)[key].signalId == None
              then rows == old(rows)[key := Row(runId, Some(signalId))] else rows == old(rows)
    {
      if key in rows && rows[key].runId == runId && rows[key].signalId.None? {
        rows := rows[key := Row(runId, Some(signalId))];
      }
    }

    method Release(key: ClaimKey, runId: nat)
      modifies this
      ensures rows == Released(old(rows), key, runId)
      ensures if key in old(rows) && old(rows)[key].runId == runId && old(rows)[key].signalId == None
              then rows == old(rows) - {key} else rows == old(rows)
    {
      if key in rows && rows[key].runId == runId && rows[key].signalId.None? {
        rows := rows - {key};
      }
    }

    /** The INSERT: whether it won the claim, and whether it raised. */
    method TryTakeClaim(c: Candidate, runId: nat) returns (won: bool, raised: bool)
      modifies this
      ensures rows == (if c.claim.Refused? then old(rows) else Inserted(old(rows), c.key, runId))
      ensures raised == !c.claim.Stored? && (!raised ==> (won <==> c.key !in old(rows)))
    {
      won := false;
      if !c.claim.Refused? {
        won := TakeClaim(c.key, runId);
      }
      raised := !c.claim.Stored?;
    }

    /** One UPDATE of a claim and whether it raised. */
    method TryConfirm(c: Candidate, runId: nat, signalId: int) returns (raised: bool)
      modifies this
      ensures rows == (if c.confirm.Refused? then old(rows) else Confirmed(old(rows), c.key, runId, signalId))
      ensures raised == !c.confirm.Stored?
    {
      if !c.confirm.Refused? {
        Confirm(c.key, runId, signalId);
      }
      raised := !c.confirm.Stored?;
    }

    /** _release_claim: an error is logged and swallowed. */
    method TryRelease(c: Candidate, runId: nat)
      modifies this
      ensures rows == (if c.release.Refused? then old(rows) else Released(old(rows), c.key, runId))
    {
      if !c.release.Refused? {
        Release(c.key, runId);
      }
    }

    /** One symbol: claim it, emit it, then confirm the claim or, in the finally clause, release it. */
    method EmitOne(c: Candidate, runId: nat, minConviction: real) returns (result: Result)
      modifies this
      ensures result == if Stops(old(rows), c, minConviction) then Aborted(Attempts(old(rows), c, minConviction))
                        else if !Attempts(old(rows), c, minConviction) then Skipped
                        else if c.emission.Accepted? then Sent else NotSent
      ensures var left := Left(old(rows), c, runId, minConviction);
              rows == if left.Some? then old(rows)[c.key := left.value] else old(rows)
      ensures c.score < minConviction || (c.claim.Stored? && c.key in old(rows)) ==> result == Skipped && rows == old(rows)
      ensures c.score >= minConviction && c.key !in old(rows) && c.claim.Stored? ==>
                (match c.emission
                 case Accepted(signalId) =>
                   if c.confirm.Stored? then result == Sent && rows == old(rows)[c.key := Row(runId, Some(signalId))]
                   else
                     && result == Aborted(true)
                     && rows == (if c.confirm.StoredThenRaised? then old(rows)[c.key := Row(runId, Some(signalId))]
                                 else if c.release.Refused? then old(rows)[c.key := Row(runId, None)]
                                 else old(rows))
                 case _ =>
                   && result == (if c.emission.Failure? then NotSent else Aborted(true))
                   && rows == if c.release.Refused? then old(rows)[c.key := Row(runId, None)] else old(rows))
      ensures c.score >= minConviction && !c.claim.Stored? ==>
                && result == Aborted(false)
                && rows == if c.claim.StoredThenRaised? && c.key !in old(rows) then old(rows)[c.key := Row(runId, None)] else old(rows)
    {
      if c.score < minConviction {
        return Skipped;
      }
      var won, raised := TryTakeClaim(c, runId);
      if raised {
        return Aborted(false);
      }
      if !won {
        return Skipped;
      }
      var confirmed := false;
      if c.emission.Accepted? {
        raised := TryConfirm(c, runId, c.emission.signalId);
        confirmed := !raised;
      }
      if !confirmed {
        TryRelease(c, runId);
      }
      result := if confirmed then Sent else if c.emission.Failure? then NotSent else Aborted(true);
    }

    /** One run's loop, undisturbed: `stop` is where a rejection or a raising write ended it. Afterwards
        the table holds what it held plus what each candidate up to there leaves. */
    method EmitAll(candidates: seq<Candidate>, runId: nat, minConviction: real)
      returns (stop: nat, attempted: nat, emitted: nat, failed: nat)
      requires DistinctKeys(candidates)
      modifies this
      ensures stop <= |candidates|
      ensures forall i :: 0 <= i < stop ==> !Stops(old(rows), candidates[i], minConviction)
      ensures stop < |candidates| ==> Stops(old(rows), candidates[stop], minConviction)
      ensures rows == old(rows) + Traces(old(rows), if stop < |candidates| then candidates[..stop + 1] else candidates, runId, minConviction)
      ensures emitted == CountSent(old(rows), candidates[..stop], minConviction)
      ensures attempted == emitted + failed
                           + if stop < |candidates| && Attempts(old(rows), candidates[stop], minConviction) then 1 else 0
    {
      attempted, emitted, failed := 0, 0, 0;
      ghost var before := rows;
      assert candidates[..0] == [] && Traces(before, [], runId, minConviction) == map[] && CountSent(before, [], minConviction) == 0;
      hide Traces, CountSent, Left, Stops;
      for i := 0 to |candidates|
        invariant forall j :: 0 <= j < i ==> !Stops(before, candidates[j], minConviction)
        invariant rows == before + Traces(before, candidates[..i], runId, minConviction)
        invariant emitted == CountSent(before, candidates[..i], minConviction)
        invariant attempted == emitted + failed
      {
        var c := candidates[i];
        LastCandidate(before, candidates, i, runId, minConviction);
        SameFate(rows, before, c, runId, minConviction);
        if !Stops(before, c, minConviction) { SentOrNot(before, c, minConviction); }
        var result := EmitOne(c, runId, minConviction);
        match result {
          case Skipped =>
          case Sent =>
            attempted, emitted := attempted + 1, emitted + 1;
          case NotSent =>
            attempted, failed := attempted + 1, failed + 1;
          case Aborted(reached) =>
            if reached {
              attempted := attempted + 1;
            }
            return i, attempted, emitted, failed;
        }
      }
      stop := |candidates|;
      assert candidates[..stop] == candidates;
    }
  }

  lemma SentOrNot(before: map<ClaimKey, Row>, c: Candidate, minConviction: real)
    requires !Stops(before, c, minConviction)
    ensures Sends(before, c, minConviction) <==> Attempts(before, c, minConviction) && c.emission.Accepted?
  {
  }

  // ---- concurrent runs ----

  datatype Phase = Idle | Claimed(key: ClaimKey) | Emitted(key: ClaimKey, signalId: int) | Failing(key: ClaimKey) | Crashed

  /** A run tries each of its symbols at most once. */
  datatype Run = Run(tried: set<ClaimKey>, phase: Phase)

  datatype Claim = Claim(key: ClaimKey, runId: nat)

  /** The table, the runs, and the history: every claim won, every claim whose release removed its row,
      the signal each successful IngestSignal returned, the claims whose confirm write failed, and the
      claims whose row was removed by force. */
  datatype State = State(
    rows: map<ClaimKey, Row>,
    runs: map<nat, Run>,
    claims: set<Claim>,
    released: set<Claim>,
    signals: map<Claim, int>,
    lostConfirms: set<Claim>,
    forced: set<Claim>)

  const START := State(map[], map[], {}, {}, map[], {}, {})

  /** `applied` tells whether a statement that reported an error took effect. An INSERT that raises ends
      its run: applied, it is a TryClaim and then a Crash; not applied, a Crash. */
  datatype Event =
    | Begin(runId: nat)
    | TryClaim(runId: nat, target: ClaimKey)
    | IngestSucceeds(runId: nat, signalId: int)
    | IngestFails(runId: nat)
    | ConfirmWrites(runId: nat)
    | ConfirmFails(runId: nat, applied: bool)
    | ReleaseWrites(runId: nat)
    | ReleaseFails(runId: nat, applied: bool)
    | Crash(runId: nat)
    | ForceDelete(source: string, day: int)

  predicate Enabled(s: State, e: Event) {
    match e
    case Begin(r) => r !in s.runs
    case TryClaim(r, k) => r in s.runs && s.runs[r].phase.Idle? && k !in s.runs[r].tried
    case IngestSucceeds(r, _) => r in s.runs && s.runs[r].phase.Claimed?
    case IngestFails(r) => r in s.runs && s.runs[r].phase.Claimed?
    case ConfirmWrites(r) => r in s.runs && s.runs[r].phase.Emitted?
    case ConfirmFails(r, _) => r in s.runs && s.runs[r].phase.Emitted?
    case ReleaseWrites(r) => r in s.runs && s.runs[r].phase.Failing?
    case ReleaseFails(r, _) => r in s.runs && s.runs[r].phase.Failing?
    case Crash(r) => r in s.runs
    case ForceDelete(_, _) => true
  }

  function InPhase(s: State, r: nat, phase: Phase): State
    requires r in s.runs
  {
    s.(runs := s.runs[r := s.runs[r].(phase := phase)])
  }

  function AfterRelease(s: State, r: nat, k: ClaimKey): State {
    s.(rows := Released(s.rows, k, r),
       released := if k in s.rows && s.rows[k] == Row(r, None) then s.released + {Claim(k, r)} else s.released)
  }

  function Next(s: State, e: Event): State
    requires Enabled(s, e)
  {
    match e
    case Begin(r) => s.(runs := s.runs[r := Run({}, Idle)])
    case TryClaim(r, k) =>
      var run := s.runs[r].(tried := s.runs[r].tried + {k});
      if k in s.rows then s.(runs := s.runs[r := run])
      else s.(rows := Inserted(s.rows, k, r), runs := s.runs[r := run.(phase := Claimed(k))], claims := s.claims + {Claim(k, r)})
    case IngestSucceeds(r, signalId) =>
      var k := s.runs[r].phase.key;
      InPhase(s, r, Emitted(k, signalId)).(signals := s.signals[Claim(k, r) := signalId])
    case IngestFails(r) => InPhase(s, r, Failing(s.runs[r].phase.key))
    case ConfirmWrites(r) =>
      var Emitted(k, signalId) := s.runs[r].phase;
      InPhase(s, r, Idle).(rows := Confirmed(s.rows, k, r, signalId))
    case ConfirmFails(r, applied) =>
      var Emitted(k, signalId) := s.runs[r].phase;
      InPhase(s, r, Failing(k)).(rows := if applied then Confirmed(s.rows, k, r, signalId) else s.rows,
                                 lostConfirms := s.lostConfirms + {Claim(k, r)})
    case ReleaseWrites(r) => AfterRelease(InPhase(s, r, Idle), r, s.runs[r].phase.key)
    case ReleaseFails(r, applied) =>
      if applied then AfterRelease(InPhase(s, r, Idle), r, s.runs[r].phase.key) else InPhase(s, r, Idle)
    case Crash(r) => InPhase(s, r, Crashed)
    case ForceDelete(source, day) =>
      var gone := ForceTargets(s.rows, source, day);
      s.(rows := s.rows - gone, forced := s.forced + set k <- gone :: Claim(k, s.rows[k].runId))
  }

  predicate IsRun(s: State, events: seq<Event>)
    decreases |events|
  {
    events == [] || (Enabled(s, events[0]) && IsRun(Next(s, events[0]), events[1..]))
  }

  function End(s: State, events: seq<Event>): State
    requires IsRun(s, events)
    decreases |events|
  {
    if events == [] then s else End(Next(s, events[0]), events[1..])
  }
}
