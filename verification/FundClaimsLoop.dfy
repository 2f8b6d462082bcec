/** One run's emission loop is a run of the protocol: the same rows, by the protocol's own events. */
module FundClaimsLoop {
  import opened Options
  import opened Writes
  import opened FundClaims

  /** Giving an unconfirmed claim back in the finally clause. */
  function ReleaseEvents(c: Candidate, r: nat): seq<Event> {
    if c.release.Stored? then [ReleaseWrites(r)] else [ReleaseFails(r, c.release.StoredThenRaised?)]
  }

  /** After a won claim: ingest answers, then the confirm or the release. */
  function AnswerEvents(c: Candidate, r: nat): seq<Event> {
    match c.emission
    case Accepted(signalId) =>
      [IngestSucceeds(r, signalId)]
      + (if c.confirm.Stored? then [ConfirmWrites(r)] else [ConfirmFails(r, c.confirm.StoredThenRaised?)] + ReleaseEvents(c, r))
    case _ => [IngestFails(r)] + ReleaseEvents(c, r)
  }

  /** What run `r` does for one symbol on a table that holds it already or not. */
  function SymbolEvents(known: bool, c: Candidate, r: nat, minConviction: real): seq<Event> {
    if c.score < minConviction then []
    else
      match c.claim
      case Refused => [Crash(r)]
      case StoredThenRaised => [TryClaim(r, c.key), Crash(r)]
      case Stored => if known then [TryClaim(r, c.key)] else [TryClaim(r, c.key)] + AnswerEvents(c, r)
  }

  lemma {:induction false} RunConcat(s: State, a: seq<Event>, b: seq<Event>)
    requires IsRun(s, a) && IsRun(End(s, a), b)
    ensures IsRun(s, a + b) && End(s, a + b) == End(End(s, a), b)
    decreases |a|
  {
    hide Enabled, Next;
    if a == [] {
      assert a + b == b;
    } else {
      assert (a + b)[1..] == a[1..] + b;
      RunConcat(Next(s, a[0]), a[1..], b);
    }
  }

  lemma OneEvent(s: State, e: Event)
    requires Enabled(s, e)
    ensures IsRun(s, [e]) && End(s, [e]) == Next(s, e)
  {
    hide Enabled, Next;
    assert [e][1..] == [];
    assert IsRun(Next(s, e), []) && End(Next(s, e), []) == Next(s, e);
  }

  lemma NoEvent(s: State)
    ensures IsRun(s, []) && End(s, []) == s
  {
  }

  lemma ReleaseRun(s: State, c: Candidate, r: nat)
    requires r in s.runs && s.runs[r].phase == Failing(c.key)
    ensures IsRun(s, ReleaseEvents(c, r))
    ensures var end := End(s, ReleaseEvents(c, r));
            && end.rows == (if c.release.Refused? || c.key !in s.rows || s.rows[c.key] != Row(r, None) then s.rows else s.rows - {c.key})
            && end.runs == s.runs[r := s.runs[r].(phase := Idle)] && end.signals == s.signals && end.claims == s.claims
  {
    hide IsRun, End;
    OneEvent(s, if c.release.Stored? then ReleaseWrites(r) else ReleaseFails(r, c.release.StoredThenRaised?));
  }

  /** From a won claim on: the confirmed row, the bare claim, or none, and the run idle again. */
  lemma AnswerRun(s: State, c: Candidate, r: nat)
    requires r in s.runs && s.runs[r].phase == Claimed(c.key) && c.key in s.rows && s.rows[c.key] == Row(r, None)
    ensures IsRun(s, AnswerEvents(c, r))
    ensures var end := End(s, AnswerEvents(c, r));
            && end.runs == s.runs[r := s.runs[r].(phase := Idle)]
            && end.rows == (if c.emission.Accepted? && !c.confirm.Refused? then s.rows[c.key := Row(r, Some(c.emission.signalId))]
                            else if c.release.Refused? then s.rows
                            else s.rows - {c.key})
            && end.signals == (if c.emission.Accepted? then s.signals[Claim(c.key, r) := c.emission.signalId] else s.signals)
  {
    hide IsRun, End;
    match c.emission {
      case Accepted(signalId) =>
        var e := IngestSucceeds(r, signalId);
        var sent := Next(s, e);
        OneEvent(s, e);
        if c.confirm.Stored? {
          OneEvent(sent, ConfirmWrites(r));
          RunConcat(s, [e], [ConfirmWrites(r)]);
        } else {
          var fails := ConfirmFails(r, c.confirm.StoredThenRaised?);
          var failing := Next(sent, fails);
          OneEvent(sent, fails);
          ReleaseRun(failing, c, r);
          RunConcat(sent, [fails], ReleaseEvents(c, r));
          RunConcat(s, [e], [fails] + ReleaseEvents(c, r));
        }
      case _ =>
        OneEvent(s, IngestFails(r));
        ReleaseRun(Next(s, IngestFails(r)), c, r);
        RunConcat(s, [IngestFails(r)], ReleaseEvents(c, r));
    }
  }

  /** The protocol's table after what the run does for one symbol is what the loop leaves; the run is idle
      unless the INSERT raised. */
  lemma SymbolRun(s: State, c: Candidate, r: nat, minConviction: real)
    requires r in s.runs && s.runs[r].phase == Idle && c.key !in s.runs[r].tried
    ensures var events := SymbolEvents(c.key in s.rows, c, r, minConviction);
            && IsRun(s, events)
            && var end, left := End(s, events), Left(s.rows, c, r, minConviction);
            && end.rows == (if left.Some? then s.rows[c.key := left.value] else s.rows)
            && r in end.runs && end.runs[r].tried <= s.runs[r].tried + {c.key}
            && end.runs[r].phase == (if c.score >= minConviction && !c.claim.Stored? then Crashed else Idle)
            && end.signals == (if Attempts(s.rows, c, minConviction) && c.emission.Accepted?
                               then s.signals[Claim(c.key, r) := c.emission.signalId] else s.signals)
  {
    hide IsRun, End;
    var take := TryClaim(r, c.key);
    if c.score < minConviction {
      NoEvent(s);
    } else if c.claim.Refused? {
      OneEvent(s, Crash(r));
    } else {
      var claimed := Next(s, take);
      OneEvent(s, take);
      if c.claim.StoredThenRaised? {
        OneEvent(claimed, Crash(r));
        RunConcat(s, [take], [Crash(r)]);
        assert [take] + [Crash(r)] == [take, Crash(r)];
      } else if c.key !in s.rows {
        AnswerRun(claimed, c, r);
        RunConcat(s, [take], AnswerEvents(c, r));
        assert (s.rows[c.key := Row(r, None)]) - {c.key} == s.rows;
      }
    }
  }

  /** The whole loop, up to what ends it. */
  function LoopEvents(before: map<ClaimKey, Row>, candidates: seq<Candidate>, r: nat, minConviction: real): seq<Event>
    decreases |candidates|
  {
    if candidates == [] then []
    else
      var c := candidates[0];
      var left := Left(before, c, r, minConviction);
      SymbolEvents(c.key in before, c, r, minConviction)
      + if Stops(before, c, minConviction) then []
        else LoopEvents(if left.Some? then before[c.key := left.value] else before, candidates[1..], r, minConviction)
  }

  /** The table after the loop, candidate by candidate. */
  function LoopRows(before: map<ClaimKey, Row>, candidates: seq<Candidate>, r: nat, minConviction: real): map<ClaimKey, Row>
    decreases |candidates|
  {
    if candidates == [] then before
    else
      var c := candidates[0];
      var left := Left(before, c, r, minConviction);
      var after := if left.Some? then before[c.key := left.value] else before;
      if Stops(before, c, minConviction) then after else LoopRows(after, candidates[1..], r, minConviction)
  }

  /** The undisturbed loop of a run is a run of the protocol to the same table. */
  lemma {:induction false} LoopIsProtocol(s: State, candidates: seq<Candidate>, r: nat, minConviction: real)
    requires DistinctKeys(candidates) && r in s.runs && s.runs[r].phase == Idle
    requires forall c <- candidates :: c.key !in s.runs[r].tried
    ensures var events := LoopEvents(s.rows, candidates, r, minConviction);
            IsRun(s, events) && End(s, events).rows == LoopRows(s.rows, candidates, r, minConviction)
    decreases |candidates|
  {
    hide SymbolEvents, Left, IsRun, End;
    NoEvent(s);
    if candidates != [] {
      var c, rest := candidates[0], candidates[1..];
      assert c in candidates;
      SymbolRun(s, c, r, minConviction);
      var events := SymbolEvents(c.key in s.rows, c, r, minConviction);
      var next := End(s, events);
      NoEvent(next);
      if Stops(s.rows, c, minConviction) {
        RunConcat(s, events, []);
      } else {
        forall d <- rest ensures d.key !in next.runs[r].tried {
          var i :| 0 <= i < |rest| && rest[i] == d;
          assert candidates[i + 1] == d && candidates[0].key != candidates[i + 1].key;
          assert d in candidates;
        }
        LoopIsProtocol(next, rest, r, minConviction);
        RunConcat(s, events, LoopEvents(next.rows, rest, r, minConviction));
      }
    }
  }

  /** The loop's table is what it held plus the traces of the candidates up to the one that ends it. */
  lemma {:induction false} LoopLeavesTraces(before: map<ClaimKey, Row>, candidates: seq<Candidate>, stop: nat, r: nat, minConviction: real, from: nat)
    requires DistinctKeys(candidates) && from <= stop <= |candidates|
    requires forall i :: 0 <= i < stop ==> !Stops(before, candidates[i], minConviction)
    requires stop < |candidates| ==> Stops(before, candidates[stop], minConviction)
    ensures LoopRows(before + Traces(before, candidates[..from], r, minConviction), candidates[from..], r, minConviction)
         == before + Traces(before, if stop < |candidates| then candidates[..stop + 1] else candidates, r, minConviction)
    decreases stop - from
  {
    hide Left, Stops, Traces;
    var table := before + Traces(before, candidates[..from], r, minConviction);
    if from == |candidates| {
      assert candidates[..from] == candidates && candidates[from..] == [];
    } else {
      var c := candidates[from];
      assert candidates[from..][0] == c && candidates[from..][1..] == candidates[from + 1..];
      LastCandidate(before, candidates, from, r, minConviction);
      SameFate(table, before, c, r, minConviction);
      if from < stop {
        LoopLeavesTraces(before, candidates, stop, r, minConviction, from + 1);
      }
    }
  }

  /** So what the loop method leaves is what the protocol's events leave. */
  lemma EmitAllIsProtocol(s: State, candidates: seq<Candidate>, stop: nat, r: nat, minConviction: real)
    requires DistinctKeys(candidates) && stop <= |candidates| && r in s.runs && s.runs[r].phase == Idle
    requires forall c <- candidates :: c.key !in s.runs[r].tried
    requires forall i :: 0 <= i < stop ==> !Stops(s.rows, candidates[i], minConviction)
    requires stop < |candidates| ==> Stops(s.rows, candidates[stop], minConviction)
    ensures var events := LoopEvents(s.rows, candidates, r, minConviction);
            && IsRun(s, events)
            && End(s, events).rows
               == s.rows + Traces(s.rows, if stop < |candidates| then candidates[..stop + 1] else candidates, r, minConviction)
  {
    LoopIsProtocol(s, candidates, r, minConviction);
    LoopLeavesTraces(s.rows, candidates, stop, r, minConviction, 0);
    assert candidates[..0] == [] && candidates[0..] == candidates;
    assert s.rows + Traces(s.rows, [], r, minConviction) == s.rows;
  }

  // ---- what the protocol's statements do ----

  /** A forced deletion removes exactly the rows of its source and day. */
  lemma ForceDeletesItsDay(s: State, source: string, day: int, k: ClaimKey)
    ensures var next := Next(s, ForceDelete(source, day));
            && (k in next.rows <==> k in s.rows && !(k.source == source && k.day == day))
            && (k in next.rows ==> next.rows[k] == s.rows[k])
  {
  }
}
