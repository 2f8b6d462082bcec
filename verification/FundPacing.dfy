/** The daily symbol cap and the budgeted fetch of app/engine/fundsignal_loop.py. */
module FundPacing {
  import opened Options

  /** `day` is today's ordinal. */
  function ApplySymbolCap(deduped: seq<string>, maxSymbols: nat, provider: string, day: nat): seq<string> {
    if provider !in {"fmp", ""} || |deduped| <= maxSymbols then deduped
    else
      var offset := day % |deduped|;
      (deduped[offset..] + deduped[..offset])[..maxSymbols]
  }

  /** What ingesting one chunk yields: the symbols that came back, or None when the call raises. */
  type Reply = (nat, seq<string>) -> Option<seq<string>>

  datatype Fetch = Fetch(fetched: set<string>, sent: seq<string>, failed: seq<string>, deferred: seq<string>, calls: nat)

  function Take(symbols: seq<string>, size: nat): seq<string> {
    if |symbols| <= size then symbols else symbols[..size]
  }

  function Drop(symbols: seq<string>, size: nat): seq<string> {
    if |symbols| <= size then [] else symbols[size..]
  }

  /** One call's chunk goes to the sent or to the failed symbols. */
  function Settle(chunk: seq<string>, answer: Option<seq<string>>, rest: Fetch): Fetch {
    match answer
    case Some(returned) =>
      Fetch((set s <- returned) + rest.fetched, chunk + rest.sent, rest.failed, rest.deferred, rest.calls + 1)
    case None =>
      Fetch(rest.fetched, rest.sent, chunk + rest.failed, rest.deferred, rest.calls + 1)
  }

  /** The calls from number `call` on, with `budget` calls left. */
  function FetchFrom(symbols: seq<string>, budget: nat, chunkSize: nat, reply: Reply, call: nat): Fetch
    requires chunkSize >= 1
    decreases |symbols|
  {
    if symbols == [] || budget == 0 then Fetch({}, [], [], symbols, 0)
    else
      var chunk := Take(symbols, chunkSize);
      Settle(chunk, reply(call, chunk), FetchFrom(Drop(symbols, chunkSize), budget - 1, chunkSize, reply, call + 1))
  }

  /** What was gathered so far, joined with what the remaining calls gather. */
  function Join(sofar: Fetch, rest: Fetch): Fetch {
    Fetch(sofar.fetched + rest.fetched, sofar.sent + rest.sent, sofar.failed + rest.failed, rest.deferred, sofar.calls + rest.calls)
  }

  /** One call settled onto what was gathered so far, then the calls after it. */
  lemma JoinStep(sofar: Fetch, next: Fetch, left: seq<string>, budget: nat, chunkSize: nat, reply: Reply)
    requires chunkSize >= 1 && left != [] && budget > 0
    requires var chunk := Take(left, chunkSize);
             next == match reply(sofar.calls, chunk)
                     case Some(returned) =>
                       sofar.(fetched := sofar.fetched + (set s <- returned), sent := sofar.sent + chunk, calls := sofar.calls + 1)
                     case None =>
                       sofar.(failed := sofar.failed + chunk, calls := sofar.calls + 1)
    ensures Join(sofar, FetchFrom(left, budget, chunkSize, reply, sofar.calls))
         == Join(next, FetchFrom(Drop(left, chunkSize), budget - 1, chunkSize, reply, next.calls))
  {
    var chunk := Take(left, chunkSize);
    var rest := FetchFrom(Drop(left, chunkSize), budget - 1, chunkSize, reply, next.calls);
    var all := FetchFrom(left, budget, chunkSize, reply, sofar.calls);
    assert all == Settle(chunk, reply(sofar.calls, chunk), rest);
    hide FetchFrom, Take, Drop;
    assert sofar.fetched + all.fetched == next.fetched + rest.fetched;
    assert sofar.sent + all.sent == next.sent + rest.sent;
    assert sofar.failed + all.failed == next.failed + rest.failed;
  }

  lemma FetchNothing(left: seq<string>, budget: nat, chunkSize: nat, reply: Reply, sofar: Fetch)
    requires chunkSize >= 1 && (left == [] || budget == 0)
    ensures Join(sofar, FetchFrom(left, budget, chunkSize, reply, sofar.calls)) == sofar.(deferred := left)
  {
  }

  method PacedFetch(symbols: seq<string>, budget: int, chunkSize: nat, reply: Reply) returns (r: Fetch)
    requires chunkSize >= 1
    ensures r == FetchFrom(symbols, if budget < 0 then 0 else budget, chunkSize, reply, 0)
  {
    hide FetchFrom, Join;
    ghost var allowed := if budget < 0 then 0 else budget;
    var fetched: set<string>, sent: seq<string>, failed: seq<string> := {}, [], [];
    var calls, i := 0, 0;
    ghost var left := symbols;
    ghost var all := FetchFrom(symbols, allowed, chunkSize, reply, 0);
    JoinEmpty(all);
    while i < |symbols| && calls < budget
      invariant calls <= allowed
      invariant left == if i < |symbols| then symbols[i..] else []
      invariant all == Join(Fetch(fetched, sent, failed, [], calls), FetchFrom(left, allowed - calls, chunkSize, reply, calls))
      decreases |symbols| - i
    {
      ghost var sofar := Fetch(fetched, sent, failed, [], calls);
      var chunk := if i + chunkSize <= |symbols| then symbols[i..i + chunkSize] else symbols[i..];
      assert chunk == Take(left, chunkSize);
      match reply(calls, chunk) {
        case Some(returned) =>
          fetched := fetched + set s <- returned;
          sent := sent + chunk;
        case None =>
          failed := failed + chunk;
      }
      JoinStep(sofar, Fetch(fetched, sent, failed, [], calls + 1), left, allowed - calls, chunkSize, reply);
      calls := calls + 1;
      i := i + chunkSize;
      left := Drop(left, chunkSize);
    }
    FetchNothing(left, allowed - calls, chunkSize, reply, Fetch(fetched, sent, failed, [], calls));
    r := Fetch(fetched, sent, failed, if i < |symbols| then symbols[i..] else [], calls);
  }

  lemma JoinEmpty(all: Fetch)
    ensures Join(Fetch({}, [], [], [], 0), all) == all
  {
    assert {} + all.fetched == all.fetched && [] + all.sent == all.sent && [] + all.failed == all.failed;
  }
}
