/** Capping and pacing lose nothing: every symbol gets its days, every symbol of a run is accounted for. */
module FundPacingLaws {
  import opened Options
  import opened FundPacing

  // ---- arithmetic of the rotating offset ----

  lemma ModUnique(x: int, n: nat, q: int, r: int)
    requires n > 0 && 0 <= r < n && x == n * q + r
    ensures x % n == r
  {
    MulAtLeast(n, x / n - q);
    assert n * (x / n - q) == r - x % n;
  }

  lemma MulAtLeast(n: int, k: int)
    requires n > 0
    ensures k >= 1 ==> n * k >= n
    ensures k <= -1 ==> n * k <= -n
  {
    if k >= 1 {
      assert n * k == n * (k - 1) + n;
    } else if k <= -1 {
      assert n * k == n * (k + 1) - n;
    }
  }

  lemma ModShift(x: int, n: nat)
    requires n > 0
    ensures (x + n) % n == x % n
  {
    assert x + n == n * (x / n + 1) + x % n;
    ModUnique(x + n, n, x / n + 1, x % n);
  }

  /** The symbol at place `at` of `size` is kept on `day`. */
  predicate KeptOn(at: int, size: nat, max: nat, day: int)
    requires size > 0
  {
    (at - day) % size < max
  }

  ghost predicate Distinct(symbols: seq<string>) {
    forall i, j :: 0 <= i < j < |symbols| ==> symbols[i] != symbols[j]
  }

  lemma RotationPlace(at: nat, size: nat, day: nat)
    requires at < size
    ensures (at - day) % size == if at >= day % size then at - day % size else at - day % size + size
  {
    var offset := day % size;
    if at >= offset {
      assert at - day == size * -(day / size) + (at - offset);
      ModUnique(at - day, size, -(day / size), at - offset);
    } else {
      assert at - day == size * (-(day / size) - 1) + (at - offset + size);
      ModUnique(at - day, size, -(day / size) - 1, at - offset + size);
    }
  }

  /** The cap keeps exactly the symbols whose rotated place is below it, in distinct places. */
  lemma CapKeeps(deduped: seq<string>, max: nat, provider: string, day: nat, at: nat)
    requires Distinct(deduped) && at < |deduped| && max < |deduped| && provider in {"fmp", ""}
    ensures deduped[at] in ApplySymbolCap(deduped, max, provider, day) <==> KeptOn(at, |deduped|, max, day)
    ensures |ApplySymbolCap(deduped, max, provider, day)| == max
  {
    var n, offset := |deduped|, day % |deduped|;
    var rotated := deduped[offset..] + deduped[..offset];
    var place := if at >= offset then at - offset else at - offset + n;
    RotationPlace(at, n, day);
    assert rotated[place] == deduped[at];
    assert place < max ==> rotated[..max][place] == deduped[at];
    if deduped[at] in rotated[..max] {
      var k :| 0 <= k < max && rotated[..max][k] == deduped[at];
      assert rotated[k] == if k < n - offset then deduped[k + offset] else deduped[k + offset - n];
      assert k == place;
    }
  }

  /** The cap applies to FMP and to an unknown provider, and bites when the universe is larger. */
  predicate Bites(deduped: seq<string>, max: nat, provider: string) {
    (provider == "fmp" || provider == "") && |deduped| > max
  }

  /** For every provider and cap: the cap leaves the universe as it is, in order, unless it applies and
      bites; then it leaves as many symbols as it allows, each from the universe and none twice more than
      it was there. */
  lemma CapSize(deduped: seq<string>, max: nat, provider: string, day: nat)
    ensures var kept := ApplySymbolCap(deduped, max, provider, day);
            && (!Bites(deduped, max, provider) ==> kept == deduped)
            && |kept| == (if Bites(deduped, max, provider) then max else |deduped|)
            && multiset(kept) <= multiset(deduped)
  {
    if Bites(deduped, max, provider) {
      var offset := day % |deduped|;
      var rotated := deduped[offset..] + deduped[..offset];
      assert deduped == deduped[..offset] + deduped[offset..];
      assert multiset(rotated) == multiset(deduped);
      assert rotated == rotated[..max] + rotated[max..];
    }
  }

  /** So every symbol is kept whenever another provider is active or the universe fits. */
  lemma UncappedKeepsAll(deduped: seq<string>, max: nat, provider: string, day: nat, at: nat)
    requires at < |deduped| && (provider !in {"fmp", ""} || |deduped| <= max)
    ensures var kept := ApplySymbolCap(deduped, max, provider, day);
            |kept| == |deduped| && kept[at] == deduped[at]
  {
    CapSize(deduped, max, provider, day);
  }

  // ---- how often a symbol is kept ----

  function DaysKept(at: int, size: nat, max: nat, from: int, days: nat): nat
    requires size > 0
  {
    if days == 0 then 0
    else DaysKept(at, size, max, from, days - 1) + if KeptOn(at, size, max, from + days - 1) then 1 else 0
  }

  lemma {:induction false} DaysKeptSplit(at: int, size: nat, max: nat, from: int, a: nat, b: nat)
    requires size > 0
    ensures DaysKept(at, size, max, from, a + b) == DaysKept(at, size, max, from, a) + DaysKept(at, size, max, from + a, b)
    ensures DaysKept(at, size, max, from + a, b) <= b
    decreases b
  {
    if b > 0 {
      DaysKeptSplit(at, size, max, from, a, b - 1);
    }
  }

  /** Starting just after the symbol's last kept day, the first days drop it and the rest keep it. */
  lemma {:induction false} AlignedWindow(at: int, size: nat, max: nat, days: nat)
    requires size > 0 && max <= size && days <= size
    ensures DaysKept(at, size, max, at + 1 - size, days) == if days <= size - max then 0 else days - (size - max)
  {
    if days > 0 {
      AlignedWindow(at, size, max, days - 1);
      assert at - (at + 1 - size + days - 1) == size - days;
      ModUnique(size - days, size, 0, size - days);
    }
  }

  lemma SlideWindow(at: int, size: nat, max: nat, from: int)
    requires size > 0
    ensures DaysKept(at, size, max, from, size) == DaysKept(at, size, max, from + 1, size)
  {
    DaysKeptSplit(at, size, max, from, 1, size - 1);
    DaysKeptSplit(at, size, max, from + 1, size - 1, 1);
    assert at - (from + size) + size == at - from;
    ModShift(at - (from + size), size);
    OneDay(at, size, max, from);
    OneDay(at, size, max, from + size);
  }

  lemma OneDay(at: int, size: nat, max: nat, day: int)
    requires size > 0
    ensures DaysKept(at, size, max, day, 1) == if KeptOn(at, size, max, day) then 1 else 0
  {
    assert DaysKept(at, size, max, day, 0) == 0;
  }

  lemma {:induction false} AnyWindow(at: int, size: nat, max: nat, from: int)
    requires size > 0 && max <= size
    ensures DaysKept(at, size, max, from, size) == max
    decreases if from >= at + 1 - size then from - (at + 1 - size) else at + 1 - size - from
  {
    var aligned := at + 1 - size;
    if from == aligned {
      AlignedWindow(at, size, max, size);
    } else if from > aligned {
      AnyWindow(at, size, max, from - 1);
      SlideWindow(at, size, max, from - 1);
    } else {
      AnyWindow(at, size, max, from + 1);
      SlideWindow(at, size, max, from);
    }
  }

  /** Days of the window on which the capped universe holds the symbol. */
  function DaysInUniverse(deduped: seq<string>, max: nat, provider: string, at: nat, from: nat, days: nat): nat
    requires at < |deduped|
  {
    if days == 0 then 0
    else DaysInUniverse(deduped, max, provider, at, from, days - 1)
         + if deduped[at] in ApplySymbolCap(deduped, max, provider, from + days - 1) then 1 else 0
  }

  lemma {:induction false} UniverseDays(deduped: seq<string>, max: nat, provider: string, at: nat, from: nat, days: nat)
    requires Distinct(deduped) && at < |deduped| && max < |deduped| && provider in {"fmp", ""}
    ensures DaysInUniverse(deduped, max, provider, at, from, days) == DaysKept(at, |deduped|, max, from, days)
  {
    if days > 0 {
      UniverseDays(deduped, max, provider, at, from, days - 1);
      CapKeeps(deduped, max, provider, from + days - 1, at);
    }
  }

  /** With a stable union of N symbols above the cap M, any N consecutive days keep each symbol on
      exactly M of them, and no symbol is dropped on N - M + 1 days in a row. */
  lemma CapIsFair(deduped: seq<string>, max: nat, provider: string, at: nat, from: nat)
    requires Distinct(deduped) && at < |deduped| && max < |deduped| && provider in {"fmp", ""}
    ensures DaysInUniverse(deduped, max, provider, at, from, |deduped|) == max
    ensures max > 0 ==> DaysInUniverse(deduped, max, provider, at, from, |deduped| - max + 1) >= 1
  {
    hide DaysInUniverse, DaysKept, Distinct;
    var n := |deduped|;
    UniverseDays(deduped, max, provider, at, from, n);
    AnyWindow(at, n, max, from);
    if max > 0 {
      UniverseDays(deduped, max, provider, at, from, n - max + 1);
      DaysKeptSplit(at, n, max, from, n - max + 1, max - 1);
      assert n - max + 1 + (max - 1) == n;
    }
  }

  // ---- pacing ----

  function CeilDiv(n: nat, size: nat): nat
    requires size > 0
  {
    (n + size - 1) / size
  }

  lemma CeilDivStep(n: nat, size: nat)
    requires size > 0
    ensures n == 0 ==> CeilDiv(n, size) == 0
    ensures 0 < n <= size ==> CeilDiv(n, size) == 1
    ensures n > size ==> CeilDiv(n, size) == CeilDiv(n - size, size) + 1
  {
    var m := n + size - 1;
    if n == 0 {
      DivUnique(m, size, 0, size - 1);
    } else if n <= size {
      DivUnique(m, size, 1, n - 1);
    } else {
      assert m == size * ((m - size) / size + 1) + (m - size) % size;
      DivUnique(m, size, (m - size) / size + 1, (m - size) % size);
    }
  }

  lemma DivUnique(x: int, n: nat, q: int, r: int)
    requires n > 0 && 0 <= r < n && x == n * q + r
    ensures x / n == q
  {
    ModUnique(x, n, q, r);
    assert n * (x / n - q) == 0;
  }

  /** The number of calls: the budget or one call a chunk, whichever is less. */
  lemma {:induction false} PacedCalls(symbols: seq<string>, budget: nat, chunkSize: nat, reply: Reply, call: nat)
    requires chunkSize >= 1
    ensures FetchFrom(symbols, budget, chunkSize, reply, call).calls
            == if budget < CeilDiv(|symbols|, chunkSize) then budget else CeilDiv(|symbols|, chunkSize)
    decreases |symbols|
  {
    hide CeilDiv;
    CeilDivStep(|symbols|, chunkSize);
    if symbols != [] && budget > 0 {
      PacedCalls(Drop(symbols, chunkSize), budget - 1, chunkSize, reply, call + 1);
      assert |symbols| <= chunkSize ==> Drop(symbols, chunkSize) == [];
      CeilDivStep(0, chunkSize);
    }
  }

  function Accounted(r: Fetch): multiset<string> {
    multiset(r.sent) + multiset(r.failed) + multiset(r.deferred)
  }

  lemma SettleAccounts(chunk: seq<string>, answer: Option<seq<string>>, rest: Fetch)
    ensures Accounted(Settle(chunk, answer, rest)) == multiset(chunk) + Accounted(rest)
    ensures Settle(chunk, answer, rest).deferred == rest.deferred
    ensures Settle(chunk, answer, rest).calls == rest.calls + 1
  {
    assert multiset(chunk + rest.sent) == multiset(chunk) + multiset(rest.sent);
    assert multiset(chunk + rest.failed) == multiset(chunk) + multiset(rest.failed);
  }

  lemma NothingRequested(symbols: seq<string>)
    ensures Accounted(Fetch({}, [], [], symbols, 0)) == multiset(symbols)
  {
  }

  lemma TakeDrop(symbols: seq<string>, size: nat)
    ensures multiset(symbols) == multiset(Take(symbols, size)) + multiset(Drop(symbols, size))
  {
    assert symbols == Take(symbols, size) + Drop(symbols, size);
  }

  lemma DropSuffix(symbols: seq<string>, size: nat, d: nat)
    requires size >= 1 && symbols != [] && d <= |Drop(symbols, size)|
    ensures |Drop(symbols, size)| < |symbols|
    ensures symbols[|symbols| - d..] == Drop(symbols, size)[|Drop(symbols, size)| - d..]
  {
  }

  /** The input is partitioned into the chunks requested successfully, the failed chunks and the rest. */
  lemma {:induction false} PacedPartition(symbols: seq<string>, budget: nat, chunkSize: nat, reply: Reply, call: nat)
    requires chunkSize >= 1
    ensures multiset(symbols) == Accounted(FetchFrom(symbols, budget, chunkSize, reply, call))
    decreases |symbols|
  {
    hide Accounted, Settle, Take, Drop;
    if symbols == [] || budget == 0 {
      NothingRequested(symbols);
    } else {
      var chunk, rest := Take(symbols, chunkSize), Drop(symbols, chunkSize);
      TakeDrop(symbols, chunkSize);
      DropSuffix(symbols, chunkSize, 0);
      PacedPartition(rest, budget - 1, chunkSize, reply, call + 1);
      SettleAccounts(chunk, reply(call, chunk), FetchFrom(rest, budget - 1, chunkSize, reply, call + 1));
    }
  }

  /** What is left over is a suffix of the input, and anything is left only when the whole budget is spent. */
  lemma {:induction false} PacedSuffix(symbols: seq<string>, budget: nat, chunkSize: nat, reply: Reply, call: nat)
    requires chunkSize >= 1
    ensures var r := FetchFrom(symbols, budget, chunkSize, reply, call);
            && |r.deferred| <= |symbols| && r.deferred == symbols[|symbols| - |r.deferred|..]
            && (r.deferred != [] ==> r.calls == budget)
    decreases |symbols|
  {
    if symbols != [] && budget > 0 {
      hide Settle, Accounted, Take, Drop;
      var rest := Drop(symbols, chunkSize);
      DropSuffix(symbols, chunkSize, 0);
      PacedSuffix(rest, budget - 1, chunkSize, reply, call + 1);
      var tail := FetchFrom(rest, budget - 1, chunkSize, reply, call + 1);
      SettleAccounts(Take(symbols, chunkSize), reply(call, Take(symbols, chunkSize)), tail);
      DropSuffix(symbols, chunkSize, |tail.deferred|);
    }
  }

  /** Chunk number `k` of the input, by position. */
  function Chunk(symbols: seq<string>, size: nat, k: nat): seq<string> {
    if k * size >= |symbols| then [] else Take(symbols[k * size..], size)
  }

  lemma ChunkShift(symbols: seq<string>, size: nat, k: nat)
    ensures Chunk(symbols, size, k + 1) == Chunk(Drop(symbols, size), size, k)
  {
    assert (k + 1) * size == k * size + size;
    if (k + 1) * size < |symbols| {
      assert symbols[(k + 1) * size..] == symbols[size..][k * size..];
    }
  }

  /** `s` is in the chunk of call `k`, and that call raised. */
  predicate LostAt(symbols: seq<string>, size: nat, reply: Reply, call: nat, k: nat, s: string) {
    reply(call + k, Chunk(symbols, size, k)).None? && s in Chunk(symbols, size, k)
  }

  /** Call `k` answered, and `s` is among the answers. */
  predicate AnsweredAt(symbols: seq<string>, size: nat, reply: Reply, call: nat, k: nat, s: string) {
    reply(call + k, Chunk(symbols, size, k)).Some? && s in reply(call + k, Chunk(symbols, size, k)).value
  }

  ghost predicate Lost(symbols: seq<string>, size: nat, reply: Reply, call: nat, calls: nat, s: string) {
    exists k: nat :: k < calls && LostAt(symbols, size, reply, call, k, s)
  }

  ghost predicate Answered(symbols: seq<string>, size: nat, reply: Reply, call: nat, calls: nat, s: string) {
    exists k: nat :: k < calls && AnsweredAt(symbols, size, reply, call, k, s)
  }

  lemma LostSplit(symbols: seq<string>, size: nat, reply: Reply, call: nat, calls: nat, s: string)
    ensures Lost(symbols, size, reply, call, calls + 1, s)
        <==> LostAt(symbols, size, reply, call, 0, s) || Lost(Drop(symbols, size), size, reply, call + 1, calls, s)
  {
    hide Chunk, Drop;
    var rest, next := Drop(symbols, size), call + 1;
    if k: nat :| k < calls && LostAt(rest, size, reply, next, k, s) {
      ChunkShift(symbols, size, k);
      assert LostAt(symbols, size, reply, call, k + 1, s);
    }
    if k: nat :| k < calls + 1 && LostAt(symbols, size, reply, call, k, s) {
      if k > 0 {
        ChunkShift(symbols, size, k - 1);
        assert LostAt(Drop(symbols, size), size, reply, call + 1, k - 1, s);
      }
    }
  }

  lemma AnsweredSplit(symbols: seq<string>, size: nat, reply: Reply, call: nat, calls: nat, s: string)
    ensures Answered(symbols, size, reply, call, calls + 1, s)
        <==> AnsweredAt(symbols, size, reply, call, 0, s) || Answered(Drop(symbols, size), size, reply, call + 1, calls, s)
  {
    hide Chunk, Drop;
    var rest, next := Drop(symbols, size), call + 1;
    if k: nat :| k < calls && AnsweredAt(rest, size, reply, next, k, s) {
      ChunkShift(symbols, size, k);
      assert AnsweredAt(symbols, size, reply, call, k + 1, s);
    }
    if k: nat :| k < calls + 1 && AnsweredAt(symbols, size, reply, call, k, s) {
      if k > 0 {
        ChunkShift(symbols, size, k - 1);
        assert AnsweredAt(Drop(symbols, size), size, reply, call + 1, k - 1, s);
      }
    }
  }

  lemma FirstCall(symbols: seq<string>, chunkSize: nat, reply: Reply, call: nat, s: string, rest: Fetch)
    requires symbols != []
    ensures var r := Settle(Take(symbols, chunkSize), reply(call, Take(symbols, chunkSize)), rest);
            && r.calls == rest.calls + 1
            && (s in r.failed <==> LostAt(symbols, chunkSize, reply, call, 0, s) || s in rest.failed)
            && (s in r.fetched <==> AnsweredAt(symbols, chunkSize, reply, call, 0, s) || s in rest.fetched)
  {
    assert 0 * chunkSize == 0 && symbols[0..] == symbols;
    assert Chunk(symbols, chunkSize, 0) == Take(symbols, chunkSize);
  }

  /** A symbol failed exactly when a chunk holding it was requested and raised, and was fetched exactly
      when some requested chunk answered with it. */
  lemma {:induction false} PacedOutcome(symbols: seq<string>, budget: nat, chunkSize: nat, reply: Reply, call: nat, s: string)
    requires chunkSize >= 1
    ensures var r := FetchFrom(symbols, budget, chunkSize, reply, call);
            && (s in r.failed <==> Lost(symbols, chunkSize, reply, call, r.calls, s))
            && (s in r.fetched <==> Answered(symbols, chunkSize, reply, call, r.calls, s))
    decreases |symbols|
  {
    hide Lost, Answered, LostAt, AnsweredAt, Settle;
    if symbols == [] || budget == 0 {
      NoCalls(symbols, chunkSize, reply, call, s);
    } else {
      var rest := Drop(symbols, chunkSize);
      var tail := FetchFrom(rest, budget - 1, chunkSize, reply, call + 1);
      PacedOutcome(rest, budget - 1, chunkSize, reply, call + 1, s);
      FirstCall(symbols, chunkSize, reply, call, s, tail);
      LostSplit(symbols, chunkSize, reply, call, tail.calls, s);
      AnsweredSplit(symbols, chunkSize, reply, call, tail.calls, s);
    }
  }

  lemma NoCalls(symbols: seq<string>, size: nat, reply: Reply, call: nat, s: string)
    ensures !Lost(symbols, size, reply, call, 0, s) && !Answered(symbols, size, reply, call, 0, s)
  {
  }
}
