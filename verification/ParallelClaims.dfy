/** The claims as numbers: claim k fetches k * chunk modulo 2^32 and takes the chunk in front of it. */
module ParallelClaims {
  import opened Counting
  import opened ParallelProtocol

  /** What the claims in front of this one have added to the work index. */
  function Fetched(claim: nat, chunk: nat): nat {
    if claim == 0 then 0 else Fetched(claim - 1, chunk) + chunk
  }

  lemma {:induction false} FetchedIsProduct(claim: nat, chunk: nat)
    ensures Fetched(claim, chunk) == claim * chunk
  {
    if claim > 0 {
      FetchedIsProduct(claim - 1, chunk);
      assert claim * chunk == (claim - 1) * chunk + chunk;
    }
  }

  function Fetch(claim: nat, chunk: nat): (r: nat)
    ensures r < WORD
  {
    Fetched(claim, chunk) % WORD
  }

  /** A fetched value below the chunk size wraps: its chunk starts behind its end and is empty. */
  predicate InChunk(claim: nat, chunk: nat, i: nat) {
    Fetch(claim, chunk) >= chunk && Fetch(claim, chunk) - chunk <= i < Fetch(claim, chunk)
  }

  /** The claim's chunk contains an index without an axis, so the claiming worker stops. */
  predicate Stopping(claim: nat, count: nat, chunk: nat) {
    Fetch(claim, chunk) >= chunk && Fetch(claim, chunk) > count
  }

  /** How many of the first `claims` claims stop their worker. */
  function Stops(claims: nat, count: nat, chunk: nat): nat {
    if claims == 0 then 0 else Stops(claims - 1, count, chunk) + B2N(Stopping(claims - 1, count, chunk))
  }

  /** How many of the first `claims` claims take a chunk that contains index i. */
  function Hits(claims: nat, chunk: nat, i: nat): nat {
    if claims == 0 then 0 else Hits(claims - 1, chunk, i) + B2N(InChunk(claims - 1, chunk, i))
  }

  /** Every index with an axis is in the chunk of exactly one claim. */
  ghost predicate HitOnce(claims: nat, count: nat, chunk: nat) {
    forall i: nat :: i < count ==> Hits(claims, chunk, i) == 1
  }

  lemma NextFetched(claim: nat, chunk: nat)
    ensures Fetched(claim + 1, chunk) == Fetched(claim, chunk) + chunk
    ensures Fetched(0, chunk) == 0
    ensures claim > 0 ==> Fetched(claim, chunk) >= chunk
  {
  }

  /** Chunks of size zero are empty and stop nobody. */
  lemma EmptyChunks(claim: nat, count: nat)
    ensures Fetch(claim, 0) == 0 && !Stopping(claim, count, 0) && forall i: nat :: !InChunk(claim, 0, i)
  {
    FetchedIsProduct(claim, 0);
  }

  lemma FetchStep(claim: nat, chunk: nat)
    ensures Plus32(Fetch(claim, chunk), chunk) == Fetch(claim + 1, chunk)
  {
    hide Fetched;
    NextFetched(claim, chunk);
    var a := Fetched(claim, chunk);
    SameRemainder(a + chunk, a % WORD + chunk, a / WORD);
  }

  lemma {:induction false} FetchedMonotone(a: nat, b: nat, chunk: nat)
    requires a <= b
    ensures Fetched(a, chunk) <= Fetched(b, chunk)
  {
    hide Fetched;
    if a < b {
      FetchedMonotone(a, b - 1, chunk);
      NextFetched(b - 1, chunk);
    }
  }

  lemma {:induction false} CountsGrow(a: nat, b: nat, count: nat, chunk: nat, i: nat)
    requires a <= b
    ensures Stops(a, count, chunk) <= Stops(b, count, chunk) && Hits(a, chunk, i) <= Hits(b, chunk, i)
  {
    if a < b {
      CountsGrow(a, b - 1, count, chunk, i);
    }
  }

  lemma {:induction false} FetchedSum(a: nat, b: nat, chunk: nat)
    ensures Fetched(a + b, chunk) == Fetched(a, chunk) + Fetched(b, chunk)
  {
    if b > 0 {
      FetchedSum(a, b - 1, chunk);
    }
  }

  lemma Quotient(a: nat, b: nat)
    requires b > 0
    ensures Fetched(a / b, b) <= a < Fetched(a / b, b) + b
  {
    FetchedIsProduct(a / b, b);
  }

  lemma SameRemainder(a: int, b: int, q: int)
    requires a == b + q * WORD
    ensures a % WORD == b % WORD
  {
    assert a / WORD == b / WORD + q;
  }

  // ---- the claims of a complete call ----

  /** The claim that stops the last worker is the last claim of all. */
  ghost predicate Complete(claims: nat, count: nat, chunk: nat, workers: nat) {
    claims > 0 && Stops(claims, count, chunk) == workers && Stops(claims - 1, count, chunk) < workers
  }

  /** Count, chunk size and number of workers determine the claims of every complete call. */
  lemma CompleteUnique(a: nat, b: nat, count: nat, chunk: nat, workers: nat)
    requires Complete(a, count, chunk, workers) && Complete(b, count, chunk, workers)
    ensures a == b
  {
    if a < b {
      CountsGrow(a, b - 1, count, chunk, 0);
    } else if b < a {
      CountsGrow(b, a - 1, count, chunk, 0);
    }
  }

  // ---- when no claim wraps ----

  /** The number of claims whose whole chunk has axes, the empty first one included. */
  function FullClaims(count: nat, chunk: nat): nat
    requires chunk > 0
  {
    count / chunk + 1
  }

  /** A claim is full exactly when it ends at or below the number of axes. */
  lemma FullIff(claim: nat, count: nat, chunk: nat)
    requires chunk > 0
    ensures claim < FullClaims(count, chunk) <==> Fetched(claim, chunk) <= count
  {
    var q := count / chunk;
    Quotient(count, chunk);
    NextFetched(q, chunk);
    hide Fetched;
    if claim <= q {
      FetchedMonotone(claim, q, chunk);
    } else {
      FetchedMonotone(q + 1, claim, chunk);
    }
  }

  /** No claim of the call wraps: even the last worker's last claim fetches a 32-bit value. */
  ghost predicate NoWrap(count: nat, chunk: nat, workers: nat) {
    chunk > 0 && workers > 0 && Fetched(FullClaims(count, chunk) + workers - 1, chunk) < WORD
  }

  /** Room for one chunk per worker and one more behind the axes is enough. */
  lemma RoomIsEnough(count: nat, chunk: nat, workers: nat)
    requires chunk > 0 && workers > 0 && count + (workers + 1) * chunk <= WORD
    ensures NoWrap(count, chunk, workers)
  {
    var q := count / chunk;
    Quotient(count, chunk);
    FetchedSum(q, workers, chunk);
    FetchedIsProduct(workers + 1, chunk);
  }

  lemma NoWrapFetch(claim: nat, count: nat, chunk: nat, workers: nat)
    requires NoWrap(count, chunk, workers) && claim < FullClaims(count, chunk) + workers
    ensures Fetch(claim, chunk) == Fetched(claim, chunk)
  {
    hide Fetched, FullClaims;
    FetchedMonotone(claim, FullClaims(count, chunk) + workers - 1, chunk);
  }

  /** What one claim that does not wrap takes. */
  lemma NoWrapClaim(claim: nat, count: nat, chunk: nat, workers: nat)
    requires NoWrap(count, chunk, workers) && claim < FullClaims(count, chunk) + workers
    ensures Stopping(claim, count, chunk) <==> claim >= FullClaims(count, chunk)
    ensures forall i: nat :: InChunk(claim, chunk, i) <==>
            Fetched(claim, chunk) <= i + chunk < Fetched(claim + 1, chunk)
  {
    FetchedMonotone(claim, FullClaims(count, chunk) + workers - 1, chunk);
    FullIff(claim, count, chunk);
    NextFetched(claim, chunk);
    NextFetched(0, chunk);
    hide Fetched, FullClaims;
    assert Fetch(claim, chunk) == Fetched(claim, chunk);
  }

  /** Without wrapping, the claims behind the last full chunk are the stopping ones, and an index is hit once,
      by the claim whose chunk it lies in. */
  lemma {:induction false} NoWrapCounts(claims: nat, count: nat, chunk: nat, workers: nat)
    requires NoWrap(count, chunk, workers) && claims <= FullClaims(count, chunk) + workers
    ensures Stops(claims, count, chunk) ==
            if claims > FullClaims(count, chunk) then claims - FullClaims(count, chunk) else 0
    ensures forall i: nat :: Hits(claims, chunk, i) == B2N(i + chunk < Fetched(claims, chunk))
  {
    hide Fetched, FullClaims, Stopping, InChunk, NoWrap;
    if claims > 0 {
      NoWrapCounts(claims - 1, count, chunk, workers);
      NoWrapClaim(claims - 1, count, chunk, workers);
      FetchedMonotone(claims - 1, claims, chunk);
    } else {
      NextFetched(0, chunk);
    }
  }

  lemma NoWrapComplete(claims: nat, count: nat, chunk: nat, workers: nat)
    requires NoWrap(count, chunk, workers) && Complete(claims, count, chunk, workers)
    ensures claims == FullClaims(count, chunk) + workers
    ensures HitOnce(claims, count, chunk)
  {
    var all := FullClaims(count, chunk) + workers;
    NoWrapCounts(all, count, chunk, workers);
    NoWrapCounts(all - 1, count, chunk, workers);
    CompleteUnique(claims, all, count, chunk, workers);
    FullIff(all - 1, count, chunk);
    NextFetched(all - 1, chunk);
  }

  // ---- when a claim wraps ----

  /** The first claim whose fetched value has passed 2^32. */
  function FirstWrapped(chunk: nat): nat
    requires chunk > 0
  {
    (WORD + chunk - 1) / chunk
  }

  lemma FirstWrappedAt(chunk: nat)
    requires 0 < chunk <= WORD / 2
    ensures
      var k := FirstWrapped(chunk);
      && k >= 2 && WORD <= Fetched(k, chunk) < WORD + chunk && Fetched(k - 1, chunk) < WORD
      && Fetch(k, chunk) == Fetched(k, chunk) - WORD && Fetch(k + 1, chunk) == Fetched(k, chunk) - WORD + chunk
  {
    var k := FirstWrapped(chunk);
    Quotient(WORD + chunk - 1, chunk);
    NextFetched(0, chunk);
    NextFetched(k, chunk);
  }

  /** Before the first wrapped claim, and it included, at most the claims behind the full ones stop. */
  lemma {:induction false} StopsBeforeWrap(claims: nat, count: nat, chunk: nat)
    requires 0 < chunk <= WORD / 2 && claims <= FirstWrapped(chunk)
    ensures Stops(claims, count, chunk) <=
            if claims > FullClaims(count, chunk) then claims - FullClaims(count, chunk) else 0
  {
    hide Fetched, FullClaims, FirstWrapped;
    if claims > 0 {
      StopsBeforeWrap(claims - 1, count, chunk);
      FirstWrappedAt(chunk);
      FetchedMonotone(claims - 1, FirstWrapped(chunk) - 1, chunk);
      FullIff(claims - 1, count, chunk);
    }
  }

  lemma WrapLeavesAWorker(count: nat, chunk: nat, workers: nat)
    requires 0 < chunk <= WORD / 2 && workers > 0 && !NoWrap(count, chunk, workers)
    ensures Stops(FirstWrapped(chunk) + 1, count, chunk) < workers
  {
    var k := FirstWrapped(chunk);
    FirstWrappedAt(chunk);
    StopsBeforeWrap(k, count, chunk);
    var last := FullClaims(count, chunk) + workers - 1;
    if last < k {
      FetchedMonotone(last, k - 1, chunk);
    }
    assert !Stopping(k, count, chunk);
  }

  /** Chunks above half the index range wrap with every claim, each value 2^32 - chunk below the last one,
      until one of them has room for a chunk behind it. */
  lemma {:induction false} LargeChunkFetches(chunk: nat, j: nat)
    requires WORD / 2 < chunk < WORD && Fetched(j, WORD - chunk) <= chunk
    ensures Fetch(j + 1, chunk) == chunk - Fetched(j, WORD - chunk)
    decreases j
  {
    NextFetched(0, chunk);
    if j == 0 {
      NextFetched(0, WORD - chunk);
    } else {
      NextFetched(j - 1, WORD - chunk);
      hide Fetched;
      LargeChunkFetches(chunk, j - 1);
      FetchStep(j, chunk);
    }
  }

  // ---- when a call is exactly once ----

  /** The claim starts inside the chunk of claim 1, at an index that has an axis. */
  predicate StartsOver(claim: nat, count: nat, chunk: nat) {
    Fetch(claim, chunk) >= chunk && Fetch(claim, chunk) - chunk < count && Fetch(claim, chunk) - chunk < chunk
  }

  /** After claim 1 no claim of the call starts over. */
  ghost predicate NoReturn(claims: nat, count: nat, chunk: nat) {
    forall k: nat :: 1 < k < claims ==> !StartsOver(k, count, chunk)
  }

  lemma FirstChunk(chunk: nat, i: nat)
    requires 0 < chunk < WORD
    ensures !InChunk(0, chunk, i) && (InChunk(1, chunk, i) <==> i < chunk)
    ensures Hits(2, chunk, i) == B2N(i < chunk)
  {
    NextFetched(0, chunk);
    assert Fetch(0, chunk) == 0 && Fetch(1, chunk) == chunk;
    assert Hits(1, chunk, i) == 0;
  }

  lemma AtLeastTwo(claims: nat, count: nat, chunk: nat, workers: nat)
    requires chunk > 0 && workers > 0 && Complete(claims, count, chunk, workers)
    ensures claims >= 2
  {
    NextFetched(0, chunk);
    assert !Stopping(0, count, chunk);
    assert Stops(1, count, chunk) == 0;
  }

  /** A claim that starts over takes its first index a second time. */
  lemma StartsOverRepeats(claims: nat, count: nat, chunk: nat, k: nat)
    requires 0 < chunk < WORD && 1 < k < claims && StartsOver(k, count, chunk)
    ensures Fetch(k, chunk) >= chunk && Fetch(k, chunk) - chunk < count &&
            Hits(claims, chunk, Fetch(k, chunk) - chunk) >= 2
  {
    var i := Fetch(k, chunk) - chunk;
    FirstChunk(chunk, i);
    CountsGrow(2, k, count, chunk, i);
    assert InChunk(k, chunk, i);
    CountsGrow(k + 1, claims, count, chunk, i);
  }

  /** As long as no claim starts over no index with an axis is taken twice: the claims go on where the last one
      ended, and past the axes once they have wrapped. */
  lemma {:induction false} NoReturnHits(claims: nat, count: nat, chunk: nat, i: nat)
    requires 0 < chunk < WORD && i < count && NoReturn(claims, count, chunk)
    ensures Hits(claims, chunk, i) <= 1
    ensures claims > 0 && Hits(claims, chunk, i) == 1 && Fetch(claims - 1, chunk) >= chunk ==>
              i < Fetch(claims - 1, chunk)
  {
    hide Fetch, NoReturn;
    FirstChunk(chunk, i);
    if claims > 2 {
      NoReturnSooner(claims, count, chunk);
      NoReturnHits(claims - 1, count, chunk, i);
      FetchStep(claims - 2, chunk);
    }
  }

  lemma NoReturnSooner(claims: nat, count: nat, chunk: nat)
    requires 2 < claims && NoReturn(claims, count, chunk)
    ensures NoReturn(claims - 1, count, chunk) && !StartsOver(claims - 1, count, chunk)
  {
  }

  /** A call that does not wrap does not start over. */
  lemma NoWrapNoReturn(claims: nat, count: nat, chunk: nat, workers: nat)
    requires NoWrap(count, chunk, workers) && claims <= FullClaims(count, chunk) + workers
    ensures NoReturn(claims, count, chunk)
  {
    hide Fetched, NoWrap, FullClaims;
    forall k: nat | 1 < k < claims
      ensures !StartsOver(k, count, chunk)
    {
      NoWrapFetch(k, count, chunk, workers);
      NextFetched(k - 1, chunk);
      NextFetched(k - 2, chunk);
    }
  }

  /** With fewer axes than one chunk, claim 1 takes all of them, and a claim that takes one again starts over. */
  lemma {:induction false} SmallCountHits(claims: nat, count: nat, chunk: nat, i: nat)
    requires 0 < chunk < WORD && i < count < chunk && 2 <= claims && NoReturn(claims, count, chunk)
    ensures Hits(claims, chunk, i) == 1
  {
    FirstChunk(chunk, i);
    if claims > 2 {
      SmallCountHits(claims - 1, count, chunk, i);
      assert !StartsOver(claims - 1, count, chunk);
    }
  }

  /** With at least one chunk of axes a call that wraps starts over. */
  lemma WrapStartsOver(claims: nat, count: nat, chunk: nat, workers: nat) returns (k: nat)
    requires 0 < chunk < WORD && chunk <= count && workers > 0
    requires !NoWrap(count, chunk, workers) && Complete(claims, count, chunk, workers)
    ensures 1 < k < claims && StartsOver(k, count, chunk)
  {
    if chunk <= WORD / 2 {
      k := FirstWrapped(chunk) + 1;
      FirstWrappedAt(chunk);
      WrapLeavesAWorker(count, chunk, workers);
    } else {
      k := LargeChunkStartsOver(count, chunk);
    }
    if claims <= k {
      CountsGrow(claims, k, count, chunk, 0);
    }
  }

  lemma LargeChunkStartsOver(count: nat, chunk: nat) returns (k: nat)
    requires WORD / 2 < chunk < WORD && chunk <= count
    ensures k > 1 && StartsOver(k, count, chunk) && Stops(k, count, chunk) == 0
  {
    hide Fetch, Fetched, Stops, Plus32;
    var gap := WORD - chunk;
    var t := chunk / gap;
    Quotient(chunk, gap);
    LargeChunkFetches(chunk, t);
    FetchStep(t + 1, chunk);
    LargeChunkRunsOn(count, chunk, t + 2);
    k := t + 2;
    Shifted(chunk - Fetched(t, gap), chunk);
  }

  lemma Shifted(a: nat, chunk: nat)
    requires WORD / 2 < chunk < WORD && a < WORD - chunk
    ensures Plus32(a, chunk) == a + chunk
  {
  }

  /** Up to then no claim stops a worker. */
  lemma {:induction false} LargeChunkRunsOn(count: nat, chunk: nat, k: nat)
    requires WORD / 2 < chunk < WORD && chunk <= count && k <= chunk / (WORD - chunk) + 2
    ensures Stops(k, count, chunk) == 0
  {
    if k > 0 {
      LargeChunkRunsOn(count, chunk, k - 1);
      if k > 1 {
        Quotient(chunk, WORD - chunk);
        FetchedMonotone(k - 2, chunk / (WORD - chunk), WORD - chunk);
        LargeChunkFetches(chunk, k - 2);
      } else {
        NextFetched(0, chunk);
      }
    }
  }

  /** Exactly once, as numbers: the claims of a complete call take every index with an axis once if and only
      if no claim starts over. */
  lemma HitsOnceIff(claims: nat, count: nat, chunk: nat, workers: nat)
    requires 0 < chunk < WORD && workers > 0 && Complete(claims, count, chunk, workers)
    ensures HitOnce(claims, count, chunk) <==> NoReturn(claims, count, chunk)
  {
    hide Hits, StartsOver, NoWrap, Complete, Fetch;
    AtLeastTwo(claims, count, chunk, workers);
    if k: nat :| 1 < k < claims && StartsOver(k, count, chunk) {
      StartsOverRepeats(claims, count, chunk, k);
    } else if count < chunk {
      forall i: nat | i < count
        ensures Hits(claims, chunk, i) == 1
      {
        SmallCountHits(claims, count, chunk, i);
      }
    } else {
      if !NoWrap(count, chunk, workers) {
        var k := WrapStartsOver(claims, count, chunk, workers);
        assert false;
      }
      NoWrapComplete(claims, count, chunk, workers);
    }
  }

  /** With at least one chunk of axes, starting over and wrapping are the same. */
  lemma NoReturnIffNoWrap(claims: nat, count: nat, chunk: nat, workers: nat)
    requires 0 < chunk < WORD && workers > 0 && chunk <= count && Complete(claims, count, chunk, workers)
    ensures NoReturn(claims, count, chunk) <==> NoWrap(count, chunk, workers)
  {
    hide Hits, StartsOver, NoWrap, Complete, Fetch;
    if NoWrap(count, chunk, workers) {
      NoWrapComplete(claims, count, chunk, workers);
      HitsOnceIff(claims, count, chunk, workers);
    } else {
      var k := WrapStartsOver(claims, count, chunk, workers);
    }
  }
}
