/** Which claims stop a worker at all.  The largest value that any claim fetches is 2^32 less the largest power
    of two that divides the chunk size, and it decides. */
module ParallelStops {
  import opened Arithmetic
  import opened ParallelProtocol
  import opened ParallelClaims

  /** Every worker meets an index without an axis in the end: the largest value a claim can fetch is
      2^32 - LowBit(chunk). */
  predicate Halts(count: nat, chunk: nat) {
    chunk > 0 && count + LowBit(chunk) < WORD
  }

  // ---- the values fetched modulo a power of two ----

  lemma {:induction false} FetchedDouble(claim: nat, half: nat)
    ensures Fetched(claim, 2 * half) == 2 * Fetched(claim, half)
  {
    if claim > 0 {
      FetchedDouble(claim - 1, half);
    }
  }

  /** No value comes closer to 2^e than the low bit of the chunk size. */
  lemma {:induction false} FetchedBelow(e: nat, chunk: nat, claim: nat)
    requires 0 < chunk < Power(e)
    ensures Remainder(Fetched(claim, chunk), Power(e)) + LowBit(chunk) <= Power(e)
  {
    hide Fetched, Remainder;
    if chunk % 2 == 0 {
      var half, m := chunk / 2, Power(e - 1);
      FetchedBelow(e - 1, half, claim);
      FetchedDouble(claim, half);
      DoubleRemainder(Fetched(claim, half), m);
    }
  }

  lemma OddRemainder(odd: nat)
    requires odd % 2 == 1
    ensures Remainder(odd, 2) == 1
  {
  }

  /** 2^e claims of an odd size go round 2^(e + 1) half-way. */
  lemma {:induction false} HalfRound(e: nat, odd: nat)
    requires odd % 2 == 1
    ensures Remainder(Fetched(Power(e), odd), Power(e + 1)) == Power(e)
  {
    hide Fetched, Power, Remainder;
    NextPower(e);
    if e == 0 {
      NextFetched(0, odd);
      OddRemainder(odd);
    } else {
      var n := Power(e - 1);
      NextPower(e - 1);
      HalfRound(e - 1, odd);
      FetchedSum(n, n, odd);
      DoubleRemainder(Fetched(n, odd), Power(e));
    }
  }

  /** An odd chunk size reaches every remainder, the largest one included. */
  lemma {:induction false} OddReaches(e: nat, odd: nat) returns (claim: nat)
    requires odd % 2 == 1
    ensures Remainder(Fetched(claim, odd), Power(e)) == Power(e) - 1
  {
    hide Fetched, Power, Remainder;
    if e == 0 {
      NextPower(0);
      return 0;
    }
    NextPower(e - 1);
    var m := Power(e - 1);
    claim := OddReaches(e - 1, odd);
    HalvedRemainder(Fetched(claim, odd), m);
    if Remainder(Fetched(claim, odd), Power(e)) != Power(e) - 1 {
      HalfRound(e - 1, odd);
      FetchedSum(claim, m, odd);
      SumRemainder(Fetched(claim, odd), Fetched(m, odd), Power(e));
      claim := claim + m;
    }
  }

  /** Some claim comes exactly that close. */
  lemma {:induction false} LargestReached(e: nat, chunk: nat) returns (claim: nat)
    requires 0 < chunk < Power(e)
    ensures Remainder(Fetched(claim, chunk), Power(e)) + LowBit(chunk) == Power(e)
  {
    if chunk % 2 == 1 {
      claim := OddReaches(e, chunk);
    } else {
      var half, m := chunk / 2, Power(e - 1);
      claim := LargestReached(e - 1, half);
      FetchedDouble(claim, half);
      DoubleRemainder(Fetched(claim, half), m);
    }
  }

  lemma WordIsPower()
    ensures Power(32) == WORD
  {
    NextPower(0);
    NextPower(1);
    hide Power;
    PowerSum(2, 2);
    PowerSum(4, 4);
    PowerSum(8, 8);
    PowerSum(16, 16);
  }

  // ---- which claims stop ----

  /** Some claim stops its worker if and only if there is an index without an axis below the largest value. */
  lemma SomeClaimStopsIff(count: nat, chunk: nat)
    requires 0 < chunk < WORD
    ensures (exists claim: nat :: Stopping(claim, count, chunk)) <==> Halts(count, chunk)
  {
    hide Fetched, LowBit, Power;
    WordIsPower();
    if Halts(count, chunk) {
      var claim := LargestReached(32, chunk);
      NextFetched(0, chunk);
      FetchedBelow(32, chunk, 1);
      assert Stopping(claim, count, chunk);
    }
    if claim: nat :| Stopping(claim, count, chunk) {
      FetchedBelow(32, chunk, claim);
    }
  }

  lemma {:induction false} NeverStops(claims: nat, count: nat, chunk: nat)
    requires chunk < WORD && !Halts(count, chunk)
    ensures Stops(claims, count, chunk) == 0
  {
    hide Fetched, LowBit, Stopping;
    if claims > 0 {
      NeverStops(claims - 1, count, chunk);
      if chunk > 0 {
        SomeClaimStopsIff(count, chunk);
      } else {
        EmptyChunks(claims - 1, count);
      }
    }
  }

  // ---- after 2^32 claims everything repeats ----

  lemma {:induction false} FetchRepeats(claim: nat, chunk: nat, rounds: nat)
    ensures Fetch(claim + WORD * rounds, chunk) == Fetch(claim, chunk)
  {
    if rounds > 0 {
      FetchRepeats(claim, chunk, rounds - 1);
      var before := claim + WORD * (rounds - 1);
      FetchedSum(before, WORD, chunk);
      FetchedIsProduct(WORD, chunk);
      hide Fetched;
      SameRemainder(Fetched(before, chunk) + WORD * chunk, Fetched(before, chunk), chunk);
      assert claim + WORD * rounds == before + WORD;
    }
  }

  lemma {:induction false} EnoughStops(claim: nat, count: nat, chunk: nat, workers: nat) returns (claims: nat)
    requires Stopping(claim, count, chunk)
    ensures Stops(claims, count, chunk) >= workers
  {
    hide Fetch;
    if workers == 0 {
      return 0;
    }
    var before := EnoughStops(claim, count, chunk, workers - 1);
    var next := claim + WORD * before;
    FetchRepeats(claim, chunk, before);
    CountsGrow(before, next, count, chunk, 0);
    return next + 1;
  }

  lemma {:induction false} FirstComplete(claims: nat, count: nat, chunk: nat, workers: nat) returns (last: nat)
    requires workers > 0 && Stops(claims, count, chunk) >= workers
    ensures Complete(last, count, chunk, workers)
  {
    hide Stopping;
    if Stops(claims - 1, count, chunk) < workers {
      return claims;
    }
    last := FirstComplete(claims - 1, count, chunk, workers);
  }

  /** Then a complete call exists for any number of workers; CompleteUnique says how many claims it makes. */
  lemma HaltsComplete(count: nat, chunk: nat, workers: nat) returns (claims: nat)
    requires chunk < WORD && workers > 0 && Halts(count, chunk)
    ensures Complete(claims, count, chunk, workers)
  {
    SomeClaimStopsIff(count, chunk);
    var claim: nat :| Stopping(claim, count, chunk);
    var enough := EnoughStops(claim, count, chunk, workers);
    claims := FirstComplete(enough, count, chunk, workers);
  }
}
