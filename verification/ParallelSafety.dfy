/** Safety of ParallelFor under every interleaving, whether or not its claims wrap. */
module ParallelSafety {
  import opened Types
  import opened Counting
  import opened ParallelProtocol
  import opened ParallelClaims

  /** The worker has met an index without an axis, or is going to within the chunk it holds. */
  function IsLast<R>(count: nat): Worker<R> -> bool {
    (w: Worker<R>) => (w.pc.Loop? && w.pc.i < w.pc.end && w.pc.end > count) || w.pc.LowerFlag? || w.finished
  }

  predicate Holds<R>(w: Worker<R>, i: nat) {
    w.pc.Loop? && w.pc.i <= i < w.pc.end
  }

  /** How often a worker has run index i, or is going to with the chunk it holds. */
  function Share<R>(i: nat): Worker<R> -> nat {
    (w: Worker<R>) => multiset(w.ran)[i] + B2N(Holds(w, i))
  }

  ghost predicate WorkerInv<R>(job: Job<R>, s: State<R>, w: nat)
    requires w < |s.workers|
  {
    var me := s.workers[w];
    && (me.pc != WaitFlag ==> me.flag && !me.finished)
    && (me.finished ==> !me.flag)
    && (match s.caller
        case Publish(k) =>
          && k <= |s.workers|
          && (if w < k then me.flag || me.finished
              else me.pc == WaitFlag && !me.flag && !me.finished && me.ran == [])
        case Wait(k) => k <= |s.workers| && (me.flag || me.finished) && (w < k ==> me.finished)
        case Returned => me.finished)
    && (forall i :: i in me.ran ==> i < job.count)
    && (me.flag || me.finished ==> me.results == Collect(job.task, me.ran))
    && (me.pc.Loop? ==> me.pc.end < WORD && me.pc.i < WORD)
  }

  /** The work index is the next claim's value, exactly the stopping claims have made a worker stop, and the
      last worker stops with the last claim. */
  ghost predicate ClaimInv<R>(job: Job<R>, s: State<R>) {
    var stops := Stops(s.claims, job.count, job.chunk);
    && s.workIndex == Fetch(s.claims, job.chunk)
    && CountIf(IsLast(job.count), s.workers) == stops
    && (stops == |s.workers| ==> Complete(s.claims, job.count, job.chunk, |s.workers|))
  }

  /** An index has been run, or is held, exactly as often as a claim's chunk contained it. */
  ghost predicate ShareInv<R>(job: Job<R>, s: State<R>) {
    forall i: nat | i < job.count :: SumOf(Share(i), s.workers) == Hits(s.claims, job.chunk, i)
  }

  ghost predicate Inv<R>(job: Job<R>, s: State<R>) {
    && job.chunk < WORD && |s.workers| > 0
    && (forall w :: 0 <= w < |s.workers| ==> WorkerInv(job, s, w))
    && ClaimInv(job, s) && ShareInv(job, s)
  }

  lemma InitInv<R>(job: Job<R>, s: State<R>)
    requires Init(s) && job.chunk < WORD && |s.workers| > 0
    ensures Inv(job, s)
  {
    CountZero(IsLast(job.count), s.workers);
    NextFetched(0, job.chunk);
    forall i: nat | i < job.count
      ensures SumOf(Share(i), s.workers) == 0
    {
      SumZero(Share(i), s.workers);
    }
  }

  lemma {:induction false} SumZero<T>(f: T -> nat, s: seq<T>)
    requires forall k :: 0 <= k < |s| ==> f(s[k]) == 0
    ensures SumOf(f, s) == 0
  {
    if s != [] {
      SumZero(f, s[1..]);
    }
  }

  // ---- preservation ----

  lemma CallInv<R>(job: Job<R>, s: State<R>)
    requires Inv(job, s) && CallerStep(s).Some?
    ensures Inv(job, CallerStep(s).value)
  {
    hide CountIf, SumOf, Stops, Hits, Fetch;
    var s' := CallerStep(s).value;
    forall v | 0 <= v < |s.workers|
      ensures WorkerInv(job, s', v)
    {
      assert WorkerInv(job, s, v);
      assert Collect(job.task, []) == [];
    }
    if s.caller.Publish? && s.caller.k < |s.workers| {
      var k := s.caller.k;
      CountUpdate(IsLast(job.count), s.workers, k, s'.workers[k]);
      forall i: nat | i < job.count
        ensures SumOf(Share(i), s'.workers) == SumOf(Share(i), s.workers)
      {
        SumUpdate(Share(i), s.workers, k, s'.workers[k]);
      }
    }
  }

  /** A worker's step that neither claims nor changes any share. */
  lemma SharesKept<R>(job: Job<R>, s: State<R>, w: nat, x: Worker<R>)
    requires ShareInv(job, s) && w < |s.workers|
    requires forall i: nat | i < job.count :: Share(i)(x) == Share(i)(s.workers[w])
    ensures ShareInv(job, At(s, w, x))
  {
    forall i: nat | i < job.count
      ensures SumOf(Share(i), s.workers[w := x]) == SumOf(Share(i), s.workers)
    {
      SumUpdate(Share(i), s.workers, w, x);
    }
  }

  lemma StepInv<R>(job: Job<R>, s: State<R>, w: nat)
    requires Inv(job, s) && w < |s.workers| && !s.workers[w].pc.Claim? && WorkerStep(job, s, w).Some?
    ensures Inv(job, WorkerStep(job, s, w).value)
  {
    hide CountIf, SumOf, Stops, Hits, Fetch, Collect;
    var s' := WorkerStep(job, s, w).value;
    CountUpdate(IsLast(job.count), s.workers, w, s'.workers[w]);
    StepShares(job, s, w);
    SharesKept(job, s, w, s'.workers[w]);
    forall v | 0 <= v < |s.workers|
      ensures WorkerInv(job, s', v)
    {
      assert WorkerInv(job, s, v);
      StepWorkerInv(job, s, w);
    }
    assert ClaimInv(job, s') by { assert WorkerInv(job, s, w); }
  }

  lemma StepWorkerInv<R>(job: Job<R>, s: State<R>, w: nat)
    requires w < |s.workers| && WorkerInv(job, s, w) && !s.workers[w].pc.Claim? && WorkerStep(job, s, w).Some?
    ensures WorkerInv(job, WorkerStep(job, s, w).value, w)
  {
    var me := s.workers[w];
    if me.pc.Loop? && me.pc.i < me.pc.end && me.pc.i < job.count {
      assert (me.ran + [me.pc.i])[..|me.ran|] == me.ran;
    }
  }

  lemma StepShares<R>(job: Job<R>, s: State<R>, w: nat)
    requires Inv(job, s) && w < |s.workers| && !s.workers[w].pc.Claim? && WorkerStep(job, s, w).Some?
    ensures forall i: nat | i < job.count :: Share(i)(WorkerStep(job, s, w).value.workers[w]) == Share(i)(s.workers[w])
  {
    hide CountIf, SumOf, Stops, Hits, Fetch;
    assert WorkerInv(job, s, w);
  }

  /** What a claim gets: nothing when the fetched value is below the chunk size, the first claim's case
      included, and otherwise the chunk in front of it. */
  lemma ClaimRange<R>(job: Job<R>, s: State<R>, w: nat)
    requires Inv(job, s) && w < |s.workers| && s.workers[w].pc.Claim?
    ensures
      var x := WorkerStep(job, s, w).value.workers[w];
      && x.pc.Loop? && x.pc.i < WORD && x.pc.end < WORD
      && (x.pc.i < x.pc.end <==> s.workIndex >= job.chunk > 0)
      && (IsLast(job.count)(x) <==> Stopping(s.claims, job.count, job.chunk))
      && (forall i: nat :: Share(i)(x) == Share(i)(s.workers[w]) + B2N(InChunk(s.claims, job.chunk, i)))
      && WorkerStep(job, s, w).value.workIndex == Fetch(s.claims + 1, job.chunk)
  {
    hide CountIf, SumOf, Stops, Hits, Fetched;
    assert WorkerInv(job, s, w);
    FetchStep(s.claims, job.chunk);
    EmptyChunks(s.claims, job.count);
  }

  lemma ClaimStepInv<R>(job: Job<R>, s: State<R>, w: nat)
    requires Inv(job, s) && w < |s.workers| && s.workers[w].pc.Claim?
    ensures Inv(job, WorkerStep(job, s, w).value)
  {
    hide CountIf, SumOf, Fetch, Stopping, InChunk;
    var s' := WorkerStep(job, s, w).value;
    var x := s'.workers[w];
    LastBounded(job, s, w);
    ClaimRange(job, s, w);
    CountUpdate(IsLast(job.count), s.workers, w, x);
    forall i: nat | i < job.count
      ensures SumOf(Share(i), s'.workers) == Hits(s'.claims, job.chunk, i)
    {
      SumUpdate(Share(i), s.workers, w, x);
    }
    forall v | 0 <= v < |s.workers|
      ensures WorkerInv(job, s', v)
    {
      assert WorkerInv(job, s, v);
    }
  }

  /** While a worker can still claim, not all of them are stopping. */
  lemma LastBounded<R>(job: Job<R>, s: State<R>, w: nat)
    requires Inv(job, s) && w < |s.workers| && s.workers[w].pc.Claim?
    ensures Stops(s.claims, job.count, job.chunk) < |s.workers| && !IsLast(job.count)(s.workers[w])
  {
    assert WorkerInv(job, s, w);
    CountFull(IsLast(job.count), s.workers);
    CountBound(IsLast(job.count), s.workers);
    assert !IsLast(job.count)(s.workers[w]);
  }

  lemma NextInv<R>(job: Job<R>, s: State<R>, l: Label)
    requires Inv(job, s) && Next(job, s, l).Some?
    ensures Inv(job, Next(job, s, l).value)
  {
    hide Inv, CallerStep, WorkerStep;
    match l
    case Call => CallInv(job, s);
    case Work(w) => if s.workers[w].pc.Claim? { ClaimStepInv(job, s, w); } else { StepInv(job, s, w); }
  }
}
