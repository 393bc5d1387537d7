/** When ParallelFor returns: exactly if the claims of its chunk size ever meet an index without an axis. */
module ParallelTermination {
  import opened Types
  import opened Arithmetic
  import opened Counting
  import opened ParallelProtocol
  import opened ParallelClaims
  import opened ParallelStops
  import opened ParallelSafety
  import opened ParallelTheorems

  /** Until the call returns some thread can take a step. */
  lemma CanMove<R>(job: Job<R>, s: State<R>) returns (l: Label)
    requires Inv(job, s) && !s.caller.Returned?
    ensures Next(job, s, l).Some?
  {
    if CallerStep(s).Some? {
      return Call;
    }
    assert WorkerInv(job, s, s.caller.k);
    return Work(s.caller.k);
  }

  // ---- a measure ----

  function Remaining<R>(): Worker<R> -> nat {
    (w: Worker<R>) => WorkOf(w)
  }

  function WorkOf<R>(w: Worker<R>): nat {
    if w.finished then 0
    else
      match w.pc
      case WaitFlag => 3
      case Claim => 2
      case Loop(i, end) => 3 + (if i < end then end - i else 0)
      case LowerFlag => 1
  }

  function CallerWork<R>(s: State<R>): nat {
    match s.caller
    case Publish(k) => 2 * |s.workers| + 2 - (if k <= |s.workers| then k else |s.workers|)
    case Wait(k) => |s.workers| + 1 - (if k <= |s.workers| then k else |s.workers|)
    case Returned => 0
  }

  /** An upper bound on the number of steps still to come in a call that makes `claims` claims. */
  function Measure<R>(job: Job<R>, s: State<R>, claims: nat): nat {
    Product(if s.claims <= claims then claims - s.claims else 0, job.chunk + 3)
    + SumOf(Remaining<R>(), s.workers) + CallerWork(s)
  }

  /** No more claims than those of a complete call are ever made, fewer while a worker can still claim. */
  lemma ClaimsBounded<R>(job: Job<R>, s: State<R>, claims: nat)
    requires Inv(job, s) && Complete(claims, job.count, job.chunk, |s.workers|)
    ensures s.claims <= claims
    ensures Stops(s.claims, job.count, job.chunk) < |s.workers| ==> s.claims < claims
  {
    hide Stops, CountIf;
    CountBound(IsLast(job.count), s.workers);
    if s.claims >= claims {
      CountsGrow(claims, s.claims, job.count, job.chunk, 0);
      CompleteUnique(s.claims, claims, job.count, job.chunk, |s.workers|);
    }
  }

  lemma CallDecreases<R>(job: Job<R>, s: State<R>, claims: nat)
    requires Inv(job, s) && CallerStep(s).Some?
    ensures Measure(job, CallerStep(s).value, claims) < Measure(job, s, claims)
  {
    hide SumOf, CountIf, Product, Collect, ShareInv, ClaimInv;
    var s' := CallerStep(s).value;
    assert WorkerInv(job, s, 0);
    if s.caller.Publish? && s.caller.k < |s.workers| {
      SumUpdate(Remaining<R>(), s.workers, s.caller.k, s'.workers[s.caller.k]);
    }
  }

  lemma WorkDecreases<R>(job: Job<R>, s: State<R>, w: nat, claims: nat)
    requires Inv(job, s) && w < |s.workers| && WorkerStep(job, s, w).Some?
    requires Complete(claims, job.count, job.chunk, |s.workers|)
    ensures Measure(job, WorkerStep(job, s, w).value, claims) < Measure(job, s, claims)
  {
    hide SumOf, CountIf, Product, Collect, ShareInv, ClaimInv, Complete, Stops;
    var s' := WorkerStep(job, s, w).value;
    assert WorkerInv(job, s, w);
    SumUpdate(Remaining<R>(), s.workers, w, s'.workers[w]);
    if s.workers[w].pc.Claim? {
      IndexIsWord(job, s);
      ChunkLength(job, s, w);
      LastBounded(job, s, w);
      ClaimsBounded(job, s, claims);
      ProductNext(claims - s.claims - 1, job.chunk + 3);
    }
  }

  lemma IndexIsWord<R>(job: Job<R>, s: State<R>)
    requires Inv(job, s)
    ensures s.workIndex < WORD
  {
  }

  lemma ChunkLength<R>(job: Job<R>, s: State<R>, w: nat)
    requires job.chunk < WORD && w < |s.workers| && s.workers[w].pc.Claim? && s.workIndex < WORD
    ensures
      var x := WorkerStep(job, s, w).value.workers[w];
      x.pc.Loop? && (x.pc.i < x.pc.end ==> x.pc.end - x.pc.i == job.chunk)
  {
  }

  /** In a call that makes so many claims no execution is longer than the measure of its first state. */
  lemma {:induction false} TerminatesIn<R>(job: Job<R>, states: seq<State<R>>, labels: seq<Label>, claims: nat)
    requires Execution(job, states, labels) && job.chunk < WORD && |states[0].workers| > 0
    requires Complete(claims, job.count, job.chunk, |states[0].workers|)
    ensures |labels| + Measure(job, states[|labels|], claims) <= Measure(job, states[0], claims)
    ensures states[|labels|].claims <= claims
  {
    hide Inv, Init, Measure, Complete;
    var n := |labels|;
    ReachableInv(job, states, labels, n);
    ClaimsBounded(job, states[n], claims);
    if n > 0 {
      TerminatesIn(job, states[..n], labels[..n - 1], claims);
      ReachableInv(job, states, labels, n - 1);
      assert Next(job, states[n - 1], labels[n - 1]) == Some(states[n]);
      if labels[n - 1].Call? {
        CallDecreases(job, states[n - 1], claims);
      } else {
        WorkDecreases(job, states[n - 1], labels[n - 1].w, claims);
      }
    }
  }

  /** Without wrapping ParallelFor terminates within the claims it is known to make. */
  lemma Terminates<R>(job: Job<R>, states: seq<State<R>>, labels: seq<Label>)
    requires Execution(job, states, labels) && NoWrap(job.count, job.chunk, |states[0].workers|)
    ensures
      var claims := FullClaims(job.count, job.chunk) + |states[0].workers|;
      && Complete(claims, job.count, job.chunk, |states[0].workers|)
      && |labels| + Measure(job, states[|labels|], claims) <= Measure(job, states[0], claims)
      && states[|labels|].claims <= claims
  {
    hide NoWrap, Measure, Init, Next;
    var workers := |states[0].workers|;
    NoWrapSized(job.count, job.chunk, workers);
    NoWrapCounts(FullClaims(job.count, job.chunk) + workers, job.count, job.chunk, workers);
    NoWrapCounts(FullClaims(job.count, job.chunk) + workers - 1, job.count, job.chunk, workers);
    TerminatesIn(job, states, labels, FullClaims(job.count, job.chunk) + workers);
  }

  lemma NoWrapSized(count: nat, chunk: nat, workers: nat)
    requires NoWrap(count, chunk, workers)
    ensures 0 < chunk < WORD && workers > 0
  {
    FetchedMonotone(1, FullClaims(count, chunk) + workers - 1, chunk);
    NextFetched(0, chunk);
  }

  // ---- when it does not return ----

  lemma NeverReturned<R>(job: Job<R>, states: seq<State<R>>, labels: seq<Label>)
    requires Execution(job, states, labels) && job.chunk < WORD && |states[0].workers| > 0
    requires !Halts(job.count, job.chunk)
    ensures !states[|labels|].caller.Returned?
  {
    hide Inv, Init, Next, Halts;
    var s := states[|labels|];
    ReachableInv(job, states, labels, |labels|);
    if s.caller.Returned? {
      ReturnedIdle(job, s);
      NeverStops(s.claims, job.count, job.chunk);
    }
  }

  /** From any first state there is an execution of any length, unless one returns before. */
  lemma {:induction false} RunOn<R>(job: Job<R>, s0: State<R>, length: nat)
      returns (states: seq<State<R>>, labels: seq<Label>)
    requires Init(s0) && job.chunk < WORD && |s0.workers| > 0
    ensures Execution(job, states, labels) && states[0] == s0
    ensures |labels| == length || states[|labels|].caller.Returned?
  {
    hide Inv, Init, Next;
    if length == 0 {
      return [s0], [];
    }
    states, labels := RunOn(job, s0, length - 1);
    if |labels| == length - 1 && !states[|labels|].caller.Returned? {
      ReachableInv(job, states, labels, |labels|);
      var l := CanMove(job, states[|labels|]);
      states, labels := states + [Next(job, states[|labels|], l).value], labels + [l];
    }
  }

  // ---- both together ----

  ghost predicate LongerThan<R(!new)>(job: Job<R>, s0: State<R>, n: nat) {
    exists states: seq<State<R>>, labels: seq<Label> ::
      Execution(job, states, labels) && states[0] == s0 && |labels| > n
  }

  /** The threads can take only so many steps, whatever the schedule. */
  ghost predicate Bounded<R(!new)>(job: Job<R>, s0: State<R>) {
    exists n: nat :: !LongerThan(job, s0, n)
  }

  /** Some schedule brings the caller back. */
  ghost predicate CanReturn<R(!new)>(job: Job<R>, s0: State<R>) {
    exists states: seq<State<R>>, labels: seq<Label> ::
      Execution(job, states, labels) && states[0] == s0 && states[|labels|].caller.Returned?
  }

  lemma HaltsBounded<R(!new)>(job: Job<R>, s0: State<R>)
    requires Init(s0) && job.chunk < WORD && |s0.workers| > 0 && Halts(job.count, job.chunk)
    ensures Bounded(job, s0) && CanReturn(job, s0)
  {
    hide Init, Next, Measure, Halts;
    var claims := HaltsComplete(job.count, job.chunk, |s0.workers|);
    var n := Measure(job, s0, claims);
    if LongerThan(job, s0, n) {
      var states: seq<State<R>>, labels: seq<Label> :|
        Execution(job, states, labels) && states[0] == s0 && |labels| > n;
      TerminatesIn(job, states, labels, claims);
    }
    var states, labels := RunOn(job, s0, n + 1);
    TerminatesIn(job, states, labels, claims);
  }

  lemma NotHaltsUnbounded<R(!new)>(job: Job<R>, s0: State<R>)
    requires Init(s0) && job.chunk < WORD && |s0.workers| > 0 && !Halts(job.count, job.chunk)
    ensures !Bounded(job, s0) && !CanReturn(job, s0)
  {
    hide Init, Next, Halts;
    forall n: nat
      ensures LongerThan(job, s0, n)
    {
      var states, labels := RunOn(job, s0, n + 1);
      NeverReturned(job, states, labels);
    }
    if CanReturn(job, s0) {
      var states: seq<State<R>>, labels: seq<Label> :|
        Execution(job, states, labels) && states[0] == s0 && states[|labels|].caller.Returned?;
      NeverReturned(job, states, labels);
    }
  }

  /** ParallelFor terminates, under every schedule, exactly when it can return at all, and that is exactly
      when there are no workers or `count + LowBit(chunk) < 2^32` for the chunk size cut to 32 bits and not zero. */
  lemma TerminatesIff<R(!new)>(job: Job<R>, s0: State<R>)
    requires Init(s0)
    ensures Bounded(job, s0) <==> |s0.workers| == 0 || Halts(job.count, job.chunk % WORD)
    ensures CanReturn(job, s0) <==> |s0.workers| == 0 || Halts(job.count, job.chunk % WORD)
  {
    hide Init, Next, Halts, Execution;
    var cut := job.(chunk := job.chunk % WORD);
    CutKeeps(job, s0);
    if |s0.workers| == 0 {
      NoWorkers(job, s0);
    } else if Halts(job.count, cut.chunk) {
      HaltsBounded(cut, s0);
    } else {
      NotHaltsUnbounded(cut, s0);
    }
  }

  lemma CutExecution<R>(job: Job<R>, states: seq<State<R>>, labels: seq<Label>)
    ensures Execution(job, states, labels) <==> Execution(job.(chunk := job.chunk % WORD), states, labels)
  {
    hide Init, Next;
    if |states| == |labels| + 1 {
      forall k | 0 <= k < |labels|
        ensures Next(job, states[k], labels[k]) == Next(job.(chunk := job.chunk % WORD), states[k], labels[k])
      {
        ChunkIsCut(job, states[k], labels[k]);
      }
    }
  }

  lemma CutKeeps<R(!new)>(job: Job<R>, s0: State<R>)
    ensures Bounded(job, s0) <==> Bounded(job.(chunk := job.chunk % WORD), s0)
    ensures CanReturn(job, s0) <==> CanReturn(job.(chunk := job.chunk % WORD), s0)
  {
    hide Execution;
    var cut := job.(chunk := job.chunk % WORD);
    forall states: seq<State<R>>, labels: seq<Label>
      ensures Execution(job, states, labels) <==> Execution(cut, states, labels)
    {
      CutExecution(job, states, labels);
    }
    forall n: nat
      ensures LongerThan(job, s0, n) <==> LongerThan(cut, s0, n)
    {
    }
  }

  /** Without workers the caller publishes nothing, waits for nobody and returns with its second step. */
  lemma NoWorkers<R(!new)>(job: Job<R>, s0: State<R>)
    requires Init(s0) && |s0.workers| == 0
    ensures Bounded(job, s0) && CanReturn(job, s0)
  {
    var s1 := s0.(caller := Wait(0));
    var s2 := s0.(caller := Returned);
    assert Execution(job, [s0, s1, s2], [Call, Call]);
    if LongerThan(job, s0, 2) {
      var states: seq<State<R>>, labels: seq<Label> :|
        Execution(job, states, labels) && states[0] == s0 && |labels| > 2;
      NoWorkersAt(job, states, labels);
    }
  }

  lemma {:induction false} NoWorkersAt<R>(job: Job<R>, states: seq<State<R>>, labels: seq<Label>)
    requires Execution(job, states, labels) && |states[0].workers| == 0
    ensures |labels| <= 2 && states[|labels|].workers == []
    ensures states[|labels|].caller == if |labels| == 0 then Publish(0) else if |labels| == 1 then Wait(0) else Returned
  {
    if labels != [] {
      var n := |labels| - 1;
      NoWorkersAt(job, states[..n + 1], labels[..n]);
      assert Next(job, states[n], labels[n]) == Some(states[n + 1]);
    }
  }

  /** Two inputs at which ParallelFor never returns, whatever is scheduled: 2^32 - 1 axes in chunks of one, and
      chunks of zero. */
  lemma NeverReturnsExamples<R>(job: Job<R>, states: seq<State<R>>, labels: seq<Label>)
    requires Execution(job, states, labels) && |states[0].workers| > 0
    requires (job.count == WORD - 1 && job.chunk == 1) || job.chunk == 0
    ensures !states[|labels|].caller.Returned?
  {
    NeverReturned(job, states, labels);
  }

  /** Two inputs that wrap and return all the same. */
  lemma WrapsAndReturns()
    ensures !NoWrap(0, 0x8000_0000, 3) && Halts(0, 0x8000_0000)
    ensures !NoWrap(WORD - 2, 1, 2) && Halts(WORD - 2, 1)
  {
    hide LowBit;
    FetchedIsProduct(FullClaims(0, 0x8000_0000) + 2, 0x8000_0000);
    FetchedIsProduct(FullClaims(WORD - 2, 1) + 1, 1);
    LowBitBelow(0x8000_0000);
    LowBitBelow(1);
  }

  lemma LowBitBelow(n: nat)
    requires n > 0
    ensures LowBit(n) <= n
  {
  }
}
