/** What ParallelFor guarantees over whole executions. */
module ParallelTheorems {
  import opened Types
  import opened Counting
  import opened ParallelProtocol
  import opened ParallelClaims
  import opened ParallelSafety

  lemma {:induction false} ReachableInv<R>(job: Job<R>, states: seq<State<R>>, labels: seq<Label>, k: nat)
    requires Execution(job, states, labels) && job.chunk < WORD && |states[0].workers| > 0 && k < |states|
    ensures Inv(job, states[k]) && |states[k].workers| == |states[0].workers|
  {
    hide Inv, Init;
    if k == 0 {
      InitInv(job, states[0]);
    } else {
      ReachableInv(job, states, labels, k - 1);
      assert Next(job, states[k - 1], labels[k - 1]) == Some(states[k]);
      NextInv(job, states[k - 1], labels[k - 1]);
    }
  }

  // ---- exactly once ----

  function TimesRan<R>(i: nat): Worker<R> -> nat {
    (w: Worker<R>) => multiset(w.ran)[i]
  }

  lemma {:induction false} RanCount<R>(ws: seq<Worker<R>>, i: nat)
    ensures multiset(AllRan(ws))[i] == SumOf(TimesRan(i), ws)
  {
    if ws != [] {
      var n := |ws| - 1;
      assert RanBy(ws)[..n] == RanBy(ws[..n]) && ws == ws[..n] + [ws[n]];
      RanCount(ws[..n], i);
      SumSnoc(TimesRan(i), ws[..n], ws[n]);
    }
  }

  lemma {:induction false} SumBelow<T>(f: T -> nat, g: T -> nat, s: seq<T>)
    requires forall k :: 0 <= k < |s| ==> f(s[k]) <= g(s[k])
    ensures SumOf(f, s) <= SumOf(g, s)
    ensures (forall k :: 0 <= k < |s| ==> f(s[k]) == g(s[k])) ==> SumOf(f, s) == SumOf(g, s)
  {
    if s != [] {
      SumBelow(f, g, s[1..]);
    }
  }

  /** Up to any moment an index has been run at most as often as claims have taken it, and an index without
      an axis never. */
  lemma RanAtMostHits<R>(job: Job<R>, s: State<R>, i: nat)
    requires Inv(job, s)
    ensures multiset(AllRan(s.workers))[i] <= if i < job.count then Hits(s.claims, job.chunk, i) else 0
  {
    RanCount(s.workers, i);
    if i < job.count {
      SumBelow(TimesRan(i), Share(i), s.workers);
    } else {
      forall w | 0 <= w < |s.workers|
        ensures TimesRan(i)(s.workers[w]) == 0
      {
        assert WorkerInv(job, s, w);
        assert i !in s.workers[w].ran;
      }
      SumZero(TimesRan(i), s.workers);
    }
  }

  /** At no moment has any index been run twice as long as no claim has started over, and no index without an
      axis is ever run. */
  lemma NeverTwice<R>(job: Job<R>, states: seq<State<R>>, labels: seq<Label>, k: nat, i: nat)
    requires Execution(job, states, labels) && 0 < job.chunk < WORD && |states[0].workers| > 0
    requires k < |states| && NoReturn(states[k].claims, job.count, job.chunk)
    ensures multiset(AllRan(states[k].workers))[i] <= B2N(i < job.count)
  {
    hide Execution, Inv, Hits, NoReturn;
    var s := states[k];
    ReachableInv(job, states, labels, k);
    RanAtMostHits(job, s, i);
    if i < job.count {
      NoReturnHits(s.claims, job.count, job.chunk, i);
    }
  }

  lemma IndicesOnce(n: nat, i: nat)
    ensures multiset(Indices(n))[i] == B2N(i < n)
  {
    if n > 0 {
      IndicesOnce(n - 1, i);
      assert Indices(n) == Indices(n - 1) + [n - 1];
    }
  }

  /** When the call returns every flag is down, and the claims made are those of a complete call. */
  lemma ReturnedIdle<R>(job: Job<R>, s: State<R>)
    requires Inv(job, s) && s.caller.Returned?
    ensures forall w :: 0 <= w < |s.workers| ==>
            !s.workers[w].flag && s.workers[w].pc == WaitFlag && s.workers[w].finished
    ensures Complete(s.claims, job.count, job.chunk, |s.workers|)
  {
    hide CountIf, Stops, Complete;
    forall w | 0 <= w < |s.workers|
      ensures !s.workers[w].flag && s.workers[w].pc == WaitFlag && s.workers[w].finished
    {
      assert WorkerInv(job, s, w);
    }
    CountFull(IsLast(job.count), s.workers);
  }

  /** By then every index has been run exactly as often as claims have taken it: nobody holds one any more. */
  lemma ReturnedRanHits<R>(job: Job<R>, s: State<R>, i: nat)
    requires Inv(job, s) && s.caller.Returned? && i < job.count
    ensures multiset(AllRan(s.workers))[i] == Hits(s.claims, job.chunk, i)
  {
    hide CountIf, WorkerInv;
    RanCount(s.workers, i);
    ReturnedIdle(job, s);
    SumBelow(TimesRan(i), Share(i), s.workers);
  }

  /** Exactly once if and only if no claim starts over: a call that returns has run each index below the
      count exactly once, whatever the interleaving, exactly when after claim 1 no claim of the call starts
      inside that claim's chunk.  Which claims the call makes depends on count, chunk size and number of
      workers alone; see ParallelClaims.CompleteUnique. */
  lemma ExactlyOnceIff<R>(job: Job<R>, states: seq<State<R>>, labels: seq<Label>)
    requires Execution(job, states, labels) && states[|labels|].caller.Returned?
    requires 0 < job.chunk < WORD && |states[0].workers| > 0
    ensures Complete(states[|labels|].claims, job.count, job.chunk, |states[0].workers|)
    ensures multiset(AllRan(states[|labels|].workers)) == multiset(Indices(job.count))
            <==> NoReturn(states[|labels|].claims, job.count, job.chunk)
  {
    hide Inv, Init, Next, Indices, Hits, NoReturn, Complete;
    var s := states[|labels|];
    ReachableInv(job, states, labels, |labels|);
    ReturnedIdle(job, s);
    HitsOnceIff(s.claims, job.count, job.chunk, |s.workers|);
    RanIffHits(job, s);
  }

  /** What was run is every index once exactly if the claims have taken every index once. */
  lemma RanIffHits<R>(job: Job<R>, s: State<R>)
    requires Inv(job, s) && s.caller.Returned?
    ensures multiset(AllRan(s.workers)) == multiset(Indices(job.count)) <==> HitOnce(s.claims, job.count, job.chunk)
  {
    hide Inv, Indices;
    var ran, all := multiset(AllRan(s.workers)), multiset(Indices(job.count));
    forall i: nat
      ensures all[i] == B2N(i < job.count) && ran[i] == if i < job.count then Hits(s.claims, job.chunk, i) else 0
    {
      IndicesOnce(job.count, i);
      if i < job.count {
        ReturnedRanHits(job, s, i);
      } else {
        RanAtMostHits(job, s, i);
      }
    }
    if HitOnce(s.claims, job.count, job.chunk) {
      assert forall i: nat :: ran[i] == all[i];
      assert ran == all;
    }
    if ran == all {
      forall i: nat | i < job.count
        ensures Hits(s.claims, job.chunk, i) == 1
      {
        assert ran[i] == all[i];
      }
      assert HitOnce(s.claims, job.count, job.chunk);
    }
  }

  /** With at least one chunk of axes the condition is that the last worker's last claim does not wrap. */
  lemma ExactlyOnceIffNoWrap<R>(job: Job<R>, states: seq<State<R>>, labels: seq<Label>)
    requires Execution(job, states, labels) && states[|labels|].caller.Returned?
    requires 0 < job.chunk < WORD && job.chunk <= job.count && |states[0].workers| > 0
    ensures multiset(AllRan(states[|labels|].workers)) == multiset(Indices(job.count))
            <==> NoWrap(job.count, job.chunk, |states[0].workers|)
  {
    hide Init, Next, Indices, NoReturn, Complete, NoWrap;
    ExactlyOnceIff(job, states, labels);
    NoReturnIffNoWrap(states[|labels|].claims, job.count, job.chunk, |states[0].workers|);
  }

  /** A chunk size beyond 32 bits acts as its low 32 bits. */
  lemma ChunkIsCut<R>(job: Job<R>, s: State<R>, l: Label)
    ensures Next(job, s, l) == Next(job.(chunk := job.chunk % WORD), s, l)
  {
    hide CallerStep;
    var c, q := job.chunk, job.chunk / WORD;
    SameRemainder(s.workIndex - c, s.workIndex - c % WORD, -q);
    SameRemainder(s.workIndex + c, s.workIndex + c % WORD, q);
  }

  // ---- results ----

  lemma {:induction false} CollectAppend<R>(task: nat -> Option<R>, a: seq<nat>, b: seq<nat>)
    ensures Collect(task, a + b) == Collect(task, a) + Collect(task, b)
  {
    if b == [] {
      assert a + b == a;
    } else {
      var n := |b| - 1;
      CollectAppend(task, a, b[..n]);
      assert (a + b)[..|a + b| - 1] == a + b[..n];
    }
  }

  lemma MultisetCut<T>(a: seq<T>, j: nat)
    requires j < |a|
    ensures multiset(a) == multiset(a[..j] + a[j + 1..]) + multiset{a[j]}
  {
    assert a == a[..j] + [a[j]] + a[j + 1..];
  }

  lemma SameRest<T>(a: multiset<T>, b: multiset<T>, x: T)
    requires a + multiset{x} == b + multiset{x}
    ensures a == b
  {
    assert a == a + multiset{x} - multiset{x};
    assert b == b + multiset{x} - multiset{x};
  }

  lemma SumCut<T>(a: seq<T>, x: seq<T>, b: seq<T>)
    ensures multiset(a + (x + b)) == multiset(a + b) + multiset(x)
  {
  }

  /** One index out of the middle takes its own result along and nothing else. */
  lemma CollectCut<R>(task: nat -> Option<R>, a: seq<nat>, j: nat)
    requires j < |a|
    ensures multiset(Collect(task, a)) ==
            multiset(Collect(task, a[..j] + a[j + 1..])) + multiset(Collect(task, [a[j]]))
  {
    hide Collect;
    assert a == a[..j] + ([a[j]] + a[j + 1..]);
    CollectAppend(task, a[..j], [a[j]] + a[j + 1..]);
    CollectAppend(task, [a[j]], a[j + 1..]);
    CollectAppend(task, a[..j], a[j + 1..]);
    SumCut(Collect(task, a[..j]), Collect(task, [a[j]]), Collect(task, a[j + 1..]));
  }

  /** The results depend on the indices only as a multiset. */
  lemma {:induction false} CollectPermuted<R>(task: nat -> Option<R>, a: seq<nat>, b: seq<nat>)
    requires multiset(a) == multiset(b)
    ensures multiset(Collect(task, a)) == multiset(Collect(task, b))
  {
    if a == [] {
      assert |multiset(b)| == 0;
    } else {
      var n := |a| - 1;
      assert a[n] in multiset(b);
      var j :| 0 <= j < |b| && b[j] == a[n];
      MultisetCut(a, n);
      MultisetCut(b, j);
      assert a[..n] + a[n + 1..] == a[..n];
      SameRest(multiset(a[..n]), multiset(b[..j] + b[j + 1..]), a[n]);
      CollectPermuted(task, a[..n], b[..j] + b[j + 1..]);
      CollectCut(task, a, n);
      CollectCut(task, b, j);
    }
  }

  lemma {:induction false} ResultsCollected<R>(task: nat -> Option<R>, ws: seq<Worker<R>>)
    requires forall w :: 0 <= w < |ws| ==> ws[w].results == Collect(task, ws[w].ran)
    ensures AllResults(ws) == Collect(task, AllRan(ws))
  {
    if ws != [] {
      var n := |ws| - 1;
      assert ResultsOf(ws)[..n] == ResultsOf(ws[..n]) && RanBy(ws)[..n] == RanBy(ws[..n]);
      ResultsCollected(task, ws[..n]);
      CollectAppend(task, AllRan(ws[..n]), ws[n].ran);
    }
  }

  /** Collecting: every result is there as often as there are indices in the list whose task returns it. */
  lemma {:induction false} CollectedAsOften<R>(task: nat -> Option<R>, a: seq<nat>, r: R)
    ensures multiset(Collect(task, a))[r] == |set k: nat | k < |a| && task(a[k]) == Some(r)|
  {
    if a == [] {
      assert (set k: nat | k < |a| && task(a[k]) == Some(r)) == {};
    } else {
      CollectedAsOften(task, a[..|a| - 1], r);
      OneMoreHit(task, a, r);
    }
  }

  lemma OneMoreHit<R>(task: nat -> Option<R>, a: seq<nat>, r: R)
    requires a != []
    ensures
      var n := |a| - 1;
      |set k: nat | k < |a| && task(a[k]) == Some(r)| ==
      |set k: nat | k < |a[..n]| && task(a[..n][k]) == Some(r)| + B2N(task(a[n]) == Some(r))
  {
    var n := |a| - 1;
    var hits := set k: nat | k < |a| && task(a[k]) == Some(r);
    var before := set k: nat | k < |a[..n]| && task(a[..n][k]) == Some(r);
    assert forall k: nat :: k < n ==> a[..n][k] == a[k];
    assert hits == if task(a[n]) == Some(r) then before + {n} else before;
  }

  lemma CollectedOnce<R>(task: nat -> Option<R>, n: nat, r: R)
    ensures multiset(Collect(task, Indices(n)))[r] == |set i: nat | i < n && task(i) == Some(r)|
  {
    hide Collect;
    CollectedAsOften(task, Indices(n), r);
    assert (set k: nat | k < n && task(Indices(n)[k]) == Some(r)) == set i: nat | i < n && task(i) == Some(r);
  }

  /** At every moment a worker that has started holds the results of exactly the indices it has run. */
  lemma ResultsOfRuns<R>(job: Job<R>, states: seq<State<R>>, labels: seq<Label>, k: nat, w: nat, r: R)
    requires Execution(job, states, labels) && job.chunk < WORD && k < |states| && w < |states[k].workers|
    requires states[k].workers[w].flag || states[k].workers[w].finished
    ensures
      var me := states[k].workers[w];
      multiset(me.results)[r] == |set j: nat | j < |me.ran| && job.task(me.ran[j]) == Some(r)|
  {
    hide Inv, Init, Next, Collect;
    SameWorkers(job, states, labels, k);
    ReachableInv(job, states, labels, k);
    InvAt(job, states[k], w);
    CollectedAsOften(job.task, states[k].workers[w].ran, r);
  }

  lemma InvAt<R>(job: Job<R>, s: State<R>, w: nat)
    requires Inv(job, s) && w < |s.workers|
    ensures WorkerInv(job, s, w)
  {
  }

  lemma {:induction false} SameWorkers<R>(job: Job<R>, states: seq<State<R>>, labels: seq<Label>, k: nat)
    requires Execution(job, states, labels) && k < |states|
    ensures |states[k].workers| == |states[0].workers|
  {
    hide Init;
    if k > 0 {
      SameWorkers(job, states, labels, k - 1);
      assert Next(job, states[k - 1], labels[k - 1]) == Some(states[k]);
    }
  }

  /** The results: under every interleaving, when ParallelFor returns and no claim has started over, the pages
      hold every result exactly as often as there are indices below the count whose task returns it, and every
      flag is down. */
  lemma ResultsComplete<R>(job: Job<R>, states: seq<State<R>>, labels: seq<Label>)
    requires Execution(job, states, labels) && states[|labels|].caller.Returned?
    requires 0 < job.chunk < WORD && |states[0].workers| > 0
    requires NoReturn(states[|labels|].claims, job.count, job.chunk)
    ensures
      var ws := states[|labels|].workers;
      && multiset(AllRan(ws)) == multiset(Indices(job.count))
      && (forall r: R :: multiset(AllResults(ws))[r] == |set i: nat | i < job.count && job.task(i) == Some(r)|)
      && multiset(AllResults(ws)) == multiset(Collect(job.task, Indices(job.count)))
      && (forall w :: 0 <= w < |ws| ==> !ws[w].flag)
      && (NoWrap(job.count, job.chunk, |ws|) ==>
            states[|labels|].claims == FullClaims(job.count, job.chunk) + |ws|)
  {
    hide Init, Next, RanBy, ResultsOf, Indices, NoReturn, NoWrap, Complete;
    var s := states[|labels|];
    ReachableInv(job, states, labels, |labels|);
    ExactlyOnceIff(job, states, labels);
    ReturnedIdle(job, s);
    if NoWrap(job.count, job.chunk, |s.workers|) {
      NoWrapComplete(s.claims, job.count, job.chunk, |s.workers|);
    }
    forall w | 0 <= w < |s.workers|
      ensures s.workers[w].results == Collect(job.task, s.workers[w].ran)
    {
      assert WorkerInv(job, s, w);
    }
    ResultsCollected(job.task, s.workers);
    CollectPermuted(job.task, AllRan(s.workers), Indices(job.count));
    forall r: R
      ensures multiset(AllResults(s.workers))[r] == |set i: nat | i < job.count && job.task(i) == Some(r)|
    {
      CollectedOnce(job.task, job.count, r);
    }
  }
}
