/** The worker's loop over its result page, tied to the steps of the call it takes part in. */
module ParallelPages {
  import opened Types
  import opened ParallelProtocol
  import opened ParallelClaims
  import opened ParallelSafety
  import opened ParallelTheorems
  import opened ResultPages

  /** What a step of a worker does to the worker itself, when the shared work index is `index`. */
  function Own<R>(job: Job<R>, me: Worker<R>, index: nat): Option<Worker<R>> {
    match WorkerStep(job, State(Returned, index, 0, [me]), 0)
    case None => None
    case Some(s) => Some(s.workers[0])
  }

  /** That is all a step changes in the list of workers. */
  lemma StepIsOwn<R>(job: Job<R>, s: State<R>, w: nat)
    requires w < |s.workers|
    ensures WorkerStep(job, s, w).Some? <==> Own(job, s.workers[w], s.workIndex).Some?
    ensures
      WorkerStep(job, s, w).Some? ==>
        WorkerStep(job, s, w).value.workers == s.workers[w := Own(job, s.workers[w], s.workIndex).value]
  {
  }

  /** A worker's own steps, one for each work index it has met. */
  function OwnRun<R>(job: Job<R>, me: Worker<R>, seen: seq<nat>): Option<Worker<R>> {
    if seen == [] then Some(me)
    else
      match OwnRun(job, me, seen[..|seen| - 1])
      case None => None
      case Some(x) => Own(job, x, seen[|seen| - 1])
  }

  /** The values its claims have fetched. */
  function Claimed<R>(job: Job<R>, me: Worker<R>, seen: seq<nat>): seq<nat> {
    if seen == [] then []
    else
      var n := |seen| - 1;
      var x := OwnRun(job, me, seen[..n]);
      Claimed(job, me, seen[..n]) + if x.Some? && x.value.pc.Claim? then [seen[n]] else []
  }

  /** The worker as the caller has just raised its flag. */
  predicate Published<R>(me: Worker<R>) {
    me.pc == WaitFlag && me.flag && !me.finished
  }

  // ---- a worker's part of an execution ----

  /** The work indices worker w has met in the steps from `from` on. */
  ghost function Seen<R>(states: seq<State<R>>, labels: seq<Label>, from: nat, w: nat): seq<nat>
    requires |states| == |labels| + 1
    decreases |labels|
  {
    var n := |labels|;
    if n <= from then []
    else
      Seen(states[..n], labels[..n - 1], from, w) + if labels[n - 1] == Work(w) then [states[n - 1].workIndex] else []
  }

  /** The caller has already raised worker w's flag. */
  predicate Past(caller: Caller, w: nat) {
    caller.Publish? ==> w < caller.k
  }

  /** From the moment its flag is raised, a worker's part of an execution is a run of its own steps. */
  lemma {:induction false} ExecutionRuns<R>(job: Job<R>, states: seq<State<R>>, labels: seq<Label>, from: nat, w: nat)
    requires Execution(job, states, labels) && from <= |labels|
    requires w < |states[from].workers| && Past(states[from].caller, w)
    ensures |states[|labels|].workers| == |states[from].workers| && Past(states[|labels|].caller, w)
    ensures OwnRun(job, states[from].workers[w], Seen(states, labels, from, w)) == Some(states[|labels|].workers[w])
    decreases |labels|
  {
    hide Init, Own;
    var n := |labels|;
    if n > from {
      ExecutionRuns(job, states[..n], labels[..n - 1], from, w);
      assert Next(job, states[n - 1], labels[n - 1]) == Some(states[n]);
      var before := Seen(states[..n], labels[..n - 1], from, w);
      if labels[n - 1].Work? {
        var index := states[n - 1].workIndex;
        StepIsOwn(job, states[n - 1], labels[n - 1].w);
        if labels[n - 1].w == w {
          assert (before + [index])[..|before|] == before;
          assert Seen(states, labels, from, w) == before + [index];
        } else {
          assert Seen(states, labels, from, w) == before;
        }
      } else {
        assert Seen(states, labels, from, w) == before;
      }
    }
  }

  /** The step that raises worker w's flag, in an execution that has come past it. */
  lemma {:induction false} FlagRaised<R>(job: Job<R>, states: seq<State<R>>, labels: seq<Label>, w: nat)
      returns (from: nat)
    requires Execution(job, states, labels) && job.chunk < WORD && w < |states[0].workers|
    requires Past(states[|labels|].caller, w)
    ensures 0 < from <= |labels| && w < |states[from].workers| && Past(states[from].caller, w)
    ensures Published(states[from].workers[w]) && states[from].workers[w].results == []
    decreases |labels|
  {
    hide ClaimInv, ShareInv;
    var n := |labels|;
    assert n > 0;
    ReachableInv(job, states, labels, n - 1);
    assert Next(job, states[n - 1], labels[n - 1]) == Some(states[n]);
    if Past(states[n - 1].caller, w) {
      from := FlagRaised(job, states[..n], labels[..n - 1], w);
    } else {
      from := n;
      assert WorkerInv(job, states[n - 1], w);
    }
  }

  /** A worker's part of a call that has returned: a run of its own steps from its raised flag, with no
      results, to its end. */
  lemma PartOfCall<R>(job: Job<R>, states: seq<State<R>>, labels: seq<Label>, w: nat) returns (from: nat)
    requires Execution(job, states, labels) && job.chunk < WORD && w < |states[0].workers|
    requires states[|labels|].caller.Returned?
    ensures from <= |labels| && w < |states[from].workers| && w < |states[|labels|].workers|
    ensures Published(states[from].workers[w]) && states[from].workers[w].results == []
    ensures states[|labels|].workers[w].finished
    ensures OwnRun(job, states[from].workers[w], Seen(states, labels, from, w)) == Some(states[|labels|].workers[w])
  {
    hide Inv, Init, Next;
    from := FlagRaised(job, states, labels, w);
    ExecutionRuns(job, states, labels, from, w);
    ReachableInv(job, states, labels, |labels|);
    ReturnedIdle(job, states[|labels|]);
  }

  // ---- the loop over the page ----

  lemma {:induction false} PrefixRuns<R>(job: Job<R>, me: Worker<R>, seen: seq<nat>, p: nat)
    requires OwnRun(job, me, seen).Some? && p < |seen|
    ensures OwnRun(job, me, seen[..p]).Some?
    ensures OwnRun(job, me, seen[..p + 1]) == Own(job, OwnRun(job, me, seen[..p]).value, seen[p])
    ensures OwnRun(job, me, seen[..p + 1]).Some?
    ensures Claimed(job, me, seen[..p + 1]) <= Claimed(job, me, seen)
    ensures
      Claimed(job, me, seen[..p + 1]) ==
      Claimed(job, me, seen[..p]) + if OwnRun(job, me, seen[..p]).value.pc.Claim? then [seen[p]] else []
  {
    hide Own;
    var n := |seen| - 1;
    assert seen[..p + 1][..p] == seen[..p];
    if p < n {
      PrefixRuns(job, me, seen[..n], p);
      assert seen[..n][..p] == seen[..p] && seen[..n][..p + 1] == seen[..p + 1];
    } else {
      assert seen[..p + 1] == seen;
    }
  }

  /** Once the worker has met an index without an axis its results stay. */
  lemma {:induction false} ResultsStay<R>(job: Job<R>, me: Worker<R>, seen: seq<nat>, p: nat)
    requires OwnRun(job, me, seen).Some? && p <= |seen| && OwnRun(job, me, seen[..p]).Some?
    requires var x := OwnRun(job, me, seen[..p]).value; x.pc.LowerFlag? || (x.pc.WaitFlag? && !x.flag)
    ensures var y := OwnRun(job, me, seen).value; y.pc.LowerFlag? || (y.pc.WaitFlag? && !y.flag)
    ensures OwnRun(job, me, seen).value.results == OwnRun(job, me, seen[..p]).value.results
  {
    var n := |seen| - 1;
    if p < |seen| {
      assert seen[..n][..p] == seen[..p];
      ResultsStay(job, me, seen[..n], p);
    } else {
      assert seen[..p] == seen;
    }
  }

  /** The caller empties every page before it raises the flags. */
  method ResetAll(threadResults: seq<WorkerThreadResult>)
    requires forall r :: r in threadResults ==> r.Valid()
    modifies (set r | r in threadResults)`ElementCount
    ensures Holding(threadResults, seq(|threadResults|, t => []))
  {
    for k := 0 to |threadResults|
      invariant forall r :: r in threadResults ==> r.Valid()
      invariant forall t :: 0 <= t < k ==> threadResults[t].ElementCount == 0
    {
      threadResults[k].Reset();
    }
  }

  /** How far the loop has got in the worker's steps. */
  ghost predicate Reached<R>(job: Job<R>, me: Worker<R>, seen: seq<nat>, p: nat, x: Worker<R>, claims: nat) {
    && p <= |seen| && OwnRun(job, me, seen[..p]) == Some(x) && !x.finished
    && Claimed(job, me, seen[..p]) <= Claimed(job, me, seen) && claims == |Claimed(job, me, seen[..p])|
  }

  /** The next step is one the loop takes too. */
  lemma OneFurther<R>(job: Job<R>, me: Worker<R>, seen: seq<nat>, p: nat, x: Worker<R>, claims: nat)
    requires OwnRun(job, me, seen).Some? && OwnRun(job, me, seen).value.finished && Reached(job, me, seen, p, x, claims)
    requires x.pc.Claim? || x.pc.Loop?
    ensures p < |seen| && Own(job, x, seen[p]).Some?
    ensures x.pc.Claim? ==> claims < |Claimed(job, me, seen)| && Claimed(job, me, seen)[claims] == seen[p]
    ensures Reached(job, me, seen, p + 1, Own(job, x, seen[p]).value, if x.pc.Claim? then claims + 1 else claims)
  {
    assert seen[..|seen|] == seen;
    PrefixRuns(job, me, seen, p);
  }

  /** The worker's part of a call on its page: whatever values its claims fetch, the page ends up holding
      exactly the results that the steps give the worker. */
  method WorkOnPage(job: Job<seq<byte>>, fetched: seq<nat>, base: nat, page: WorkerThreadResult,
                    ghost me: Worker<seq<byte>>, ghost seen: seq<nat>)
    requires page.Valid() && (base > 0 || page.elementSize == 0)
    requires forall i: nat :: job.task(i).Some? ==> |job.task(i).value| == page.elementSize
    requires Published(me) && page.Elements() == me.results
    requires OwnRun(job, me, seen).Some? && OwnRun(job, me, seen).value.finished
    requires fetched == Claimed(job, me, seen)
    modifies page, page.Page
    ensures page.Valid() && page.Elements() == OwnRun(job, me, seen).value.results
    ensures page.Page == old(page.Page) || fresh(page.Page)
  {
    hide OwnRun, Claimed, WorkerThreadResult.Valid, WorkerThreadResult.Elements;
    var claims := 0;
    ghost var p, x := Woken(job, me, seen);
    while true
      invariant page.Valid() && page.Elements() == x.results && (page.Page == old(page.Page) || fresh(page.Page))
      invariant Reached(job, me, seen, p, x, claims) && x.pc.Claim?
      decreases |seen| - p
    {
      OneFurther(job, me, seen, p, x, claims);
      var workEnd := fetched[claims];
      claims := claims + 1;
      x, p := Own(job, x, seen[p]).value, p + 1;
      var i: nat := Minus32(workEnd, job.chunk);
      while i < workEnd
        invariant page.Valid() && page.Elements() == x.results && (page.Page == old(page.Page) || fresh(page.Page))
        invariant Reached(job, me, seen, p, x, claims) && x.pc == Loop(i, workEnd)
        decreases |seen| - p
      {
        OneFurther(job, me, seen, p, x, claims);
        x, p := Own(job, x, seen[p]).value, p + 1;
        if i >= job.count {
          ResultsStay(job, me, seen, p);
          return;
        }
        var result := job.task(i);
        if result.Some? {
          page.Append(base, result.value);
        }
        i := Plus32(i, 1);
      }
      OneFurther(job, me, seen, p, x, claims);
      x, p := Own(job, x, seen[p]).value, p + 1;
    }
  }

  /** The first step of a worker whose flag is up. */
  lemma Woken<R>(job: Job<R>, me: Worker<R>, seen: seq<nat>) returns (p: nat, x: Worker<R>)
    requires Published(me) && OwnRun(job, me, seen).Some? && OwnRun(job, me, seen).value.finished
    ensures Reached(job, me, seen, p, x, 0) && x.pc.Claim? && x.results == me.results
  {
    PrefixRuns(job, me, seen, 0);
    p, x := 1, OwnRun(job, me, seen[..1]).value;
  }

  /** What the caller finds: when no claim has started over, under every interleaving, iterating over the
      returned pages visits the non-null result of every index below the count exactly once and nothing else. */
  method VisitReturned(threadResults: seq<WorkerThreadResult>, ghost job: Job<seq<byte>>,
                       ghost states: seq<State<seq<byte>>>, ghost labels: seq<Label>)
    returns (visited: seq<seq<byte>>)
    requires Execution(job, states, labels) && states[|labels|].caller.Returned?
    requires 0 < job.chunk < WORD && |states[0].workers| > 0
    requires NoReturn(states[|labels|].claims, job.count, job.chunk)
    requires Holding(threadResults, ResultsOf(states[|labels|].workers))
    ensures forall r: seq<byte> :: multiset(visited)[r] == |set i: nat | i < job.count && job.task(i) == Some(r)|
    ensures multiset(visited) == multiset(Collect(job.task, Indices(job.count)))
  {
    hide Holding, NoReturn, Init, Next, Indices, Collect;
    visited := VisitAll(threadResults, ResultsOf(states[|labels|].workers));
    ResultsComplete(job, states, labels);
  }
}
