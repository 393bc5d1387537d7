/** ParallelFor as an interleaved step system: the caller raises one flag per worker and waits until all
    are down; workers claim chunks of indices with fetch_add on a shared 32-bit index until they meet an
    index without an axis.  A claim takes the chunk in front of the fetched value, so the first claim,
    which fetches 0, wraps around and finds its chunk empty. */
module ParallelProtocol {
  import opened Types

  const WORD: nat := 0x1_0000_0000

  /** Subtraction on the program's unsigned 32-bit indices. */
  function Minus32(a: nat, b: nat): (r: nat)
    ensures r < WORD
  {
    (a - b) % WORD
  }

  function Plus32(a: nat, b: nat): (r: nat)
    ensures r < WORD
  {
    (a + b) % WORD
  }

  /** Index i has an axis exactly when i < count; `task` is what the caller's task returns for it. */
  datatype Job<R> = Job(count: nat, chunk: nat, task: nat -> Option<R>)

  datatype Pc =
    | WaitFlag
    | Claim
    | Loop(i: nat, end: nat)
    | LowerFlag

  /** `ran` lists the indices whose task this worker has run and `finished` says that its work for this
      call is over; both only observe.  The results are those in its page. */
  datatype Worker<R> = Worker(pc: Pc, flag: bool, results: seq<R>, ran: seq<nat>, finished: bool)

  datatype Caller =
    | Publish(k: nat)
    | Wait(k: nat)
    | Returned

  /** `claims` counts the fetch_adds; it only observes. */
  datatype State<R> = State(caller: Caller, workIndex: nat, claims: nat, workers: seq<Worker<R>>)

  /** The call begins: the work index has just been stored.  Earlier results may still be there. */
  ghost predicate Init<R>(s: State<R>) {
    && s.caller == Publish(0) && s.workIndex == 0 && s.claims == 0
    && forall w :: 0 <= w < |s.workers| ==>
         s.workers[w].pc == WaitFlag && !s.workers[w].flag && !s.workers[w].finished && s.workers[w].ran == []
  }

  datatype Label = Call | Work(w: nat)

  function Next<R>(job: Job<R>, s: State<R>, l: Label): Option<State<R>> {
    match l
    case Call => CallerStep(s)
    case Work(w) => if w < |s.workers| then WorkerStep(job, s, w) else None
  }

  function CallerStep<R>(s: State<R>): Option<State<R>> {
    match s.caller
    case Publish(k) =>
      if k < |s.workers| then
        Some(s.(caller := Publish(k + 1), workers := s.workers[k := s.workers[k].(results := [], flag := true)]))
      else Some(s.(caller := Wait(0)))
    case Wait(k) =>
      if k >= |s.workers| then Some(s.(caller := Returned))
      else if s.workers[k].flag then None
      else Some(s.(caller := Wait(k + 1)))
    case Returned => None
  }

  function At<R>(s: State<R>, w: nat, x: Worker<R>): State<R>
    requires w < |s.workers|
  {
    s.(workers := s.workers[w := x])
  }

  function WorkerStep<R>(job: Job<R>, s: State<R>, w: nat): Option<State<R>>
    requires w < |s.workers|
  {
    var me := s.workers[w];
    match me.pc
    case WaitFlag => if me.flag then Some(At(s, w, me.(pc := Claim))) else None
    case Claim =>
      Some(At(s, w, me.(pc := Loop(Minus32(s.workIndex, job.chunk), s.workIndex)))
           .(workIndex := Plus32(s.workIndex, job.chunk), claims := s.claims + 1))
    case Loop(i, end) =>
      if i >= end then Some(At(s, w, me.(pc := Claim)))
      else if i >= job.count then Some(At(s, w, me.(pc := LowerFlag)))
      else
        var results := if job.task(i).Some? then me.results + [job.task(i).value] else me.results;
        Some(At(s, w, me.(pc := Loop(Plus32(i, 1), end), results := results, ran := me.ran + [i])))
    case LowerFlag => Some(At(s, w, me.(pc := WaitFlag, flag := false, finished := true)))
  }

  ghost predicate Execution<R>(job: Job<R>, states: seq<State<R>>, labels: seq<Label>) {
    && |states| == |labels| + 1
    && Init(states[0])
    && forall k :: 0 <= k < |labels| ==> Next(job, states[k], labels[k]) == Some(states[k + 1])
  }

  // ---- what the call is for ----

  /** The non-null results of running the task on some indices, in order. */
  function Collect<R>(task: nat -> Option<R>, indices: seq<nat>): seq<R> {
    if indices == [] then []
    else
      var rest := Collect(task, indices[..|indices| - 1]);
      var last := task(indices[|indices| - 1]);
      if last.Some? then rest + [last.value] else rest
  }

  function RanBy<R>(ws: seq<Worker<R>>): (r: seq<seq<nat>>)
    ensures |r| == |ws| && forall w :: 0 <= w < |ws| ==> r[w] == ws[w].ran
  {
    seq(|ws|, w requires 0 <= w < |ws| => ws[w].ran)
  }

  function ResultsOf<R>(ws: seq<Worker<R>>): (r: seq<seq<R>>)
    ensures |r| == |ws| && forall w :: 0 <= w < |ws| ==> r[w] == ws[w].results
  {
    seq(|ws|, w requires 0 <= w < |ws| => ws[w].results)
  }

  /** All indices run, worker by worker. */
  function AllRan<R>(ws: seq<Worker<R>>): seq<nat> {
    Concat<nat>(RanBy(ws))
  }

  /** All results, worker by worker, as the returned collection lists them. */
  function AllResults<R>(ws: seq<Worker<R>>): seq<R> {
    Concat(ResultsOf(ws))
  }

  function Indices(n: nat): (r: seq<nat>)
    ensures |r| == n && forall i :: 0 <= i < n ==> r[i] == i
  {
    seq(n, i => i)
  }
}
