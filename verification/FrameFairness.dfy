/** Progress of the frames under per-thread fairness, with any number of spurious wakeups.  A thread that tests
    its condition in vain and blocks again gets nowhere; every other step of a thread is progress. */
module FrameFairness {
  import opened Types
  import opened Counting
  import opened FrameProtocol
  import opened FrameSafety
  import opened FrameTheorems

  /** The thread is neither blocked nor about to test its condition in vain. */
  predicate Useful(s: State, l: Label) {
    match l
    case Main => !s.main.BlockedOnWakeup? && (s.main.TestWakeup? ==> s.shouldWakeup)
    case Work(w) =>
      && w < |s.workers| && !s.workers[w].pc.BlockedOnVersion?
      && (s.workers[w].pc.TestVersion? ==> s.version == s.workers[w].desiredVersion)
    case _ => false
  }

  lemma UsefulIsProgram(s: State, l: Label)
    requires Useful(s, l)
    ensures l.IsProgram() && (l.Work? ==> l.w < |s.workers|)
  {
  }

  /** Such a thread is enabled. */
  lemma UsefulCanMove(s: State, l: Label)
    requires Inv(s) && Useful(s, l)
    ensures Next(s, l).Some?
  {
    if l.Work? && s.workers[l.w].InRun() {
      assert WorkerInv(s, s.workers[l.w]);
      RunStepInv(s, l.w, s.workers[l.w].pc.actor);
    }
  }

  /** In every state some thread is useful: no wakeup is lost even for a thread that has been woken in vain. */
  lemma SomeUseful(s: State) returns (l: Label)
    requires Inv(s)
    ensures Useful(s, l)
  {
    hide CountIf, WorkInv, MailboxesInv;
    if Useful(s, Main) {
      return Main;
    }
    if w :| 0 <= w < |s.workers| && Useful(s, Work(w)) {
      return Work(w);
    }
    forall w | 0 <= w < |s.workers|
      ensures !Unfinished(s.version)(s.workers[w]) && !Raising()(s.workers[w])
    {
      assert WorkerInv(s, s.workers[w]) && !Useful(s, Work(w));
    }
    CountZero(Unfinished(s.version), s.workers);
    CountZero(Raising(), s.workers);
    assert false;
  }

  // ---- a measure that waiting and vain tests do not touch ----

  function PaceOf(version: nat, w: Worker): nat {
    if w.pc.TestVersion? || w.pc.BlockedOnVersion? then (if w.desiredVersion == version then 6 else 0)
    else WorkerRank(version)(w)
  }

  function Pace(version: nat): Worker -> nat {
    (w: Worker) => PaceOf(version, w)
  }

  function MainPace(s: State): nat {
    match s.main
    case NotifyAll => 5
    case TestWakeup => 4
    case BlockedOnWakeup => 4
    case Sleeping => 3
    case StoreCountdown => 2
    case StoreWorkIndex => 1
    case BumpVersion => 0
  }

  function Paces(s: State): nat {
    SumOf(Pace(s.version), s.workers)
  }

  function Left(s: State): nat {
    10 * ClaimsLeft(s) + Paces(s) + MainPace(s)
  }

  predicate Less(s': State, s: State) {
    Left(s') < Left(s) || (Left(s') == Left(s) && Inner(s') < Inner(s))
  }

  predicate Same(s': State, s: State) {
    Left(s') == Left(s) && Inner(s') == Inner(s) && s'.version == s.version
  }

  lemma {:induction false} SumSame<T>(f: T -> nat, a: seq<T>, b: seq<T>)
    requires |a| == |b| && forall k :: 0 <= k < |a| ==> f(a[k]) == f(b[k])
    ensures SumOf(f, a) == SumOf(f, b)
  {
    if a != [] {
      SumSame(f, a[1..], b[1..]);
    }
  }

  lemma MainProgress(s: State)
    requires Inv(s) && Useful(s, Main) && !s.main.BumpVersion?
    ensures Less(MainStep(s).value, s)
  {
    hide CountIf, SumOf, WorkInv, MailboxesInv;
    if s.main.NotifyAll? {
      SumSame(Pace(s.version), s.workers, WakeAll(s.workers));
      SumSame(LoopLeft(), s.workers, WakeAll(s.workers));
    }
  }

  lemma WorkProgress(s: State, w: nat)
    requires Inv(s) && Useful(s, Work(w)) && WorkerStep(s, w).Some?
    ensures Less(WorkerStep(s, w).value, s)
  {
    hide Inv, WorkerStep, Left, Inner;
    if s.workers[w].InRun() {
      RunProgress(s, w);
    } else {
      BarrierProgress(s, w);
    }
  }

  lemma RunProgress(s: State, w: nat)
    requires Inv(s) && w < |s.workers| && s.workers[w].InRun() && WorkerStep(s, w).Some?
    ensures Less(WorkerStep(s, w).value, s)
  {
    hide RunMailbox, CountIf, SumOf, Stage, Reaches, BarrierInv, ClaimInv;
    var i := s.workers[w].pc.actor;
    RunMovesWorker(s, w, i);
    assert MailboxesInvAt(s, i) && s.workers[w].Holding(i);
    RunKeeps(s, w, i);
    RunStepShape(s, w, i);
    RunPosition(s.mailboxes[i], s.workers[w].pc, s.workers[w].desiredVersion, s.version);
    var s' := Next(s, Work(w)).value;
    SumUpdate(Pace(s.version), s.workers, w, s'.workers[w]);
    SumUpdate(LoopLeft(), s.workers, w, s'.workers[w]);
  }

  lemma BarrierProgress(s: State, w: nat)
    requires Inv(s) && Useful(s, Work(w)) && !s.workers[w].InRun() && WorkerStep(s, w).Some?
    ensures Left(WorkerStep(s, w).value) < Left(s)
  {
    hide RunMailbox, CountIf, SumOf, WorkInv, MailboxesInv, Paces;
    var s' := WorkerStep(s, w).value;
    assert WorkerInv(s, s.workers[w]);
    BarrierPace(s, w);
    if s.workers[w].pc.Claim? {
      NextInv(s, Work(w));
      ClaimsBounded(s');
    }
  }

  lemma BarrierPace(s: State, w: nat)
    requires BarrierInv(s) && Useful(s, Work(w)) && !s.workers[w].InRun() && WorkerStep(s, w).Some?
    ensures
      var s' := WorkerStep(s, w).value;
      Paces(s') + MainPace(s') < Paces(s) + MainPace(s) + 8 * B2N(s.workers[w].pc.Claim?)
  {
    hide CountIf, SumOf, RunMailbox;
    assert WorkerInv(s, s.workers[w]);
    SumUpdate(Pace(s.version), s.workers, w, WorkerStep(s, w).value.workers[w]);
    if s.workers[w].pc.RaiseWakeup? {
      CountPositive(Raising(), s.workers, w);
      CountZero(Unfinished(s.version), s.workers);
    }
  }

  /** A useful step publishes the next frame or is progress. */
  lemma UsefulProgress(s: State, l: Label)
    requires Inv(s) && Useful(s, l) && Next(s, l).Some?
    ensures
      var s' := Next(s, l).value;
      s'.version > s.version || (s'.version == s.version && Less(s', s))
  {
    hide Inv, Useful, Less;
    UsefulIsProgram(s, l);
    if l.Work? {
      WorkProgress(s, l.w);
      VersionKept(s, l.w);
    } else if !s.main.BumpVersion? {
      MainProgress(s);
    }
  }

  /** Any other step, a push or a spurious wakeup included, changes neither the measure nor who is useful. */
  lemma OthersKeep(s: State, l: Label)
    requires Inv(s) && Next(s, l).Some? && !Useful(s, l)
    ensures Same(Next(s, l).value, s)
    ensures forall m :: Useful(s, m) ==> Useful(Next(s, l).value, m)
  {
    hide Inv, CountIf, SumOf, RunMailbox;
    if l.Work? || l.SpuriousWorker? {
      var x := Next(s, l).value.workers[l.w];
      SumUpdate(Pace(s.version), s.workers, l.w, x);
      SumUpdate(LoopLeft(), s.workers, l.w, x);
    }
  }

  // ---- endless runs ----

  /** Thread l is never kept from moving for good: again and again it moves or is blocked. */
  ghost predicate ServedFrom(states: nat -> State, labels: nat -> Label, l: Label, k: nat) {
    exists j: nat :: k <= j && (labels(j) == l || Next(states(j), l).None?)
  }

  ghost predicate Fair(states: nat -> State, labels: nat -> Label) {
    forall l: Label, k: nat :: l.IsProgram() ==> ServedFrom(states, labels, l, k)
  }

  /** As long as no useful step is taken the measure stands still and a useful thread stays useful. */
  lemma {:induction false} VainSteps(states: nat -> State, labels: nat -> Label, k: nat, j: nat, m: Label)
    requires Run(states, labels) && k <= j && forall i: nat :: k <= i < j ==> !Useful(states(i), labels(i))
    requires Useful(states(k), m)
    ensures Same(states(j), states(k)) && Useful(states(j), m)
  {
    hide Inv, Next, Left, Inner, Useful;
    if k < j {
      VainSteps(states, labels, k, j - 1, m);
      RunInv(states, labels, j - 1);
      assert Next(states(j - 1), labels(j - 1)) == Some(states(j));
      OthersKeep(states(j - 1), labels(j - 1));
    }
  }

  /** The next useful step. */
  lemma NextUseful(states: nat -> State, labels: nat -> Label, k: nat) returns (j: nat)
    requires Run(states, labels) && Fair(states, labels)
    ensures k <= j && Useful(states(j), labels(j)) && Same(states(j), states(k))
  {
    hide Inv, Next, Same, Useful;
    RunInv(states, labels, k);
    var m := SomeUseful(states(k));
    UsefulIsProgram(states(k), m);
    assert ServedFrom(states, labels, m, k);
    var p: nat :| k <= p && (labels(p) == m || Next(states(p), m).None?);
    j := k;
    while j < p && !Useful(states(j), labels(j))
      invariant k <= j <= p && forall i: nat :: k <= i < j ==> !Useful(states(i), labels(i))
    {
      j := j + 1;
    }
    VainSteps(states, labels, k, j, m);
    if j == p {
      RunInv(states, labels, p);
      UsefulCanMove(states(p), m);
    }
  }

  /** Every frame ends and is followed by the next: in an endless run that is fair to each thread the version is
      raised again after every moment, whatever is pushed and however often threads are woken in vain. */
  lemma {:induction false} FramesGoOnFairly(states: nat -> State, labels: nat -> Label, k: nat) returns (j: nat)
    requires Run(states, labels) && Fair(states, labels)
    ensures j > k && states(j).version > states(k).version
    decreases Left(states(k)), Inner(states(k))
  {
    hide Inv, Next, Left, Inner, Useful;
    var p := NextUseful(states, labels, k);
    RunInv(states, labels, p);
    assert Next(states(p), labels(p)) == Some(states(p + 1));
    UsefulProgress(states(p), labels(p));
    if states(p + 1).version > states(p).version {
      return p + 1;
    }
    j := FramesGoOnFairly(states, labels, p + 1);
  }
}
