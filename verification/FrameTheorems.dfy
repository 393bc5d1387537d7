/** What the frame barrier and the mailboxes guarantee over whole executions: exclusive runs, one run per
    actor and frame, loss-free in-order delivery with a bounded delay, and progress. */
module FrameTheorems {
  import opened Types
  import opened Counting
  import opened FrameProtocol
  import opened FrameSafety

  ghost predicate FullExecution(states: seq<State>, labels: seq<Label>) {
    Execution(states, labels) && Init(states[0])
  }

  lemma {:induction false} ReachableInv(states: seq<State>, labels: seq<Label>, k: nat)
    requires FullExecution(states, labels) && k < |states|
    ensures Inv(states[k])
  {
    if k == 0 {
      InitInv(states[0]);
    } else {
      ReachableInv(states, labels, k - 1);
      NextInv(states[k - 1], labels[k - 1]);
    }
  }

  /** No actor is ever inside Run on two workers. */
  lemma RunsAreExclusive(states: seq<State>, labels: seq<Label>, k: nat, v: nat, w: nat, i: nat)
    requires FullExecution(states, labels) && k < |states|
    requires v < |states[k].workers| && w < |states[k].workers|
    requires states[k].workers[v].Running(i) && states[k].workers[w].Running(i)
    ensures v == w
  {
    ReachableInv(states, labels, k);
    assert WorkerInv(states[k], states[k].workers[w]);
    SoleHolder(states[k], w, i);
  }

  /** The main thread leaves its wait only when every actor has run exactly `version` times, nobody is
      still inside Run, the index was claimed A + N times and the wake flag was raised once per frame. */
  lemma LeavingTheWait(states: seq<State>, labels: seq<Label>, k: nat)
    requires FullExecution(states, labels) && k < |labels|
    requires states[k].InFrame() && !states[k + 1].InFrame()
    ensures forall i :: 0 <= i < |states[k].mailboxes| ==> states[k].mailboxes[i].runs == states[k].version
    ensures forall w, i: nat | 0 <= w < |states[k].workers| :: !states[k].workers[w].Holding(i)
    ensures states[k].workIndex == |states[k].mailboxes| + |states[k].workers|
    ensures states[k].raised == states[k].version
  {
    ReachableInv(states, labels, k);
    assert states[k].shouldWakeup;
    FrameOver(states[k]);
  }

  // ---- delivery ----

  /** The messages a schedule pushes to actor i, in order. */
  function Pushed(labels: seq<Label>, i: nat): seq<DynamicMessage> {
    if labels == [] then []
    else
      var l := labels[|labels| - 1];
      Pushed(labels[..|labels| - 1], i) + (if l.Push? && l.actor == i then [l.message] else [])
  }

  /** Only a push to actor i changes its history, and only by appending. */
  lemma HistoryStep(s: State, l: Label, i: nat)
    requires Inv(s) && Next(s, l).Some? && i < |s.mailboxes|
    ensures
      var s' := Next(s, l).value;
      && |s'.mailboxes| == |s.mailboxes|
      && s'.mailboxes[i].history == s.mailboxes[i].history + (if l.Push? && l.actor == i then [l.message] else [])
  {
    if l.Work? && s.workers[l.w].InRun() {
      HistoryInRun(s, l.w, i);
    } else {
      hide Inv, CountIf;
    }
  }

  lemma HistoryInRun(s: State, w: nat, i: nat)
    requires Inv(s) && w < |s.workers| && s.workers[w].InRun() && i < |s.mailboxes|
    ensures Next(s, Work(w)).Some?
    ensures
      var s' := Next(s, Work(w)).value;
      |s'.mailboxes| == |s.mailboxes| && s'.mailboxes[i].history == s.mailboxes[i].history
  {
    hide RunMailbox, CountIf, Stage, Reaches, BarrierInv, ClaimInv, Next, WorkerStep;
    var k := s.workers[w].pc.actor;
    RunMovesWorker(s, w, k);
    assert MailboxesInvAt(s, k);
    RunKeeps(s, w, k);
    RunStepShape(s, w, k);
  }

  lemma {:induction false} HistoryIsPushed(states: seq<State>, labels: seq<Label>, k: nat, i: nat)
    requires FullExecution(states, labels) && k < |states|
    ensures |states[k].mailboxes| == |states[0].mailboxes|
    ensures i < |states[0].mailboxes| ==> states[k].mailboxes[i].history == Pushed(labels[..k], i)
  {
    if k > 0 {
      HistoryIsPushed(states, labels, k - 1, i);
      assert labels[..k][..k - 1] == labels[..k - 1];
      ReachableInv(states, labels, k - 1);
      assert Next(states[k - 1], labels[k - 1]) == Some(states[k]);
      if i < |states[0].mailboxes| {
        HistoryStep(states[k - 1], labels[k - 1], i);
      }
    }
  }

  /** At every moment what was handled, what the running loop has left and what waits in the push queue
      add up to exactly the pushes so far, in push order: each message is handled at most once. */
  lemma DeliveryConserves(states: seq<State>, labels: seq<Label>, k: nat, i: nat)
    requires FullExecution(states, labels) && k < |states| && i < |states[0].mailboxes|
    ensures i < |states[k].mailboxes| && states[k].mailboxes[i].WellFormed()
    ensures
      var mb := states[k].mailboxes[i];
      && mb.handled + mb.ReadQueue()[mb.taken..] + mb.PushQueue() == Pushed(labels[..k], i)
      && mb.handled <= Pushed(labels[..k], i)
  {
    ReachableInv(states, labels, k);
    HistoryIsPushed(states, labels, k, i);
    assert MailboxInv(states[k], i);
  }

  /** One step never lowers the version or shortens a history, and re-marks it only when the version moves. */
  lemma MarksStep(s: State, l: Label, i: nat)
    requires Inv(s) && Next(s, l).Some? && i < |s.mailboxes|
    ensures
      var s' := Next(s, l).value;
      && |s'.mailboxes| == |s'.marks| == |s.mailboxes|
      && s.version <= s'.version && |s.mailboxes[i].history| <= |s'.mailboxes[i].history|
      && s'.marks[i] == if s.version < s'.version then |s.mailboxes[i].history| else s.marks[i]
  {
    HistoryStep(s, l, i);
  }

  lemma MarksStepAt(states: seq<State>, labels: seq<Label>, k: nat, i: nat)
    requires FullExecution(states, labels) && k < |labels| && i < |states[0].mailboxes|
    ensures |states[k].mailboxes| == |states[k + 1].mailboxes| == |states[k + 1].marks| == |states[0].mailboxes|
    ensures states[k].version <= states[k + 1].version
    ensures |states[k].mailboxes[i].history| <= |states[k + 1].mailboxes[i].history|
    ensures |states[k].marks| == |states[0].mailboxes|
    ensures states[k + 1].marks[i] ==
            if states[k].version < states[k + 1].version then |states[k].mailboxes[i].history| else states[k].marks[i]
  {
    ReachableInv(states, labels, k);
    HistoryIsPushed(states, labels, k, i);
    assert Next(states[k], labels[k]) == Some(states[k + 1]);
    MarksStep(states[k], labels[k], i);
  }

  /** The marks of a later frame cover everything pushed up to an earlier one. */
  lemma {:induction false} MarksCover(states: seq<State>, labels: seq<Label>, j: nat, k: nat, i: nat)
    requires FullExecution(states, labels) && j <= k < |states| && i < |states[0].mailboxes|
    ensures |states[j].mailboxes| == |states[k].mailboxes| == |states[0].mailboxes|
    ensures states[j].version <= states[k].version
    ensures |states[j].mailboxes[i].history| <= |states[k].mailboxes[i].history|
    ensures states[j].version < states[k].version ==>
              |states[k].marks| == |states[0].mailboxes| && |states[j].mailboxes[i].history| <= states[k].marks[i]
  {
    hide Inv, Init, Next, Pushed;
    if j == k {
      HistoryIsPushed(states, labels, k, i);
    } else {
      MarksCover(states, labels, j, k - 1, i);
      MarksStepAt(states, labels, k - 1, i);
    }
  }

  /** Bounded delay: whatever had been pushed while the version was v has been handled once a later
      frame is over. */
  lemma HandledByTheNextFrame(states: seq<State>, labels: seq<Label>, j: nat, k: nat, i: nat)
    requires FullExecution(states, labels) && j <= k < |states| && i < |states[0].mailboxes|
    requires states[j].version < states[k].version && !states[k].InFrame()
    ensures i < |states[k].mailboxes| && Pushed(labels[..j], i) <= states[k].mailboxes[i].handled
  {
    ReachableInv(states, labels, k);
    MarksCover(states, labels, j, k, i);
    DeliveryConserves(states, labels, k, i);
    HistoryIsPushed(states, labels, j, i);
    assert ClaimInv(states[k], i) && MailboxInv(states[k], i);
    PushedPrefix(labels, j, k, i);
  }

  lemma {:induction false} PushedPrefix(labels: seq<Label>, j: nat, k: nat, i: nat)
    requires j <= k <= |labels|
    ensures Pushed(labels[..j], i) <= Pushed(labels[..k], i)
  {
    if j < k {
      PushedPrefix(labels, j, k - 1, i);
      assert labels[..k][..k - 1] == labels[..k - 1];
    }
  }

  // ---- progress ----

  /** A thread can always move without a spurious wakeup: the barrier cannot deadlock or lose a wakeup. */
  lemma ProgramCanMove(s: State) returns (l: Label)
    requires Inv(s)
    ensures l.IsProgram() && Next(s, l).Some?
  {
    if !s.main.BlockedOnWakeup? {
      return Main;
    }
    if w :| 0 <= w < |s.workers| && !s.workers[w].pc.BlockedOnVersion? {
      l := Work(w);
      if s.workers[w].InRun() {
        RunStepInv(s, w, s.workers[w].pc.actor);
      }
    } else {
      // everybody blocked: then the countdown is zero and somebody is about to raise the flag
      assert forall w :: 0 <= w < |s.workers| ==> WorkerInv(s, s.workers[w]);
      CountZero(Unfinished(s.version), s.workers);
      CountZero(Raising(), s.workers);
      assert false;
    }
  }

  function WorkerRank(version: nat): Worker -> nat {
    (w: Worker) =>
      match w.pc
      case Claimed(_) => 12
      case TestReadQueue(_) => 11
      case Flip(_) => 10
      case BeginLoop(_) => 9
      case Handle(_, _, _) => 8
      case Clear(_) => 7
      case Tick(_) => 6
      case Claim => 5
      case RaiseWakeup => 4
      case Advance => if w.desiredVersion == version then 2 else 7
      case TestVersion => if w.desiredVersion == version then 6 else 1
      case BlockedOnVersion => if w.desiredVersion == version then 7 else 0
  }

  function MainRank(s: State): nat {
    match s.main
    case NotifyAll => 6 + |s.workers|
    case TestWakeup => 5
    case BlockedOnWakeup => 4
    case Sleeping => 3
    case StoreCountdown => 2
    case StoreWorkIndex => 1
    case BumpVersion => 0
  }

  /** Messages a worker has still to hand over in the loop it is in. */
  function LoopLeft(): Worker -> nat {
    (w: Worker) => if w.pc.Handle? && w.pc.end >= w.pc.next then w.pc.end - w.pc.next else 0
  }

  /** Claims still to come in this frame: each frame is worth A + N of them. */
  function ClaimsLeft(s: State): nat {
    if s.InFrame() && s.workIndex <= |s.mailboxes| + |s.workers| then |s.mailboxes| + |s.workers| - s.workIndex else 0
  }

  function WorkerRanks(s: State): nat {
    SumOf(WorkerRank(s.version), s.workers)
  }

  /** What is left of the frame, counting each message loop as one position. */
  function Outer(s: State): nat {
    10 * ClaimsLeft(s) + WorkerRanks(s) + MainRank(s)
  }

  /** What is left of the message loops that workers are in.  A loop ends where the read queue ended when
      it began, so pushes do not lengthen it. */
  function Inner(s: State): nat {
    SumOf(LoopLeft(), s.workers)
  }

  /** Lexicographic progress. */
  predicate Lower(s': State, s: State) {
    Outer(s') < Outer(s) || (Outer(s') == Outer(s) && Inner(s') < Inner(s))
  }

  lemma ClaimsBounded(s: State)
    requires Inv(s) && s.InFrame()
    ensures s.workIndex <= |s.mailboxes| + |s.workers|
  {
    CountBound(PastEnd(|s.mailboxes|, s.version), s.workers);
  }

  lemma MainDecreases(s: State)
    requires Inv(s) && MainStep(s).Some? && !s.main.BumpVersion?
    ensures Lower(MainStep(s).value, s)
  {
    if s.main.NotifyAll? {
      SumGrowth(WorkerRank(s.version), s.workers, WakeAll(s.workers));
    }
  }

  /** Every step of a worker is progress, whatever it handles. */
  lemma WorkDecreases(s: State, w: nat)
    requires Inv(s) && w < |s.workers| && WorkerStep(s, w).Some?
    ensures Lower(WorkerStep(s, w).value, s)
  {
    hide Inv, WorkerStep, Outer, Inner;
    if s.workers[w].InRun() {
      RunDecreases(s, w);
    } else {
      BarrierDecreases(s, w);
    }
  }

  lemma RunDecreases(s: State, w: nat)
    requires Inv(s) && w < |s.workers| && s.workers[w].InRun() && WorkerStep(s, w).Some?
    ensures Lower(WorkerStep(s, w).value, s)
  {
    hide RunMailbox, CountIf, SumOf, BarrierInv, WorkInv, MailboxesInv, WorkerStep, Inner, WorkerRanks;
    RunMovesWorker(s, w, s.workers[w].pc.actor);
    RunRank(s, w);
    assert WorkerStep(s, w) == Next(s, Work(w));
  }

  lemma BarrierDecreases(s: State, w: nat)
    requires Inv(s) && w < |s.workers| && !s.workers[w].InRun() && WorkerStep(s, w).Some?
    ensures Outer(WorkerStep(s, w).value) < Outer(s)
  {
    hide RunMailbox, CountIf, SumOf, WorkInv, MailboxesInv, WorkerRanks;
    var s' := WorkerStep(s, w).value;
    assert WorkerInv(s, s.workers[w]);
    BarrierRank(s, w);
    if s.workers[w].pc.Claim? {
      NextInv(s, Work(w));
      ClaimsBounded(s');
    }
  }

  /** Outside Run every step but a claim lowers the ranks; a claim pays with the claims that are left. */
  lemma BarrierRank(s: State, w: nat)
    requires BarrierInv(s) && w < |s.workers| && !s.workers[w].InRun() && WorkerStep(s, w).Some?
    ensures
      var s' := WorkerStep(s, w).value;
      WorkerRanks(s') + MainRank(s') < WorkerRanks(s) + MainRank(s) + 8 * B2N(s.workers[w].pc.Claim?)
  {
    hide CountIf, SumOf, RunMailbox;
    var s' := WorkerStep(s, w).value;
    assert WorkerInv(s, s.workers[w]);
    SumUpdate(WorkerRank(s.version), s.workers, w, s'.workers[w]);
    if s.workers[w].pc.RaiseWakeup? {
      CountPositive(Raising(), s.workers, w);
      CountZero(Unfinished(s.version), s.workers);
    }
  }

  /** A step inside Run moves on to a lower position, or stays in the loop with one message less. */
  lemma RunPosition(mb: Mailbox, pc: WorkerPc, v: nat, version: nat)
    requires mb.WellFormed() && Worker(pc, v).InRun() && RunMailbox(mb, pc).Some? && Stage(pc, mb)
    ensures
      var w, w' := Worker(pc, v), Worker(RunMailbox(mb, pc).value.1, v);
      || WorkerRank(version)(w') < WorkerRank(version)(w)
      || (WorkerRank(version)(w') == WorkerRank(version)(w) && LoopLeft()(w') < LoopLeft()(w))
  {
  }

  lemma RunRank(s: State, w: nat)
    requires Inv(s) && w < |s.workers| && s.workers[w].InRun() && WorkerStep(s, w).Some?
    ensures
      var s' := WorkerStep(s, w).value;
      || WorkerRanks(s') < WorkerRanks(s)
      || (WorkerRanks(s') == WorkerRanks(s) && Inner(s') < Inner(s))
  {
    hide RunMailbox, CountIf, SumOf, Stage, Reaches, BarrierInv, ClaimInv;
    var i := s.workers[w].pc.actor;
    RunMovesWorker(s, w, i);
    assert MailboxesInvAt(s, i) && s.workers[w].Holding(i);
    RunKeeps(s, w, i);
    RunStepShape(s, w, i);
    RunPosition(s.mailboxes[i], s.workers[w].pc, s.workers[w].desiredVersion, s.version);
    var s' := Next(s, Work(w)).value;
    SumUpdate(WorkerRank(s.version), s.workers, w, s'.workers[w]);
    SumUpdate(LoopLeft(), s.workers, w, s'.workers[w]);
  }

  /** A push, from whomever and however often, changes neither part of the measure. */
  lemma PushKeepsMeasure(s: State, l: Label)
    requires Next(s, l).Some? && l.Push?
    ensures Outer(Next(s, l).value) == Outer(s) && Inner(Next(s, l).value) == Inner(s)
    ensures Next(s, l).value.version == s.version
  {
  }

  /** A spurious wakeup costs at most one. */
  lemma SpuriousAddsOne(s: State, l: Label)
    requires Inv(s) && (l.SpuriousMain? || l.SpuriousWorker?) && Next(s, l).Some?
    ensures Outer(Next(s, l).value) <= Outer(s) + 1 && Inner(Next(s, l).value) == Inner(s)
  {
    match l
    case SpuriousWorker(w) =>
      SumUpdate(WorkerRank(s.version), s.workers, w, s.workers[w].(pc := TestVersion));
      SumUpdate(LoopLeft(), s.workers, w, s.workers[w].(pc := TestVersion));
    case _ =>
  }

  /** An endless run from a reachable state. */
  ghost predicate Run(states: nat -> State, labels: nat -> Label) {
    Inv(states(0)) && forall k: nat :: Next(states(k), labels(k)) == Some(states(k + 1))
  }

  ghost predicate ScheduledFrom(labels: nat -> Label, k: nat) {
    exists j: nat :: k <= j && labels(j).IsProgram()
  }

  /** The threads are never given up for good; ProgramCanMove says that one of them can always move. */
  ghost predicate ThreadsScheduled(labels: nat -> Label) {
    forall k: nat :: ScheduledFrom(labels, k)
  }

  /** From moment `quiet` on there are no more spurious wakeups. */
  ghost predicate SpuriousUntil(labels: nat -> Label, quiet: nat) {
    forall k: nat :: k >= quiet ==> !labels(k).SpuriousMain? && !labels(k).SpuriousWorker?
  }

  lemma {:induction false} RunInv(states: nat -> State, labels: nat -> Label, k: nat)
    requires Run(states, labels)
    ensures Inv(states(k))
  {
    hide Inv, Next;
    if k > 0 {
      RunInv(states, labels, k - 1);
      assert Next(states(k - 1), labels(k - 1)) == Some(states(k));
      NextInv(states(k - 1), labels(k - 1));
    }
  }

  /** Only pushes happen between two moments: the measure and the version stand still. */
  lemma {:induction false} PushesKeepMeasure(states: nat -> State, labels: nat -> Label, k: nat, j: nat)
    requires Run(states, labels) && k <= j && forall i: nat :: k <= i < j ==> labels(i).Push?
    ensures Outer(states(j)) == Outer(states(k)) && Inner(states(j)) == Inner(states(k)) &&
            states(j).version == states(k).version
  {
    hide Inv, Next, Outer, Inner;
    if k < j {
      PushesKeepMeasure(states, labels, k, j - 1);
      assert Next(states(j - 1), labels(j - 1)) == Some(states(j));
      PushKeepsMeasure(states(j - 1), labels(j - 1));
    }
  }

  /** The next step of a thread after moment k. */
  lemma NextProgramStep(labels: nat -> Label, k: nat) returns (j: nat)
    requires ThreadsScheduled(labels)
    ensures k <= j && labels(j).IsProgram() && forall i: nat :: k <= i < j ==> !labels(i).IsProgram()
  {
    assert ScheduledFrom(labels, k);
    var m: nat :| k <= m && labels(m).IsProgram();
    j := k;
    while !labels(j).IsProgram()
      invariant k <= j <= m && forall i: nat :: k <= i < j ==> !labels(i).IsProgram()
      decreases m - j
    {
      j := j + 1;
    }
  }

  /** A thread's step publishes the next frame or is progress. */
  lemma ProgramStepProgress(s: State, l: Label)
    requires Inv(s) && l.IsProgram() && Next(s, l).Some?
    ensures
      var s' := Next(s, l).value;
      s'.version > s.version || (s'.version == s.version && Lower(s', s))
  {
    match l
    case Main => if !s.main.BumpVersion? { MainDecreases(s); }
    case Work(w) => WorkDecreases(s, w); VersionKept(s, w);
  }

  lemma VersionKept(s: State, w: nat)
    requires w < |s.workers| && WorkerStep(s, w).Some?
    ensures WorkerStep(s, w).value.version == s.version
  {
  }

  /** Every frame ends and is followed by the next: in an endless run in which the threads go on being
      scheduled and spurious wakeups are finitely many, the version is raised again after every moment,
      however many pushes come in between. */
  lemma {:induction false} FramesGoOn(states: nat -> State, labels: nat -> Label, quiet: nat, k: nat) returns (j: nat)
    requires Run(states, labels) && ThreadsScheduled(labels) && SpuriousUntil(labels, quiet) && quiet <= k
    ensures j > k && states(j).version > states(k).version
    decreases Outer(states(k)), Inner(states(k))
  {
    hide Inv, Next, Outer, Inner;
    var p := NextProgramStep(labels, k);
    PushesKeepMeasure(states, labels, k, p);
    RunInv(states, labels, p);
    assert Next(states(p), labels(p)) == Some(states(p + 1));
    ProgramStepProgress(states(p), labels(p));
    if states(p + 1).version > states(p).version {
      return p + 1;
    }
    j := FramesGoOn(states, labels, quiet, p + 1);
  }

  // ---- counting the steps of one frame ----

  /** The steps of a schedule that neither push nor stay inside a message loop. */
  function OuterSteps(states: seq<State>, labels: seq<Label>): nat
    requires |states| == |labels| + 1
  {
    if labels == [] then 0
    else
      var n := |labels| - 1;
      OuterSteps(states[..n + 1], labels[..n]) + B2N(labels[n].IsProgram() && Outer(states[n + 1]) < Outer(states[n]))
  }

  function SpuriousWakeups(labels: seq<Label>): nat {
    if labels == [] then 0
    else
      var l := labels[|labels| - 1];
      SpuriousWakeups(labels[..|labels| - 1]) + B2N(l.SpuriousMain? || l.SpuriousWorker?)
  }

  /** Within one frame the threads take at most Outer(start) steps outside message loops, plus one for every
      spurious wakeup; the number of pushes does not enter. */
  lemma {:induction false} FrameEnds(states: seq<State>, labels: seq<Label>)
    requires Execution(states, labels) && Inv(states[0])
    requires forall k :: 0 <= k < |states| ==> states[k].version == states[0].version
    ensures Inv(states[|labels|])
    ensures OuterSteps(states, labels) + Outer(states[|labels|]) <= Outer(states[0]) + SpuriousWakeups(labels)
  {
    hide Inv, Next, Outer, Inner;
    if labels != [] {
      var n := |labels| - 1;
      FrameEnds(states[..n + 1], labels[..n]);
      var s, l := states[n], labels[n];
      assert Next(s, l) == Some(states[n + 1]);
      NextInv(s, l);
      if l.IsProgram() {
        ProgramStepProgress(s, l);
      } else if l.Push? {
        PushKeepsMeasure(s, l);
      } else {
        SpuriousAddsOne(s, l);
      }
    }
  }
}
