/** Safety of the frame barrier and the mailboxes, in every interleaving. */
module FrameSafety {
  import opened Types
  import opened Counting
  import opened FrameProtocol

  function Unfinished(v: nat): Worker -> bool {
    (w: Worker) => w.Finished() < v
  }

  function Raising(): Worker -> bool {
    (w: Worker) => w.pc.RaiseWakeup?
  }

  function HoldingActor(i: nat): Worker -> bool {
    (w: Worker) => w.Holding(i)
  }

  /** Workers whose claim of this frame fell past the last actor. */
  function PastEnd(actors: nat, v: nat): Worker -> bool {
    (w: Worker) => (w.pc.Claimed? && w.pc.index >= actors) || w.Finished() >= v
  }

  // ---- the invariant ----

  /** A worker is never behind the version, and it is only blocked on the current version while the
      main thread still owes it a notification. */
  ghost predicate WorkerInv(s: State, w: Worker) {
    && w.desiredVersion >= 1
    && (if s.InFrame() then s.version - 1 <= w.Finished() <= s.version else w.Finished() == s.version)
    && (w.Active() ==> w.desiredVersion == s.version)
    && (w.pc.BlockedOnVersion? && w.desiredVersion == s.version ==> s.main == NotifyAll)
    && (w.pc.Claimed? ==> w.pc.index < s.workIndex)
    && (w.InRun() ==> w.pc.actor < s.workIndex && w.pc.actor < |s.mailboxes|)
  }

  ghost predicate BarrierInv(s: State) {
    && |s.workers| >= 1
    && (forall w :: 0 <= w < |s.workers| ==> WorkerInv(s, s.workers[w]))
    && (s.main.StoreWorkIndex? || s.main.BumpVersion? ==> s.countdown == |s.workers|)
    && (s.main.BumpVersion? ==> s.workIndex == 0)
    && (s.InFrame() ==> s.version >= 1)
    && (s.InFrame() ==> s.countdown == CountIf(Unfinished(s.version), s.workers))
    && CountIf(Raising(), s.workers) + B2N(s.shouldWakeup) == B2N(s.InFrame() && s.countdown == 0)
    && (s.main.BlockedOnWakeup? ==> !s.shouldWakeup)
    && s.raised + B2N(s.InFrame() && !s.shouldWakeup) == s.version
  }

  /** Index i has been claimed in this frame exactly when one worker holds it or its run is done. */
  ghost predicate ClaimInv(s: State, i: nat)
    requires i < |s.mailboxes|
  {
    var runs := s.mailboxes[i].runs;
    if s.InFrame() then
      && s.version - 1 <= runs <= s.version
      && CountIf(HoldingActor(i), s.workers) + (runs - (s.version - 1)) == B2N(i < s.workIndex)
    else
      runs == s.version
  }

  ghost predicate WorkInv(s: State) {
    && |s.marks| == |s.mailboxes|
    && (forall i :: 0 <= i < |s.mailboxes| ==> ClaimInv(s, i))
    && (s.InFrame() ==>
          CountIf(PastEnd(|s.mailboxes|, s.version), s.workers) ==
          if s.workIndex > |s.mailboxes| then s.workIndex - |s.mailboxes| else 0)
  }

  /** What the read queue looks like at each point of Run. */
  predicate Stage(pc: WorkerPc, mb: Mailbox)
    requires mb.WellFormed()
  {
    match pc
    case BeginLoop(_) => mb.taken == 0
    case Handle(_, k, end) => k == mb.taken && end == |mb.ReadQueue()|
    case Clear(_) => mb.taken == |mb.ReadQueue()|
    case _ => mb.ReadQueue() == []
  }

  /** Everything pushed before the frame was published is in reach of this frame's run. */
  predicate Reaches(pc: WorkerPc, mb: Mailbox, mark: nat)
    requires mb.WellFormed()
  {
    match pc
    case BeginLoop(_) => |mb.handled| + |mb.ReadQueue()| >= mark
    case Handle(_, k, end) => |mb.handled| + end - k >= mark
    case Clear(_) => |mb.handled| >= mark
    case Tick(_) => |mb.handled| >= mark
    case _ => true
  }

  ghost predicate MailboxInv(s: State, i: nat)
    requires i < |s.mailboxes| && |s.marks| == |s.mailboxes|
  {
    var mb := s.mailboxes[i];
    && mb.WellFormed()
    && mb.Conserves()
    && s.marks[i] <= |mb.history|
    && (mb.runs == s.version ==> s.marks[i] <= |mb.handled|)
    && (CountIf(HoldingActor(i), s.workers) == 0 ==> mb.ReadQueue() == [])
    && forall w :: 0 <= w < |s.workers| && s.workers[w].Holding(i) ==>
         Stage(s.workers[w].pc, mb) && Reaches(s.workers[w].pc, mb, s.marks[i])
  }

  ghost predicate MailboxesInv(s: State)
    requires |s.marks| == |s.mailboxes|
  {
    forall i :: 0 <= i < |s.mailboxes| ==> MailboxInv(s, i)
  }

  ghost predicate Inv(s: State) {
    BarrierInv(s) && WorkInv(s) && MailboxesInv(s)
  }

  // ---- initial state ----

  lemma InitInv(s: State)
    requires Init(s)
    ensures Inv(s)
  {
    hide CountIf;
    CountZero(Raising(), s.workers);
    forall i | 0 <= i < |s.mailboxes|
      ensures CountIf(HoldingActor(i), s.workers) == 0
    {
      CountZero(HoldingActor(i), s.workers);
    }
  }

  // ---- counts under one worker's change ----

  /** How every count used by the invariant moves when worker w becomes x. */
  lemma CountsMove(s: State, w: nat, x: Worker, v: nat, actors: nat)
    requires w < |s.workers|
    ensures
      var ws, ws' := s.workers, s.workers[w := x];
      && CountIf(Unfinished(v), ws') + B2N(ws[w].Finished() < v) == CountIf(Unfinished(v), ws) + B2N(x.Finished() < v)
      && CountIf(Raising(), ws') + B2N(ws[w].pc.RaiseWakeup?) == CountIf(Raising(), ws) + B2N(x.pc.RaiseWakeup?)
      && CountIf(PastEnd(actors, v), ws') + B2N(PastEnd(actors, v)(ws[w]))
         == CountIf(PastEnd(actors, v), ws) + B2N(PastEnd(actors, v)(x))
      && (forall i: nat ::
            CountIf(HoldingActor(i), ws') + B2N(ws[w].Holding(i)) == CountIf(HoldingActor(i), ws) + B2N(x.Holding(i)))
  {
    CountUpdate(Unfinished(v), s.workers, w, x);
    CountUpdate(Raising(), s.workers, w, x);
    CountUpdate(PastEnd(actors, v), s.workers, w, x);
    forall i: nat
      ensures CountIf(HoldingActor(i), s.workers[w := x]) + B2N(s.workers[w].Holding(i))
           == CountIf(HoldingActor(i), s.workers) + B2N(x.Holding(i))
    {
      CountUpdate(HoldingActor(i), s.workers, w, x);
    }
  }

  // ---- preservation, step by step ----

  /** Worker w becomes x in a step that leaves the version, the frame phase and the marks alone. */
  ghost predicate WorkerMoves(s: State, s': State, w: nat, x: Worker) {
    && w < |s.workers| && s'.workers == s.workers[w := x]
    && s'.version == s.version && s'.InFrame() == s.InFrame() && s'.marks == s.marks
    && |s'.mailboxes| == |s.mailboxes|
  }

  /** An actor the moving worker holds neither before nor after keeps its invariants. */
  lemma UntouchedActor(s: State, s': State, w: nat, x: Worker, i: nat)
    requires WorkInv(s) && MailboxesInv(s) && WorkerMoves(s, s', w, x)
    requires i < |s.mailboxes| && s'.mailboxes[i] == s.mailboxes[i]
    requires !s.workers[w].Holding(i) && !x.Holding(i)
    requires i < s.workIndex <==> i < s'.workIndex
    ensures ClaimInv(s', i) && MailboxInv(s', i)
  {
    assert ClaimInv(s, i) && MailboxInv(s, i);
    CountUpdate(HoldingActor(i), s.workers, w, x);
  }

  /** A worker that holds no actor before or after a step leaves every actor's invariants alone. */
  lemma NoActorTouched(s: State, s': State, w: nat, x: Worker)
    requires WorkInv(s) && MailboxesInv(s) && WorkerMoves(s, s', w, x)
    requires s'.mailboxes == s.mailboxes && s'.workIndex == s.workIndex
    requires forall i: nat | i < |s.mailboxes| :: !s.workers[w].Holding(i) && !x.Holding(i)
    ensures forall i :: 0 <= i < |s.mailboxes| ==> ClaimInv(s', i) && MailboxInv(s', i)
  {
    forall i | 0 <= i < |s.mailboxes|
      ensures ClaimInv(s', i) && MailboxInv(s', i)
    {
      UntouchedActor(s, s', w, x, i);
    }
  }

  lemma SpuriousInv(s: State, l: Label)
    requires Inv(s) && (l.SpuriousMain? || l.SpuriousWorker?) && Next(s, l).Some?
    ensures Inv(Next(s, l).value)
  {
    hide CountIf, WorkerStep, PushStep;
    var s' := Next(s, l).value;
    match l
    case SpuriousWorker(w) =>
      var x := s.workers[w].(pc := TestVersion);
      CountsMove(s, w, x, s.version, |s.mailboxes|);
      NoActorTouched(s, s', w, x);
    case SpuriousMain =>
      forall i | 0 <= i < |s.mailboxes|
        ensures ClaimInv(s', i) && MailboxInv(s', i)
      {
        assert ClaimInv(s, i) && MailboxInv(s, i);
      }
  }

  lemma PushInv(s: State, i: nat, m: DynamicMessage)
    requires Inv(s) && i < |s.mailboxes|
    ensures s.mailboxes[i].WellFormed() && Inv(PushStep(s, i, m))
  {
    hide CountIf, WorkerStep, MainStep;
    assert MailboxInv(s, i);
    var mb, mb' := s.mailboxes[i], PushMailbox(s.mailboxes[i], m);
    assert mb'.ReadQueue() == mb.ReadQueue();
    assert mb.handled + mb.ReadQueue()[mb.taken..] + (mb.PushQueue() + [m])
        == mb.handled + mb.ReadQueue()[mb.taken..] + mb.PushQueue() + [m];
    var s' := PushStep(s, i, m);
    forall j | 0 <= j < |s.mailboxes|
      ensures ClaimInv(s', j) && MailboxInv(s', j)
    {
      assert ClaimInv(s, j) && MailboxInv(s, j);
    }
  }

  lemma TestVersionInv(s: State, w: nat)
    requires Inv(s) && w < |s.workers| && s.workers[w].pc.TestVersion?
    ensures Inv(Next(s, Work(w)).value)
  {
    hide CountIf, RunMailbox, PushStep, ClaimInv, MailboxInv;
    var s' := Next(s, Work(w)).value;
    CountsMove(s, w, s'.workers[w], s.version, |s.mailboxes|);
    NoActorTouched(s, s', w, s'.workers[w]);
    CountZero(Unfinished(s.version), s.workers);
  }

  lemma ClaimStepInv(s: State, w: nat)
    requires Inv(s) && w < |s.workers| && s.workers[w].pc.Claim?
    ensures Inv(Next(s, Work(w)).value)
  {
    hide CountIf, RunMailbox, PushStep, ClaimInv, MailboxInv;
    var s' := Next(s, Work(w)).value;
    assert WorkerInv(s, s.workers[w]);
    CountsMove(s, w, s'.workers[w], s.version, |s.mailboxes|);
    forall i | 0 <= i < |s.mailboxes|
      ensures ClaimInv(s', i) && MailboxInv(s', i)
    {
      if i == s.workIndex {
        ClaimTakesActor(s, w);
      } else {
        UntouchedActor(s, s', w, s'.workers[w], i);
      }
    }
  }

  lemma ClaimTakesActor(s: State, w: nat)
    requires Inv(s) && w < |s.workers| && s.workers[w].pc.Claim? && s.workIndex < |s.mailboxes|
    ensures ClaimInv(Next(s, Work(w)).value, s.workIndex) && MailboxInv(Next(s, Work(w)).value, s.workIndex)
  {
    hide CountIf, RunMailbox, PushStep, Mailbox.WellFormed, Mailbox.Conserves;
    var s', i := Next(s, Work(w)).value, s.workIndex;
    assert WorkerInv(s, s.workers[w]) && ClaimInv(s, i) && MailboxInv(s, i);
    CountUpdate(HoldingActor(i), s.workers, w, s'.workers[w]);
    NotHeldYet(s, i);
  }

  lemma NotHeldYet(s: State, i: nat)
    requires CountIf(HoldingActor(i), s.workers) == 0
    ensures forall v :: 0 <= v < |s.workers| ==> !s.workers[v].Holding(i)
  {
    hide CountIf;
    forall v | 0 <= v < |s.workers|
      ensures !s.workers[v].Holding(i)
    {
      if s.workers[v].Holding(i) { CountPositive(HoldingActor(i), s.workers, v); }
    }
  }

  lemma ClaimedActorInv(s: State, w: nat)
    requires Inv(s) && w < |s.workers| && s.workers[w].pc.Claimed? && s.workers[w].pc.index < |s.mailboxes|
    ensures Inv(Next(s, Work(w)).value)
  {
    hide CountIf, RunMailbox, PushStep;
    var s', k := Next(s, Work(w)).value, s.workers[w].pc.index;
    CountsMove(s, w, s'.workers[w], s.version, |s.mailboxes|);
    forall i | 0 <= i < |s.mailboxes|
      ensures ClaimInv(s', i) && MailboxInv(s', i)
    {
      assert ClaimInv(s, i) && MailboxInv(s, i);
      if i != k {
        UntouchedActor(s, s', w, s'.workers[w], i);
      }
    }
  }

  lemma ClaimedPastEndInv(s: State, w: nat)
    requires Inv(s) && w < |s.workers| && s.workers[w].pc.Claimed? && s.workers[w].pc.index >= |s.mailboxes|
    ensures Inv(Next(s, Work(w)).value)
  {
    hide CountIf, RunMailbox, PushStep, ClaimInv, MailboxInv;
    var s' := Next(s, Work(w)).value;
    var x := s'.workers[w];
    CountPositive(Unfinished(s.version), s.workers, w);
    CountsMove(s, w, x, s.version, |s.mailboxes|);
    NoActorTouched(s, s', w, x);
    assert BarrierInv(s');
  }

  lemma RaiseWakeupInv(s: State, w: nat)
    requires Inv(s) && w < |s.workers| && s.workers[w].pc.RaiseWakeup?
    ensures Inv(Next(s, Work(w)).value)
  {
    hide CountIf, RunMailbox, PushStep;
    var s' := Next(s, Work(w)).value;
    CountPositive(Raising(), s.workers, w);
    CountsMove(s, w, s'.workers[w], s.version, |s.mailboxes|);
    NoActorTouched(s, s', w, s'.workers[w]);
  }

  lemma AdvanceInv(s: State, w: nat)
    requires Inv(s) && w < |s.workers| && s.workers[w].pc.Advance?
    ensures Inv(Next(s, Work(w)).value)
  {
    hide CountIf, RunMailbox, PushStep, ClaimInv, MailboxInv;
    var s' := Next(s, Work(w)).value;
    CountsMove(s, w, s'.workers[w], s.version, |s.mailboxes|);
    NoActorTouched(s, s', w, s'.workers[w]);
  }

  // ---- the steps inside Run ----

  /** One step of Run keeps the mailbox in order, whoever else pushes meanwhile. */
  lemma RunMailboxKeeps(mb: Mailbox, pc: WorkerPc, mark: nat)
    requires mb.WellFormed() && mb.Conserves() && Stage(pc, mb) && Reaches(pc, mb, mark) && mark <= |mb.history|
    requires pc.TestReadQueue? || pc.Flip? || pc.BeginLoop? || pc.Handle? || pc.Clear? || pc.Tick?
    ensures RunMailbox(mb, pc).Some?
    ensures
      var (mb', pc') := RunMailbox(mb, pc).value;
      && mb'.WellFormed() && mb'.Conserves() && mb'.history == mb.history
      && |mb.handled| <= |mb'.handled|
      && (if pc.Tick? then pc' == Claim && mb'.ReadQueue() == [] && mark <= |mb'.handled| && mb'.runs == mb.runs + 1
          else Stage(pc', mb') && Reaches(pc', mb', mark) && mb'.runs == mb.runs)
      && forall i: nat :: Worker(pc, 0).Running(i) && !pc.Tick? ==> Worker(pc', 0).Running(i)
  {
    var (mb', pc') := RunMailbox(mb, pc).value;
    match pc
    case Flip(_) =>
      assert mb'.ReadQueue()[0..] == mb'.ReadQueue();
      assert mb.handled + [] + mb.PushQueue() == mb.history;
      assert mb'.PushQueue() == [];
    case Handle(_, k, end) =>
      if k < end {
        assert mb.ReadQueue()[k..] == [mb.ReadQueue()[k]] + mb.ReadQueue()[k + 1..];
        assert mb.handled + mb.ReadQueue()[k..] + mb.PushQueue()
            == mb.handled + [mb.ReadQueue()[k]] + mb.ReadQueue()[k + 1..] + mb.PushQueue();
      }
    case Clear(_) =>
      assert mb.ReadQueue()[mb.taken..] == [];
      assert mb'.PushQueue() == mb.PushQueue();
    case _ =>
  }

  lemma SoleHolder(s: State, w: nat, i: nat)
    requires WorkInv(s) && BarrierInv(s) && i < |s.mailboxes|
    requires w < |s.workers| && s.workers[w].Holding(i) && s.workers[w].Active()
    ensures s.InFrame() && i < s.workIndex
    ensures CountIf(HoldingActor(i), s.workers) == 1 && s.mailboxes[i].runs == s.version - 1
    ensures forall v :: 0 <= v < |s.workers| && v != w ==> !s.workers[v].Holding(i)
  {
    assert WorkerInv(s, s.workers[w]) && ClaimInv(s, i);
    CountPositive(HoldingActor(i), s.workers, w);
    forall v | 0 <= v < |s.workers| && v != w
      ensures !s.workers[v].Holding(i)
    {
      if s.workers[v].Holding(i) {
        CountUnique(HoldingActor(i), s.workers, v, w);
      }
    }
  }

  lemma RunStepShape(s: State, w: nat, i: nat)
    requires w < |s.workers| && s.workers[w].Running(i) && i < |s.mailboxes|
    requires s.mailboxes[i].WellFormed() && RunMailbox(s.mailboxes[i], s.workers[w].pc).Some?
    ensures
      var (mb, pc) := RunMailbox(s.mailboxes[i], s.workers[w].pc).value;
      Next(s, Work(w)) == Some(At(s, w, pc).(mailboxes := s.mailboxes[i := mb]))
  {
  }

  ghost predicate MailboxesInvAt(s: State, i: nat) {
    |s.marks| == |s.mailboxes| && i < |s.mailboxes| && MailboxInv(s, i)
  }

  /** What a step of Run does to its actor's mailbox and to the runner's position. */
  lemma RunKeeps(s: State, w: nat, i: nat)
    requires MailboxesInvAt(s, i) && w < |s.workers| && s.workers[w].Running(i)
    ensures RunMailbox(s.mailboxes[i], s.workers[w].pc).Some?
    ensures
      var mb := s.mailboxes[i];
      var (mb', pc') := RunMailbox(mb, s.workers[w].pc).value;
      && mb'.WellFormed() && mb'.Conserves() && mb'.history == mb.history && |mb.handled| <= |mb'.handled|
      && (if s.workers[w].pc.Tick? then
            pc' == Claim && mb'.ReadQueue() == [] && s.marks[i] <= |mb'.handled| && mb'.runs == mb.runs + 1
          else
            && Stage(pc', mb') && Reaches(pc', mb', s.marks[i]) && mb'.runs == mb.runs
            && Worker(pc', s.workers[w].desiredVersion).Running(i))
  {
    assert MailboxInv(s, i) && s.workers[w].Holding(i);
    RunMailboxKeeps(s.mailboxes[i], s.workers[w].pc, s.marks[i]);
    assert Worker(s.workers[w].pc, 0).Running(i);
  }

  /** The actor being run keeps its invariants across the runner's step. */
  lemma RunActorInv(s: State, w: nat, i: nat)
    requires BarrierInv(s) && WorkInv(s) && MailboxesInv(s) && i < |s.mailboxes|
    requires w < |s.workers| && s.workers[w].Running(i)
    ensures Next(s, Work(w)).Some?
    ensures var s' := Next(s, Work(w)).value; ClaimInv(s', i) && MailboxInv(s', i)
  {
    hide Next, WorkerStep, RunMailbox, CountIf, BarrierInv, Stage, Reaches;
    SoleHolder(s, w, i);
    assert MailboxesInvAt(s, i);
    RunKeeps(s, w, i);
    RunStepShape(s, w, i);
    var s' := Next(s, Work(w)).value;
    CountUpdate(HoldingActor(i), s.workers, w, s'.workers[w]);
  }

  lemma RunStepInv(s: State, w: nat, i: nat)
    requires Inv(s) && w < |s.workers| && s.workers[w].Running(i)
    ensures Next(s, Work(w)).Some? && Inv(Next(s, Work(w)).value)
  {
    hide Next, WorkerStep, RunMailbox, CountIf, ClaimInv, MailboxInv;
    assert WorkerInv(s, s.workers[w]);
    RunActorInv(s, w, i);
    RunBarrierInv(s, w, i);
    RunMovesWorker(s, w, i);
    var s' := Next(s, Work(w)).value;
    CountUpdate(PastEnd(|s.mailboxes|, s.version), s.workers, w, s'.workers[w]);
    forall j | 0 <= j < |s.mailboxes|
      ensures ClaimInv(s', j) && MailboxInv(s', j)
    {
      if j != i {
        UntouchedActor(s, s', w, s'.workers[w], j);
      }
    }
  }

  /** A step of Run changes one worker's position and one mailbox. */
  lemma RunMovesWorker(s: State, w: nat, i: nat)
    requires Inv(s) && w < |s.workers| && s.workers[w].Running(i)
    ensures i < |s.mailboxes| && Next(s, Work(w)).Some?
    ensures
      var s', x := Next(s, Work(w)).value, s.workers[w];
      && WorkerMoves(s, s', w, s'.workers[w])
      && s'.main == s.main && s'.countdown == s.countdown && s'.shouldWakeup == s.shouldWakeup
      && s'.raised == s.raised && s'.workIndex == s.workIndex
      && (forall j :: 0 <= j < |s.mailboxes| && j != i ==> s'.mailboxes[j] == s.mailboxes[j])
      && s'.workers[w].desiredVersion == x.desiredVersion && (s'.workers[w].Running(i) || s'.workers[w].pc.Claim?)
  {
    hide Next, WorkerStep, RunMailbox, CountIf, Stage, Reaches;
    assert WorkerInv(s, s.workers[w]);
    assert MailboxesInvAt(s, i);
    RunKeeps(s, w, i);
    RunStepShape(s, w, i);
  }

  lemma RunBarrierInv(s: State, w: nat, i: nat)
    requires Inv(s) && w < |s.workers| && s.workers[w].Running(i) && Next(s, Work(w)).Some?
    ensures BarrierInv(Next(s, Work(w)).value)
  {
    hide Next, WorkerStep, RunMailbox, CountIf, ClaimInv, MailboxInv;
    RunMovesWorker(s, w, i);
    var s' := Next(s, Work(w)).value;
    assert WorkerInv(s, s.workers[w]);
    CountsMove(s, w, s'.workers[w], s.version, |s.mailboxes|);
  }

  // ---- the main thread ----

  lemma BumpInv(s: State)
    requires Inv(s) && s.main.BumpVersion?
    ensures Inv(MainStep(s).value)
  {
    var s' := MainStep(s).value;
    CountFull(Unfinished(s'.version), s.workers);
    CountZero(PastEnd(|s.mailboxes|, s'.version), s.workers);
    forall i | 0 <= i < |s.mailboxes|
      ensures ClaimInv(s', i) && MailboxInv(s', i)
    {
      assert ClaimInv(s, i) && MailboxInv(s, i);
      CountZero(HoldingActor(i), s.workers);
    }
  }

  lemma NotifyAllInv(s: State)
    requires Inv(s) && s.main.NotifyAll?
    ensures Inv(MainStep(s).value)
  {
    hide CountIf, WorkerStep, PushStep;
    var s' := MainStep(s).value;
    CountSame(Unfinished(s.version), Unfinished(s.version), s.workers, s'.workers);
    CountSame(Raising(), Raising(), s.workers, s'.workers);
    CountSame(PastEnd(|s.mailboxes|, s.version), PastEnd(|s.mailboxes|, s.version), s.workers, s'.workers);
    forall i | 0 <= i < |s.mailboxes|
      ensures ClaimInv(s', i) && MailboxInv(s', i)
    {
      assert ClaimInv(s, i) && MailboxInv(s, i);
      CountSame(HoldingActor(i), HoldingActor(i), s.workers, s'.workers);
    }
  }

  /** When the wake flag is up the frame is over: every worker has decremented, the shared index has
      been claimed exactly A + N times, and every actor has run. */
  lemma FrameOver(s: State)
    requires Inv(s) && s.InFrame() && s.shouldWakeup
    ensures forall w :: 0 <= w < |s.workers| ==> s.workers[w].Finished() == s.version && !s.workers[w].Active()
    ensures s.workIndex == |s.mailboxes| + |s.workers|
    ensures forall i :: 0 <= i < |s.mailboxes| ==> s.mailboxes[i].runs == s.version
  {
    CountZero(Unfinished(s.version), s.workers);
    CountFull(PastEnd(|s.mailboxes|, s.version), s.workers);
    forall i | 0 <= i < |s.mailboxes|
      ensures s.mailboxes[i].runs == s.version
    {
      assert ClaimInv(s, i);
      CountZero(HoldingActor(i), s.workers);
    }
  }

  lemma TestWakeupInv(s: State)
    requires Inv(s) && s.main.TestWakeup?
    ensures Inv(MainStep(s).value)
  {
    var s' := MainStep(s).value;
    if s.shouldWakeup {
      FrameOver(s);
    }
    forall i | 0 <= i < |s.mailboxes|
      ensures ClaimInv(s', i) && MailboxInv(s', i)
    {
      assert ClaimInv(s, i) && MailboxInv(s, i);
    }
  }

  lemma MainIdleInv(s: State)
    requires Inv(s) && (s.main.StoreCountdown? || s.main.StoreWorkIndex? || s.main.Sleeping?)
    ensures Inv(MainStep(s).value)
  {
    var s' := MainStep(s).value;
    forall i | 0 <= i < |s.mailboxes|
      ensures ClaimInv(s', i) && MailboxInv(s', i)
    {
      assert ClaimInv(s, i) && MailboxInv(s, i);
    }
  }

  /** Every step of every thread keeps the invariant. */
  lemma NextInv(s: State, l: Label)
    requires Inv(s) && Next(s, l).Some?
    ensures Inv(Next(s, l).value)
  {
    match l
    case Main =>
      match s.main {
        case BumpVersion => BumpInv(s);
        case NotifyAll => NotifyAllInv(s);
        case TestWakeup => TestWakeupInv(s);
        case _ => MainIdleInv(s);
      }
    case Work(w) =>
      match s.workers[w].pc {
        case TestVersion => TestVersionInv(s, w);
        case Claim => ClaimStepInv(s, w);
        case Claimed(i) => if i < |s.mailboxes| { ClaimedActorInv(s, w); } else { ClaimedPastEndInv(s, w); }
        case RaiseWakeup => RaiseWakeupInv(s, w);
        case Advance => AdvanceInv(s, w);
        case BlockedOnVersion =>
        case pc => RunStepInv(s, w, pc.actor);
      }
    case Push(i, m) => PushInv(s, i, m);
    case _ => SpuriousInv(s, l);
  }
}
