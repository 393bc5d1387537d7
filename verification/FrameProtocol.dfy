/** The frame barrier of the main server together with the double-buffered actor mailboxes, as an
    interleaved step system: every atomic operation and every lock region is one step.

    The main thread publishes a frame by storing the countdown, storing the shared work index and
    incrementing the version; workers claim actors by fetch_add on the work index, run them, and the
    worker whose decrement empties the countdown wakes the main thread.  Waiting on a condition
    variable is modelled with an explicit blocked state, so that a lost wakeup would be visible. */
module FrameProtocol {
  import opened Types

  datatype DynamicMessage = DynamicMessage(typeIndex: nat, payload: nat)

  /** One actor's mailbox.  `history` records every push, `handled` every message given to a handler,
      `taken` how many messages of the read queue the current loop has handed over, and `runs` how
      many times Run has completed; the program itself only has `pushIndex` and the two queues. */
  datatype Mailbox = Mailbox(pushIndex: nat,
                             queues: seq<seq<DynamicMessage>>,
                             taken: nat,
                             history: seq<DynamicMessage>,
                             handled: seq<DynamicMessage>,
                             runs: nat)
  {
    predicate WellFormed() {
      pushIndex < 2 && |queues| == 2 && taken <= |queues[1 - pushIndex]|
    }

    function PushQueue(): seq<DynamicMessage>
      requires WellFormed()
    {
      queues[pushIndex]
    }

    function ReadQueue(): seq<DynamicMessage>
      requires WellFormed()
    {
      queues[1 - pushIndex]
    }

    /** Nothing is lost, duplicated or reordered: the push history is what was handled, then what the
        read queue still holds, then the push queue. */
    predicate Conserves()
      requires WellFormed()
    {
      handled + ReadQueue()[taken..] + PushQueue() == history
    }
  }

  datatype MainPc =
    | StoreCountdown
    | StoreWorkIndex
    | BumpVersion
    | NotifyAll
    | TestWakeup
    | BlockedOnWakeup
    | Sleeping

  datatype WorkerPc =
    | TestVersion
    | BlockedOnVersion
    | Claim
    | Claimed(index: nat)
    | TestReadQueue(actor: nat)
    | Flip(actor: nat)
    | BeginLoop(actor: nat)
    | Handle(actor: nat, next: nat, end: nat)
    | Clear(actor: nat)
    | Tick(actor: nat)
    | RaiseWakeup
    | Advance

  datatype Worker = Worker(pc: WorkerPc, desiredVersion: nat)
  {
    predicate InRun() {
      pc.TestReadQueue? || pc.Flip? || pc.BeginLoop? || pc.Handle? || pc.Clear? || pc.Tick?
    }

    /** This worker is inside actor i's Run. */
    predicate Running(i: nat) {
      InRun() && pc.actor == i
    }

    /** The worker owns index i: it has claimed it and has not yet finished its Run. */
    predicate Holding(i: nat) {
      pc == Claimed(i) || Running(i)
    }

    /** Between leaving the version wait and decrementing the countdown. */
    predicate Active() {
      pc.Claim? || pc.Claimed? || InRun()
    }

    /** The number of frames for which this worker has decremented the countdown. */
    function Finished(): int {
      if pc.RaiseWakeup? || pc.Advance? then desiredVersion else desiredVersion - 1
    }
  }

  /** `marks[i]` records the length of actor i's push history when the current frame was published,
      and `raised` how often the wake flag was raised; both only observe. */
  datatype State = State(main: MainPc,
                         workers: seq<Worker>,
                         version: nat,
                         workIndex: nat,
                         countdown: int,
                         shouldWakeup: bool,
                         mailboxes: seq<Mailbox>,
                         marks: seq<nat>,
                         raised: nat)
  {
    /** A frame has been published and the main thread has not yet left its wait. */
    predicate InFrame() {
      main.NotifyAll? || main.TestWakeup? || main.BlockedOnWakeup?
    }
  }

  /** The state after construction: every worker waits for version 1. */
  ghost predicate Init(s: State) {
    && s.main == StoreCountdown
    && |s.workers| >= 1
    && (forall w :: 0 <= w < |s.workers| ==> s.workers[w] == Worker(TestVersion, 1))
    && s.version == 0 && s.raised == 0 && !s.shouldWakeup
    && s.countdown == |s.workers|
    && |s.marks| == |s.mailboxes|
    && (forall i :: 0 <= i < |s.mailboxes| ==> s.mailboxes[i] == Mailbox(0, [[], []], 0, [], [], 0) && s.marks[i] == 0)
  }

  /** Who takes the next step.  The two spurious wakeups are the ones the condition variables permit;
      a push comes from any thread, a handler pushing to its own actor included. */
  datatype Label =
    | Main
    | Work(w: nat)
    | Push(actor: nat, message: DynamicMessage)
    | SpuriousMain
    | SpuriousWorker(w: nat)
  {
    predicate IsProgram() { Main? || Work? }
  }

  /** The step system: each label has at most one successor, None when it cannot move. */
  function Next(s: State, l: Label): Option<State> {
    match l
    case Main => MainStep(s)
    case Work(w) => if w < |s.workers| then WorkerStep(s, w) else None
    case Push(i, m) => if i < |s.mailboxes| && s.mailboxes[i].WellFormed() then Some(PushStep(s, i, m)) else None
    case SpuriousMain => if s.main.BlockedOnWakeup? then Some(s.(main := TestWakeup)) else None
    case SpuriousWorker(w) =>
      if w < |s.workers| && s.workers[w].pc.BlockedOnVersion? then Some(At(s, w, TestVersion)) else None
  }

  // ---- main thread ----

  function Woken(w: Worker): Worker {
    if w.pc.BlockedOnVersion? then w.(pc := TestVersion) else w
  }

  function WakeAll(ws: seq<Worker>): (r: seq<Worker>)
    ensures |r| == |ws| && forall i :: 0 <= i < |ws| ==> r[i] == Woken(ws[i])
  {
    seq(|ws|, i requires 0 <= i < |ws| => Woken(ws[i]))
  }

  function HistoryLengths(ms: seq<Mailbox>): (r: seq<nat>)
    ensures |r| == |ms| && forall i :: 0 <= i < |ms| ==> r[i] == |ms[i].history|
  {
    seq(|ms|, i requires 0 <= i < |ms| => |ms[i].history|)
  }

  function MainStep(s: State): Option<State> {
    match s.main
    case StoreCountdown => Some(s.(main := StoreWorkIndex, countdown := |s.workers|))
    case StoreWorkIndex => Some(s.(main := BumpVersion, workIndex := 0))
    case BumpVersion => Some(s.(main := NotifyAll, version := s.version + 1, marks := HistoryLengths(s.mailboxes)))
    case NotifyAll => Some(s.(main := TestWakeup, workers := WakeAll(s.workers)))
    case TestWakeup =>
      if s.shouldWakeup then Some(s.(main := Sleeping, shouldWakeup := false)) else Some(s.(main := BlockedOnWakeup))
    case BlockedOnWakeup => None
    case Sleeping => Some(s.(main := StoreCountdown))
  }

  // ---- workers ----

  function At(s: State, w: nat, pc: WorkerPc): State
    requires w < |s.workers|
  {
    s.(workers := s.workers[w := s.workers[w].(pc := pc)])
  }

  function WorkerStep(s: State, w: nat): Option<State>
    requires w < |s.workers|
  {
    var me := s.workers[w];
    match me.pc
    case TestVersion => Some(At(s, w, if s.version == me.desiredVersion then Claim else BlockedOnVersion))
    case BlockedOnVersion => None
    case Claim => Some(At(s, w, Claimed(s.workIndex)).(workIndex := s.workIndex + 1))
    case Claimed(i) =>
      if i < |s.mailboxes| then Some(At(s, w, TestReadQueue(i)))
      else Some(At(s, w, if s.countdown == 1 then RaiseWakeup else Advance).(countdown := s.countdown - 1))
    case RaiseWakeup =>
      // the flag is set and the main thread notified inside one lock region
      Some(At(s, w, Advance).(shouldWakeup := true, raised := s.raised + 1,
                              main := if s.main.BlockedOnWakeup? then TestWakeup else s.main))
    case Advance => Some(s.(workers := s.workers[w := Worker(TestVersion, me.desiredVersion + 1)]))
    case _ => RunStep(s, w, me.pc.actor)
  }

  // ---- the actor's Run ----

  /** A step of Run on actor i touches that actor's mailbox and the worker's position only. */
  function RunStep(s: State, w: nat, i: nat): Option<State>
    requires w < |s.workers|
  {
    if i < |s.mailboxes| && s.mailboxes[i].WellFormed() then
      match RunMailbox(s.mailboxes[i], s.workers[w].pc)
      case Some((mb, pc)) => Some(At(s, w, pc).(mailboxes := s.mailboxes[i := mb]))
      case None => None
    else None
  }

  /** None where the program would read past the end of the queue it iterates. */
  function RunMailbox(mb: Mailbox, pc: WorkerPc): Option<(Mailbox, WorkerPc)>
    requires mb.WellFormed()
  {
    var read := mb.ReadQueue();
    match pc
    case TestReadQueue(i) => Some((mb, if read == [] then Flip(i) else BeginLoop(i)))
    case Flip(i) => Some((mb.(pushIndex := 1 - mb.pushIndex, taken := 0), BeginLoop(i)))
    case BeginLoop(i) => Some((mb, Handle(i, 0, |read|)))
    case Handle(i, k, end) =>
      if k == end then Some((mb, Clear(i)))
      else if k < |read| && mb.taken < |read| then
        Some((mb.(handled := mb.handled + [read[k]], taken := mb.taken + 1), Handle(i, k + 1, end)))
      else None
    case Clear(i) => Some((mb.(queues := mb.queues[1 - mb.pushIndex := []], taken := 0), Tick(i)))
    case Tick(i) => Some((mb.(runs := mb.runs + 1), Claim))
    case _ => None
  }

  function PushMailbox(mb: Mailbox, m: DynamicMessage): Mailbox
    requires mb.WellFormed()
  {
    mb.(queues := mb.queues[mb.pushIndex := mb.queues[mb.pushIndex] + [m]], history := mb.history + [m])
  }

  function PushStep(s: State, i: nat, m: DynamicMessage): State
    requires i < |s.mailboxes| && s.mailboxes[i].WellFormed()
  {
    s.(mailboxes := s.mailboxes[i := PushMailbox(s.mailboxes[i], m)])
  }

  // ---- executions ----

  /** `states` is a run of the step system under the schedule `labels`. */
  ghost predicate Execution(states: seq<State>, labels: seq<Label>) {
    && |states| == |labels| + 1
    && forall k :: 0 <= k < |labels| ==> Next(states[k], labels[k]) == Some(states[k + 1])
  }
}
