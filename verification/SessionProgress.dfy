/** Progress of a session: between inputs from outside the threads take a bounded number of steps, and then
    everything sent is on the wire and a closing session has been erased. */
module SessionProgress {
  import opened Types
  import opened Counting
  import opened Framing
  import opened SessionProtocol
  import opened SessionSafety
  import opened SessionTheorems

  /** What comes from outside: a message from an actor, an outcome of the outstanding receive, a disconnect, and
      a completion that reports no byte as sent. */
  predicate Input(l: Label) {
    l.SendMessageTo? || l.TakeReceive? || l.TakeReceiveFailure? || l.Disconnect? || (l.TakeSend? && l.transferred == 0)
  }

  // ---- what is left to do ----

  /** What a thread has left to do from where it is, the bytes it moves on the way apart. */
  function PcWork(p: Pc): nat {
    match p
    case Idle => 0
    case PushDisconnected => 1
    case Erase => 2
    case CloseTest => 3
    case FindSession => 4
    case SendFailing => 5
    case SendIoFailed => 5
    case ReceiveFailing => 5
    case ReceiveIoFailed => 5
    case PostSend(n) => if n > 0 then 5 else 12
    case ReceiveSubmit => 6
    case TryReceive => 7
    case Submit => 7
    case ProcessReceive => 8
    case MoveBytes => 8
    case PostReceive => 9
    case PopMessage => 9
    case WriteTls => 10
    case QueueCheck(_) => 10
    case TrySend => 11
    case PostInitiateSend => 12
    case PostInitiateCompletion => 14
    case InitiateSend => 15
  }

  function ThreadWork(): Pc -> nat {
    (p: Pc) => PcWork(p)
  }

  /** Every byte costs a send of its own in the worst case. */
  function PathWork(p: SendPath): nat {
    12 * |EncodeAll(p.queue)| + 3 * |p.queue| + 12 * |EncodeAll(p.hand)| + |p.hand|
    + 12 * |p.bio| + 11 * |p.staged| + 11 * |p.ring|
  }

  function FlagWork(f: Flags): nat {
    6 * B2N(f.sendPending) + 13 * B2N(f.initiatePosted)
  }

  function Work(s: State): nat {
    SumOf(ThreadWork(), s.threads) + PathWork(s.path) + FlagWork(s.flags)
  }

  /** What an input adds. */
  function Cost(l: Label): nat {
    match l
    case SendMessageTo(_, m) => 18 + 12 * |Encode(m)|
    case TakeReceive(_) => 9
    case TakeReceiveFailure(_) => 5
    case Disconnect(_) => 4
    case TakeSend(_, _) => 6
    case _ => 0
  }

  /** The work of thread t's next step, without the other threads. */
  function Own(s: State, t: nat): nat
    requires t < |s.threads|
  {
    PcWork(s.threads[t]) + PathWork(s.path) + FlagWork(s.flags)
  }

  lemma OwnIsAll(s: State, s': State, t: nat)
    requires OneMoves(s, s', t)
    ensures Work(s') + Own(s, t) == Work(s) + Own(s', t)
  {
    hide PathWork, FlagWork;
    SumUpdate(ThreadWork(), s.threads, t, s'.threads[t]);
  }

  // ---- the send path ----

  lemma EncodeCons(m: Message, ms: seq<Message>)
    ensures |EncodeAll([m] + ms)| == |Encode(m)| + |EncodeAll(ms)|
    ensures |EncodeAll([m])| == |Encode(m)|
  {
    hide Encode;
    EncodeAllAppend([m], ms);
    assert EncodeAll([m]) == Encode(m) + EncodeAll([]);
  }

  lemma PopWork(p: SendPath)
    requires p.queue != [] && p.hand == []
    ensures PathWork(p.Pop()) + 2 == PathWork(p)
  {
    hide Encode;
    assert p.queue == [p.queue[0]] + p.queue[1..];
    EncodeCons(p.queue[0], p.queue[1..]);
  }

  lemma PushWork(p: SendPath, m: Message)
    ensures PathWork(p.Push(m)) == PathWork(p) + 12 * |Encode(m)| + 3
  {
    hide Encode;
    EncodeAllAppend(p.queue, [m]);
    EncodeCons(m, []);
  }

  lemma MovedWork(p: SendPath)
    ensures PathWork(p.Encrypt()) <= PathWork(p) && PathWork(p.Lose()) <= PathWork(p)
    ensures PathWork(p.Publish()) == PathWork(p)
    ensures forall n: nat | n <= |p.bio| :: PathWork(p.Stage(n)) + n == PathWork(p)
    ensures forall n: nat | n <= |p.ring| :: PathWork(p.Complete(n)) + 11 * n == PathWork(p)
  {
  }

  // ---- every step but an input lowers it ----

  lemma SendLowers(s: State, t: nat)
    requires t < |s.threads| && ProgramStep(s, t).Some? && Stage(s.threads[t], s)
    requires s.threads[t].OwnsSend() || s.threads[t].TrySend?
    ensures Own(ProgramStep(s, t).value, t) < Own(s, t)
  {
    hide EncodeAll, Encode, OneMoves, PathWork;
    MovedWork(s.path);
    if s.threads[t].PopMessage? && s.path.queue != [] {
      PopWork(s.path);
    }
  }

  lemma ReceiveLowers(s: State, t: nat)
    requires t < |s.threads| && ProgramStep(s, t).Some? && (s.threads[t].ProcessReceive? || s.threads[t].TryReceive?)
    ensures Own(ProgramStep(s, t).value, t) < Own(s, t)
  {
    hide EncodeAll, Encode, OneMoves, PathWork, TrySendStep, QueueCheckStep, SendOffline, PostSendStep,
         CloseTestStep, InitiateStep;
  }

  lemma CompletionLowers(s: State, t: nat)
    requires t < |s.threads| && ProgramStep(s, t).Some? && (s.threads[t].PostReceive? || s.threads[t].ReceiveIoFailed?)
    ensures Own(ProgramStep(s, t).value, t) < Own(s, t)
  {
    hide EncodeAll, Encode, OneMoves, PathWork, TrySendStep, QueueCheckStep, SendOffline, PostSendStep,
         CloseTestStep, InitiateStep;
  }

  lemma RequestLowers(s: State, t: nat)
    requires t < |s.threads| && ProgramStep(s, t).Some? && (s.threads[t].ReceiveSubmit? || s.threads[t].ReceiveFailing?)
    ensures Own(ProgramStep(s, t).value, t) < Own(s, t)
  {
    hide EncodeAll, Encode, OneMoves, PathWork, TrySendStep, QueueCheckStep, SendOffline, PostSendStep,
         CloseTestStep, InitiateStep;
  }

  lemma CleanupLowers(s: State, t: nat)
    requires t < |s.threads| && ProgramStep(s, t).Some?
    requires var p := s.threads[t]; p.FindSession? || p.CloseTest? || p.Erase? || p.PushDisconnected?
    ensures Own(ProgramStep(s, t).value, t) < Own(s, t)
  {
    hide EncodeAll, Encode, OneMoves, PathWork, TrySendStep, QueueCheckStep, SendOffline, PostSendStep,
         InitiateStep;
  }

  lemma InitiateLowers(s: State, t: nat)
    requires t < |s.threads| && ProgramStep(s, t).Some? && (s.threads[t].OwnsInitiate() || s.threads[t].InitiateSend?)
    ensures Own(ProgramStep(s, t).value, t) < Own(s, t)
  {
    hide EncodeAll, Encode, OneMoves, PathWork, TrySendStep, QueueCheckStep, SendOffline, PostSendStep,
         CloseTestStep;
  }

  lemma ProgramLowers(s: State, t: nat)
    requires t < |s.threads| && ProgramStep(s, t).Some? && Stage(s.threads[t], s)
    ensures Own(ProgramStep(s, t).value, t) < Own(s, t)
  {
    hide Own, Stage, OneMoves;
    NotIdle(s, t);
    var p := s.threads[t];
    if p.OwnsSend() || p.TrySend? { SendLowers(s, t); }
    else if p.ProcessReceive? || p.TryReceive? { ReceiveLowers(s, t); }
    else if p.PostReceive? || p.ReceiveIoFailed? { CompletionLowers(s, t); }
    else if p.ReceiveSubmit? || p.ReceiveFailing? { RequestLowers(s, t); }
    else if p.OwnsInitiate() || p.InitiateSend? { InitiateLowers(s, t); }
    else { CleanupLowers(s, t); }
  }

  lemma NotIdle(s: State, t: nat)
    requires t < |s.threads| && ProgramStep(s, t).Some?
    ensures !s.threads[t].Idle?
  {
  }

  lemma MoveLowers(s: State, t: nat, n: nat)
    requires t < |s.threads| && MoveStep(s, t, n).Some?
    ensures Own(MoveStep(s, t, n).value, t) < Own(s, t)
  {
    hide EncodeAll, Encode, OneMoves, PathWork;
    MovedWork(s.path);
    InFlightIsNoWork(s.path, n);
  }

  lemma InFlightIsNoWork(p: SendPath, n: nat)
    ensures PathWork(p.(inFlight := n)) == PathWork(p)
  {
  }

  lemma FailLowers(s: State, t: nat)
    requires t < |s.threads| && FailStep(s, t).Some?
    ensures Own(FailStep(s, t).value, t) < Own(s, t)
  {
    hide EncodeAll, Encode, OneMoves, PathWork;
    MovedWork(s.path);
  }

  lemma StartCosts(s: State, l: Label)
    requires l.t < |s.threads| && s.threads[l.t].Idle? && StartStep(s, l).Some?
    ensures Input(l) ==> Own(StartStep(s, l).value, l.t) <= Own(s, l.t) + Cost(l)
    ensures !Input(l) ==> Own(StartStep(s, l).value, l.t) < Own(s, l.t)
  {
    hide EncodeAll, Encode, OneMoves, PathWork;
    if l.SendMessageTo? {
      PushWork(s.path, l.message);
    }
  }

  /** Every step of a thread lowers the work left, and an input adds a bounded amount. */
  lemma StepWork(s: State, l: Label)
    requires Inv(s) && Next(s, l).Some?
    ensures Input(l) ==> Work(Next(s, l).value) <= Work(s) + Cost(l)
    ensures !Input(l) ==> Work(Next(s, l).value) < Work(s)
  {
    hide ProgramStep, StartStep, MoveStep, FailStep, OneMoves, Work, Own, Cost;
    OwnIsAll(s, Next(s, l).value, l.t);
    match l
    case Step(t) =>
      assert Stage(s.threads[t], s);
      ProgramLowers(s, t);
    case Move(t, n) => MoveLowers(s, t, n);
    case Fail(t) => FailLowers(s, t);
    case _ => StartCosts(s, l);
  }

  // ---- over executions ----

  function Steps(labels: seq<Label>): nat {
    if labels == [] then 0 else Steps(labels[..|labels| - 1]) + B2N(!Input(labels[|labels| - 1]))
  }

  function Costs(labels: seq<Label>): nat {
    if labels == [] then 0
    else
      var l := labels[|labels| - 1];
      Costs(labels[..|labels| - 1]) + if Input(l) then Cost(l) else 0
  }

  /** The threads take at most as many steps as the work at the start and the inputs since account for,
      whatever the schedule; without inputs they come to rest. */
  lemma {:induction false} StepsBounded(states: seq<State>, labels: seq<Label>, j: nat, k: nat)
    requires Execution(states, labels) && j <= k < |states|
    ensures Steps(labels[j..k]) + Work(states[k]) <= Work(states[j]) + Costs(labels[j..k])
  {
    hide Next, Inv, Init, Work, Cost, Input;
    if j < k {
      StepsBounded(states, labels, j, k - 1);
      assert labels[j..k][..k - 1 - j] == labels[j..k - 1];
      ReachableInv(states, labels, k - 1);
      assert Next(states[k - 1], labels[k - 1]) == Some(states[k]);
      StepWork(states[k - 1], labels[k - 1]);
    }
  }

  /** Until the session is quiescent some thread can take a step without any input. */
  lemma MovesUntilQuiescent(states: seq<State>, labels: seq<Label>, k: nat) returns (l: Label)
    requires Execution(states, labels) && k < |states| && !Quiescent(states[k])
    ensures !Input(l) && Next(states[k], l).Some?
  {
    ReachableInv(states, labels, k);
    SomeThread(states, labels, k);
    var s := states[k];
    if t: nat :| t < |s.threads| && !s.threads[t].Idle? {
      l := BusyMove(s, t);
      BusyIsNoInput(s, l);
    } else if s.flags.initiatePosted {
      l := TakeInitiate(0);
    } else {
      l := TakeSend(0, s.path.inFlight);
    }
  }

  lemma BusyIsNoInput(s: State, l: Label)
    requires l.t < |s.threads| && !s.threads[l.t].Idle? && Next(s, l).Some?
    ensures !Input(l)
  {
  }

  lemma {:induction false} SomeThread(states: seq<State>, labels: seq<Label>, k: nat)
    requires Execution(states, labels) && k < |states|
    ensures |states[k].threads| > 0
  {
    hide Init, Next;
    if k == 0 {
      InitHasThread(states[0]);
    } else {
      SomeThread(states, labels, k - 1);
      assert Next(states[k - 1], labels[k - 1]) == Some(states[k]);
      ThreadsStay(states[k - 1], labels[k - 1]);
    }
  }

  lemma InitHasThread(s: State)
    requires Init(s)
    ensures |s.threads| > 0
  {
  }

  lemma ThreadsStay(s: State, l: Label)
    requires Next(s, l).Some?
    ensures |Next(s, l).value.threads| == |s.threads|
  {
    hide ProgramStep, StartStep, MoveStep, FailStep;
  }

  /** A closing session is erased: at rest, with no receive outstanding, it is out of the table and has been
      announced exactly once. */
  lemma ClosingIsErased(states: seq<State>, labels: seq<Label>, k: nat)
    requires Execution(states, labels) && k < |states| && Quiescent(states[k])
    requires states[k].table.shouldClose && !states[k].flags.receivePending
    ensures !states[k].table.inTable && states[k].table.closed && states[k].table.disconnectedMessages == 1
  {
    hide Next, Init;
    ReachableInv(states, labels, k);
    CountZero(OwningSend(), states[k].threads);
    CountZero(OwningReceive(), states[k].threads);
    CountZero(OwningInitiate(), states[k].threads);
    TeardownCompletes(states, labels, k);
    AnnouncedAtMostOnce(states, labels, k);
  }
}
