/** The invariant of the session protocol, preserved by every step of every thread. */
module SessionSafety {
  import opened Types
  import opened Counting
  import opened Framing
  import opened SessionProtocol

  function OwningSend(): Pc -> bool { (p: Pc) => p.OwnsSend() }
  function OwningReceive(): Pc -> bool { (p: Pc) => p.OwnsReceive() }
  function OwningInitiate(): Pc -> bool { (p: Pc) => p.OwnsInitiate() }
  function HeadingForSend(): Pc -> bool { (p: Pc) => p.InitiateSend? || p.TrySend? }
  function HeadingForClose(): Pc -> bool { (p: Pc) => p.ClosingSoon() }
  function Cleaning(): Pc -> bool { (p: Pc) => p.OnCleanupPath() }
  function TestingClose(): Pc -> bool { (p: Pc) => p.CloseTest? }
  function Erasing(): Pc -> bool { (p: Pc) => p.Erase? }
  function Announcing(): Pc -> bool { (p: Pc) => p.PushDisconnected? }

  function Number(p: Pc -> bool, s: State): nat { CountIf(p, s.threads) }

  // ---- flags ----

  /** Each flag is up exactly while one thread or one outstanding request owns it. */
  ghost predicate FlagInv(s: State) {
    && Number(OwningSend(), s) + B2N(s.flags.sendPending) == B2N(s.flags.sendOnline)
    && Number(OwningReceive(), s) + B2N(s.flags.receivePending) == B2N(s.flags.receiveOnline)
    && Number(OwningInitiate(), s) + B2N(s.flags.initiatePosted) == B2N(s.flags.initiateOnline)
  }

  ghost predicate LockInv(s: State) {
    && (s.flags.sendLock.Some? ==> s.flags.sendLock.value < |s.threads|)
    && forall t :: 0 <= t < |s.threads| ==> (s.threads[t].QueueCheck? <==> s.flags.sendLock == Some(t))
  }

  // ---- the send path ----

  /** What the owner of the Send flag has in its hands at each point.  Between sends everything has left
      the TLS layer, and a submitted send is never empty. */
  ghost predicate Stage(p: Pc, s: State) {
    && (p.OwnsSend() && !p.WriteTls? ==> s.path.hand == [])
    && (p.OwnsSend() && !p.MoveBytes? ==> s.path.staged == [])
    && (p.OwnsSend() && !p.Processing() && !s.path.failed ==> s.path.bio == [])
    && (p.QueueCheck? ==> p.ringEmpty == (s.path.ring == []))
    && (p.PopMessage? ==> s.path.queue != [] || s.path.bio != [] || s.path.ring != [])
    && (p.WriteTls? ==> |s.path.hand| == 1)
    && (p.MoveBytes? ==> s.path.bio != [] || s.path.staged != [] || s.path.ring != [])
    && (p.Submit? ==> s.path.ring != [] && (!s.path.failed ==> s.path.bio == []))
    && (p.PostSend? ==> p.transferred <= |s.path.ring|)
  }

  /** What holds of the bytes while nobody is inside the send path, and of the room in the ring. */
  ghost predicate Resting(s: State) {
    && (!s.flags.sendOnline || s.flags.sendPending ==>
          s.path.hand == [] && s.path.staged == [] && (!s.path.failed ==> s.path.bio == []))
    && (s.flags.sendPending ==> 0 < s.path.inFlight <= |s.path.ring|)
    && |s.path.ring| + |s.path.staged| < s.path.capacity
  }

  ghost predicate StageInv(s: State) {
    Resting(s) && forall t :: 0 <= t < |s.threads| ==> Stage(s.threads[t], s)
  }

  /** The wire, the ring, the staged bytes, the TLS layer and the queue together are exactly the encoded
      messages, in push order. */
  ghost predicate Conserves(p: SendPath) {
    p.wire + (p.ring + (p.staged + (p.bio + EncodeAll(p.hand + p.queue)))) == EncodeAll(p.pushed)
  }

  /** Until a send fails no byte is lost or reordered. */
  ghost predicate ConservationInv(s: State) {
    !s.path.failed ==> Conserves(s.path)
  }

  /** Somebody will come back to the send path. */
  ghost predicate Attended(s: State) {
    s.flags.sendOnline || s.flags.initiateOnline || Number(HeadingForSend(), s) > 0
  }

  ghost predicate Closing(s: State) {
    s.table.shouldClose || Number(HeadingForClose(), s) > 0
  }

  ghost predicate AttendedInv(s: State) {
    && (!s.path.Empty() ==> Attended(s) || Closing(s))
    && (s.path.failed ==> Closing(s))
  }

  // ---- teardown ----

  ghost predicate TeardownInv(s: State) {
    && (Number(TestingClose(), s) > 0 ==> s.table.shouldClose)
    // a thread that set the mark while the send region was held is still waiting for it
    && (s.table.shouldClose && s.flags.sendLock.Some? ==> Number(TestingClose(), s) > 0)
    && (s.table.shouldClose && s.table.inTable ==>
          s.flags.sendOnline || s.flags.receiveOnline || s.flags.initiateOnline || Number(Cleaning(), s) > 0)
    && (s.table.closed ==> s.table.shouldClose && !s.flags.sendOnline && !s.flags.receiveOnline)
    && (s.table.closed ==> !s.table.inTable || Number(Erasing(), s) > 0)
    && (Number(Erasing(), s) > 0 || !s.table.inTable ==> s.table.closed)
    && s.table.disconnectedMessages + Number(Announcing(), s) == B2N(!s.table.inTable)
  }

  ghost predicate Inv(s: State) {
    FlagInv(s) && LockInv(s) && StageInv(s) && ConservationInv(s) && AttendedInv(s) && TeardownInv(s)
  }

  lemma InitInv(s: State)
    requires Init(s)
    ensures Inv(s)
  {
    hide CountIf;
    CountZero(OwningSend(), s.threads);
    CountZero(OwningReceive(), s.threads);
    CountZero(OwningInitiate(), s.threads);
    CountZero(Announcing(), s.threads);
    CountZero(Erasing(), s.threads);
    CountZero(TestingClose(), s.threads);
  }

  // ---- counts under one thread's move ----

  ghost predicate Moves(p: Pc -> bool, s: State, t: nat, x: Pc)
    requires t < |s.threads|
  {
    CountIf(p, s.threads[t := x]) + B2N(p(s.threads[t])) == CountIf(p, s.threads) + B2N(p(x))
  }

  /** How every count used by the invariant changes when thread t goes to x. */
  lemma CountsMove(s: State, t: nat, x: Pc)
    requires t < |s.threads|
    ensures Moves(OwningSend(), s, t, x) && Moves(OwningReceive(), s, t, x) && Moves(OwningInitiate(), s, t, x)
    ensures Moves(HeadingForSend(), s, t, x) && Moves(HeadingForClose(), s, t, x)
    ensures Moves(Cleaning(), s, t, x) && Moves(TestingClose(), s, t, x)
    ensures Moves(Erasing(), s, t, x) && Moves(Announcing(), s, t, x)
  {
    CountUpdate(OwningSend(), s.threads, t, x);
    CountUpdate(OwningReceive(), s.threads, t, x);
    CountUpdate(OwningInitiate(), s.threads, t, x);
    CountUpdate(HeadingForSend(), s.threads, t, x);
    CountUpdate(HeadingForClose(), s.threads, t, x);
    CountUpdate(Cleaning(), s.threads, t, x);
    CountUpdate(TestingClose(), s.threads, t, x);
    CountUpdate(Erasing(), s.threads, t, x);
    CountUpdate(Announcing(), s.threads, t, x);
  }

  /** Where thread l.t goes. */
  function Target(s: State, l: Label): Pc
    requires l.t < |s.threads| && Next(s, l).Some?
  {
    var s' := Next(s, l).value;
    if l.t < |s'.threads| then s'.threads[l.t] else Idle
  }

  lemma OneThreadMoves(s: State, l: Label)
    requires Next(s, l).Some?
    ensures l.t < |s.threads| && Next(s, l).value.threads == s.threads[l.t := Target(s, l)]
  {
    hide ProgramStep, StartStep, MoveStep, FailStep;
  }

  lemma Owned(s: State, t: nat)
    requires FlagInv(s) && t < |s.threads|
    ensures s.threads[t].OwnsSend() ==> s.flags.sendOnline && !s.flags.sendPending && Number(OwningSend(), s) == 1
    ensures s.threads[t].OwnsReceive() ==> s.flags.receiveOnline && !s.flags.receivePending
    ensures s.threads[t].OwnsInitiate() ==> s.flags.initiateOnline && !s.flags.initiatePosted
    ensures s.threads[t].ClosingSoon() ==> Number(HeadingForClose(), s) > 0
    ensures s.threads[t].Erase? ==> Number(Erasing(), s) > 0
    ensures s.threads[t].CloseTest? ==> Number(TestingClose(), s) > 0
  {
    if s.threads[t].OwnsSend() { CountPositive(OwningSend(), s.threads, t); }
    if s.threads[t].OwnsReceive() { CountPositive(OwningReceive(), s.threads, t); }
    if s.threads[t].OwnsInitiate() { CountPositive(OwningInitiate(), s.threads, t); }
    if s.threads[t].ClosingSoon() { CountPositive(HeadingForClose(), s.threads, t); }
    if s.threads[t].Erase? { CountPositive(Erasing(), s.threads, t); }
    if s.threads[t].CloseTest? { CountPositive(TestingClose(), s.threads, t); }
  }

  lemma SoleSender(s: State, t: nat, u: nat)
    requires FlagInv(s) && t < |s.threads| && u < |s.threads| && t != u && s.threads[t].OwnsSend()
    ensures !s.threads[u].OwnsSend()
  {
    if s.threads[u].OwnsSend() {
      CountUnique(OwningSend(), s.threads, t, u);
    }
  }

  // ---- preservation of flags, attendance and teardown ----

  /** The parts of the invariant that speak about flags and thread counts only. */
  ghost predicate ControlInv(s: State) {
    FlagInv(s) && LockInv(s) && AttendedInv(s) && TeardownInv(s)
  }

  lemma CountFacts(s: State)
    ensures Number(TestingClose(), s) <= Number(Cleaning(), s)
  {
    CountImplies(TestingClose(), Cleaning(), s.threads);
  }

  lemma Prepare(s: State, l: Label)
    requires Next(s, l).Some?
    ensures
      var s', x := Next(s, l).value, Target(s, l);
      && s'.threads == s.threads[l.t := x]
      && Moves(OwningSend(), s, l.t, x) && Moves(OwningReceive(), s, l.t, x) && Moves(OwningInitiate(), s, l.t, x)
      && Moves(HeadingForSend(), s, l.t, x) && Moves(HeadingForClose(), s, l.t, x)
      && Moves(Cleaning(), s, l.t, x) && Moves(TestingClose(), s, l.t, x)
      && Moves(Erasing(), s, l.t, x) && Moves(Announcing(), s, l.t, x)
      && Number(TestingClose(), s') <= Number(Cleaning(), s')
  {
    OneThreadMoves(s, l);
    CountsMove(s, l.t, Target(s, l));
    CountFacts(s);
    CountFacts(Next(s, l).value);
  }

  lemma InitiateControl(s: State, t: nat)
    requires ControlInv(s) && Next(s, Step(t)).Some?
    requires var p := s.threads[t]; p.InitiateSend? || p.PostInitiateCompletion? || p.PostInitiateSend?
    ensures ControlInv(Next(s, Step(t)).value)
  {
    hide CountIf, EncodeAll;
    Prepare(s, Step(t));
    Owned(s, t);
  }

  lemma TrySendControl(s: State, t: nat)
    requires ControlInv(s) && Next(s, Step(t)).Some? && s.threads[t].TrySend?
    ensures ControlInv(Next(s, Step(t)).value)
  {
    Prepare(s, Step(t));
  }

  lemma QueueCheckControl(s: State, t: nat)
    requires ControlInv(s) && Next(s, Step(t)).Some? && s.threads[t].QueueCheck?
    requires s.threads[t].ringEmpty && s.path.queue == [] ==> s.path.Empty() || s.path.failed
    ensures ControlInv(Next(s, Step(t)).value)
  {
    Prepare(s, Step(t));
    Owned(s, t);
  }

  lemma EncryptingControl(s: State, t: nat)
    requires ControlInv(s) && Next(s, Step(t)).Some? && (s.threads[t].PopMessage? || s.threads[t].WriteTls?)
    ensures ControlInv(Next(s, Step(t)).value)
  {
    hide CountIf, EncodeAll;
    Prepare(s, Step(t));
    Owned(s, t);
  }

  lemma DrainingControl(s: State, t: nat)
    requires ControlInv(s) && Next(s, Step(t)).Some? && (s.threads[t].MoveBytes? || s.threads[t].Submit?)
    ensures ControlInv(Next(s, Step(t)).value)
  {
    hide CountIf, EncodeAll;
    Prepare(s, Step(t));
    Owned(s, t);
  }

  lemma MovingControl(s: State, l: Label)
    requires ControlInv(s) && Next(s, l).Some? && (l.Move? || l.Fail?) && s.threads[l.t].Processing()
    ensures ControlInv(Next(s, l).value)
  {
    Prepare(s, l);
    Owned(s, l.t);
  }

  lemma CompletionControl(s: State, t: nat)
    requires ControlInv(s) && Next(s, Step(t)).Some?
    requires var p := s.threads[t]; p.SendFailing? || p.SendIoFailed? || p.PostSend?
    ensures ControlInv(Next(s, Step(t)).value)
  {
    Prepare(s, Step(t));
    Owned(s, t);
  }

  lemma ReceiveControl(s: State, l: Label)
    requires ControlInv(s) && Next(s, l).Some? && s.threads[l.t].OwnsReceive()
    ensures ControlInv(Next(s, l).value)
  {
    hide CountIf, EncodeAll;
    Prepare(s, l);
    Owned(s, l.t);
  }

  lemma RearmControl(s: State, l: Label)
    requires ControlInv(s) && Next(s, l).Some? && (s.threads[l.t].ProcessReceive? || s.threads[l.t].TryReceive?)
    ensures ControlInv(Next(s, l).value)
  {
    hide CountIf, EncodeAll;
    Prepare(s, l);
  }

  lemma CleanupControl(s: State, t: nat)
    requires ControlInv(s) && Next(s, Step(t)).Some?
    requires var p := s.threads[t]; p.FindSession? || p.CloseTest? || p.Erase? || p.PushDisconnected?
    ensures ControlInv(Next(s, Step(t)).value)
  {
    hide CountIf, EncodeAll;
    Prepare(s, Step(t));
    Owned(s, t);
  }

  lemma RequestControl(s: State, l: Label)
    requires ControlInv(s) && Next(s, l).Some? && s.threads[l.t].Idle? && (l.SendMessageTo? || l.Disconnect?)
    ensures ControlInv(Next(s, l).value)
  {
    hide CountIf, EncodeAll;
    Prepare(s, l);
  }

  lemma TakeSendControl(s: State, l: Label)
    requires ControlInv(s) && Next(s, l).Some? && s.threads[l.t].Idle? &&
             (l.TakeSend? || l.TakeSendFailure? || l.TakeInitiate?)
    ensures ControlInv(Next(s, l).value)
  {
    hide CountIf, EncodeAll;
    Prepare(s, l);
  }

  lemma TakeReceiveControl(s: State, l: Label)
    requires ControlInv(s) && Next(s, l).Some? && s.threads[l.t].Idle? && (l.TakeReceive? || l.TakeReceiveFailure?)
    ensures ControlInv(Next(s, l).value)
  {
    hide CountIf, EncodeAll;
    Prepare(s, l);
  }

  // ---- preservation on the send path ----

  lemma PushConserves(p: SendPath, m: Message)
    requires Conserves(p)
    ensures Conserves(p.Push(m))
  {
    var front := p.hand + p.queue;
    EncodeAllAppend(front, [m]);
    EncodeAllAppend(p.pushed, [m]);
    assert p.hand + (p.queue + [m]) == front + [m];
    var a, e := EncodeAll(front), EncodeAll([m]);
    AppendAtTheEnd(p.wire, p.ring, p.staged, p.bio, a, e);
  }

  lemma AppendAtTheEnd(wire: seq<byte>, ring: seq<byte>, staged: seq<byte>, bio: seq<byte>, a: seq<byte>, e: seq<byte>)
    ensures wire + (ring + (staged + (bio + (a + e)))) == wire + (ring + (staged + (bio + a))) + e
  {
    assert bio + (a + e) == bio + a + e;
    assert staged + (bio + a + e) == staged + (bio + a) + e;
    assert ring + (staged + (bio + a) + e) == ring + (staged + (bio + a)) + e;
  }

  lemma PopConserves(p: SendPath)
    requires Conserves(p) && p.queue != [] && p.hand == []
    ensures Conserves(p.Pop())
  {
    assert p.hand + p.queue == [p.queue[0]] + p.queue[1..];
  }

  lemma EncryptConserves(p: SendPath)
    requires Conserves(p)
    ensures Conserves(p.Encrypt())
  {
    EncodeAllAppend(p.hand, p.queue);
    assert [] + p.queue == p.queue;
    assert p.bio + (EncodeAll(p.hand) + EncodeAll(p.queue)) == p.bio + EncodeAll(p.hand) + EncodeAll(p.queue);
  }

  lemma StageConserves(p: SendPath, n: nat)
    requires Conserves(p) && n <= |p.bio|
    ensures Conserves(p.Stage(n))
  {
    var rest := EncodeAll(p.hand + p.queue);
    assert p.bio == p.bio[..n] + p.bio[n..];
    assert p.staged + (p.bio + rest) == p.staged + p.bio[..n] + (p.bio[n..] + rest);
  }

  lemma PublishConserves(p: SendPath)
    requires Conserves(p)
    ensures Conserves(p.Publish())
  {
    var rest := p.bio + EncodeAll(p.hand + p.queue);
    assert p.ring + (p.staged + rest) == p.ring + p.staged + ([] + rest);
  }

  lemma CompleteConserves(p: SendPath, n: nat)
    requires Conserves(p) && n <= |p.ring|
    ensures Conserves(p.Complete(n))
  {
    var rest := p.staged + (p.bio + EncodeAll(p.hand + p.queue));
    assert p.ring == p.ring[..n] + p.ring[n..];
    assert p.wire + (p.ring + rest) == p.wire + p.ring[..n] + (p.ring[n..] + rest);
  }

  lemma ConservationKept(s: State, l: Label)
    requires StageInv(s) && ConservationInv(s) && Next(s, l).Some?
    ensures ConservationInv(Next(s, l).value)
  {
    var p, p' := s.path, Next(s, l).value.path;
    assert Stage(s.threads[l.t], s);
    if !p'.failed && p' != p {
      match l
      case SendMessageTo(_, m) => PushConserves(p, m);
      case Move(_, n) => if s.threads[l.t].MoveBytes? { StageConserves(p, n); }
      case Step(t) =>
        match s.threads[t] {
          case PopMessage => PopConserves(p);
          case WriteTls => EncryptConserves(p);
          case MoveBytes => PublishConserves(p);
          case PostSend(n) => CompleteConserves(p, n);
          case _ =>
        }
      case _ =>
    }
  }

  /** Other threads' stages survive: they own nothing while the moving thread owns the Send flag, and
      any other step only lengthens the queue. */
  lemma StagesKept(s: State, l: Label)
    requires FlagInv(s) && StageInv(s) && Next(s, l).Some?
    ensures forall u :: 0 <= u < |s.threads| && u != l.t ==> Stage(s.threads[u], Next(s, l).value)
  {
    if s.threads[l.t].OwnsSend() {
      forall u | 0 <= u < |s.threads| && u != l.t
        ensures Stage(s.threads[u], Next(s, l).value)
      {
        SoleSender(s, l.t, u);
      }
    } else {
      OthersUntouched(s, l);
    }
  }

  lemma OthersUntouched(s: State, l: Label)
    requires Next(s, l).Some? && !s.threads[l.t].OwnsSend()
    ensures
      var p, p' := s.path, Next(s, l).value.path;
      p' == p || (l.SendMessageTo? && p' == p.Push(l.message))
  {
  }

  /** Where the moving thread stands afterwards, and what holds if it has left the send path. */
  ghost predicate Moved(s: State, l: Label)
    requires Next(s, l).Some?
  {
    var s' := Next(s, l).value;
    l.t < |s'.threads| && Stage(s'.threads[l.t], s') && Resting(s')
  }

  /** A step that leaves the bytes and the Send flag alone. */
  ghost predicate Untouched(s: State, l: Label)
    requires Next(s, l).Some?
  {
    var s' := Next(s, l).value;
    && s'.path == s.path && s'.flags.sendOnline == s.flags.sendOnline && s'.flags.sendPending == s.flags.sendPending
    && l.t < |s'.threads| && !s'.threads[l.t].OwnsSend()
  }

  lemma ReceiveUntouched(s: State, l: Label)
    requires Next(s, l).Some? &&
             (s.threads[l.t].OwnsReceive() || s.threads[l.t].ProcessReceive? || s.threads[l.t].TryReceive?)
    ensures Untouched(s, l)
  {
  }

  lemma CleanupUntouched(s: State, l: Label)
    requires Next(s, l).Some?
    requires var p := s.threads[l.t]; p.FindSession? || p.CloseTest? || p.Erase? || p.PushDisconnected?
    ensures Untouched(s, l)
  {
  }

  lemma InitiateUntouched(s: State, l: Label)
    requires Next(s, l).Some? && (s.threads[l.t].InitiateSend? || s.threads[l.t].OwnsInitiate())
    ensures Untouched(s, l)
  {
  }

  lemma OutsideMoved(s: State, l: Label)
    requires FlagInv(s) && StageInv(s) && Next(s, l).Some?
    requires var p := s.threads[l.t]; !p.OwnsSend() && !p.TrySend? && !p.Idle?
    ensures Moved(s, l)
  {
    var p := s.threads[l.t];
    if p.InitiateSend? || p.OwnsInitiate() { InitiateUntouched(s, l); }
    else if p.OwnsReceive() || p.ProcessReceive? || p.TryReceive? { ReceiveUntouched(s, l); }
    else { CleanupUntouched(s, l); }
    var s' := Next(s, l).value;
    assert Stage(s'.threads[l.t], s');
  }

  lemma StartMoved(s: State, l: Label)
    requires FlagInv(s) && StageInv(s) && Next(s, l).Some? && s.threads[l.t].Idle?
    ensures Moved(s, l)
  {
  }

  lemma RegionMoved(s: State, t: nat)
    requires FlagInv(s) && StageInv(s) && Next(s, Step(t)).Some? && (s.threads[t].TrySend? || s.threads[t].QueueCheck?)
    ensures Moved(s, Step(t))
  {
    assert Stage(s.threads[t], s);
    Owned(s, t);
  }

  lemma ProcessingMoved(s: State, l: Label)
    requires FlagInv(s) && StageInv(s) && Next(s, l).Some? && s.threads[l.t].Processing()
    ensures Moved(s, l)
  {
    assert Stage(s.threads[l.t], s);
    Owned(s, l.t);
  }

  lemma CompletionMoved(s: State, t: nat)
    requires FlagInv(s) && StageInv(s) && Next(s, Step(t)).Some?
    requires var p := s.threads[t]; p.SendFailing? || p.SendIoFailed? || p.PostSend?
    ensures Moved(s, Step(t))
  {
    assert Stage(s.threads[t], s);
    Owned(s, t);
  }

  lemma StageKept(s: State, l: Label)
    requires FlagInv(s) && StageInv(s) && Next(s, l).Some? && Moved(s, l)
    ensures StageInv(Next(s, l).value)
  {
    OneThreadMoves(s, l);
    StagesKept(s, l);
  }

  // ---- every step ----

  lemma ControlKept(s: State, l: Label)
    requires Inv(s) && Next(s, l).Some?
    ensures ControlInv(Next(s, l).value)
  {
    var p := s.threads[l.t];
    assert Stage(p, s);
    if p.Idle? {
      if l.SendMessageTo? || l.Disconnect? { RequestControl(s, l); }
      else if l.TakeReceive? || l.TakeReceiveFailure? { TakeReceiveControl(s, l); }
      else { TakeSendControl(s, l); }
    } else if p.OwnsReceive() {
      ReceiveControl(s, l);
    } else if p.ProcessReceive? || p.TryReceive? {
      RearmControl(s, l);
    } else if p.Processing() {
      if !l.Step? { MovingControl(s, l); }
      else if p.PopMessage? || p.WriteTls? { EncryptingControl(s, l.t); }
      else { DrainingControl(s, l.t); }
    } else if p.TrySend? {
      TrySendControl(s, l.t);
    } else if p.QueueCheck? {
      Owned(s, l.t);
      QueueCheckControl(s, l.t);
    } else if p.SendFailing? || p.SendIoFailed? || p.PostSend? {
      CompletionControl(s, l.t);
    } else if p.InitiateSend? || p.PostInitiateCompletion? || p.PostInitiateSend? {
      InitiateControl(s, l.t);
    } else {
      CleanupControl(s, l.t);
    }
  }

  lemma BytesKept(s: State, l: Label)
    requires FlagInv(s) && StageInv(s) && ConservationInv(s) && Next(s, l).Some?
    ensures StageInv(Next(s, l).value) && ConservationInv(Next(s, l).value)
  {
    var p := s.threads[l.t];
    if p.Idle? { StartMoved(s, l); }
    else if p.TrySend? || p.QueueCheck? { RegionMoved(s, l.t); }
    else if p.Processing() { ProcessingMoved(s, l); }
    else if p.OwnsSend() { CompletionMoved(s, l.t); }
    else { OutsideMoved(s, l); }
    StageKept(s, l);
    ConservationKept(s, l);
  }

  /** Every step of every thread keeps the invariant. */
  lemma NextInv(s: State, l: Label)
    requires Inv(s) && Next(s, l).Some?
    ensures Inv(Next(s, l).value)
  {
    ControlKept(s, l);
    BytesKept(s, l);
  }
}
