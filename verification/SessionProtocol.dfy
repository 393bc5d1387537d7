/** One session as its threads see it: the three "I/O online" flags, the send path from the message queue
    to the wire, re-arming of receives, and teardown.  Every lock region, atomic operation, completion
    and system call is one step of one thread; any number of threads interleave freely.

    The session's rings appear by their contents; SessionSend and SessionReceive prove that the buffer
    code implements those contents.  TLS keeps order and adds nothing. */
module SessionProtocol {
  import opened Types
  import opened Framing

  /** Where a thread is.  The names follow the routine that the thread is inside. */
  datatype Pc =
    | Idle
    // SendMessageTo, after pushing its message
    | InitiateSend
    | PostInitiateCompletion
    // the dispatch of an InitiateSend completion
    | PostInitiateSend
    // TrySendAsync
    | TrySend
    | QueueCheck(ringEmpty: bool)
    | PopMessage
    | WriteTls
    | MoveBytes
    | Submit
    | SendFailing
    // completions of a send
    | PostSend(transferred: nat)
    | SendIoFailed
    // completions of a receive, TryPostReceive and TryReceiveAsync
    | PostReceive
    | ProcessReceive
    | TryReceive
    | ReceiveSubmit
    | ReceiveFailing
    | ReceiveIoFailed
    // SessionCleanupRoutine
    | FindSession
    | CloseTest
    | Erase
    | PushDisconnected
  {
    /** This thread is the one for which the Send flag is up. */
    predicate OwnsSend() {
      QueueCheck? || PopMessage? || WriteTls? || MoveBytes? || Submit? || SendFailing? || PostSend? || SendIoFailed?
    }

    predicate OwnsReceive() {
      PostReceive? || ReceiveSubmit? || ReceiveFailing? || ReceiveIoFailed?
    }

    predicate OwnsInitiate() {
      PostInitiateCompletion? || PostInitiateSend?
    }

    /** Inside TryProcessSendBuffers or about to submit. */
    predicate Processing() {
      PopMessage? || WriteTls? || MoveBytes? || Submit?
    }

    /** Bound to run the cleanup routine to the point where the session is closing. */
    predicate ClosingSoon() {
      SendFailing? || SendIoFailed? || FindSession?
    }

    /** On a path that ends in the cleanup routine unless a flag is raised on the way. */
    predicate OnCleanupPath() {
      TrySend? || ProcessReceive? || TryReceive? || FindSession? || CloseTest? || Erase?
    }
  }

  /** The flags, the lock of the Send flag where a region spans two steps, and the requests handed to the
      system and not yet completed. */
  datatype Flags = Flags(sendLock: Option<nat>,
                         sendOnline: bool, receiveOnline: bool, initiateOnline: bool,
                         sendPending: bool, receivePending: bool, initiatePosted: bool)

  /** The send path, back to front: queue, the message in hand, the write BIO, the bytes staged behind the
      ring's tail, the ring, of which a submitted send covers the first `inFlight` bytes.  `hand` and
      `staged` belong to the thread inside TryProcessSendBuffers.  `pushed`, `wire` and `failed` observe. */
  datatype SendPath = SendPath(queue: seq<Message>, hand: seq<Message>, bio: seq<byte>, staged: seq<byte>,
                               ring: seq<byte>, inFlight: nat, capacity: nat,
                               pushed: seq<Message>, wire: seq<byte>, failed: bool)
  {
    predicate Empty() {
      queue == [] && hand == [] && bio == [] && staged == [] && ring == []
    }

    function Push(m: Message): SendPath {
      this.(queue := queue + [m], pushed := pushed + [m])
    }

    function Pop(): SendPath
      requires queue != []
    {
      this.(queue := queue[1..], hand := [queue[0]])
    }

    function Encrypt(): SendPath {
      this.(hand := [], bio := bio + EncodeAll(hand))
    }

    function Stage(n: nat): SendPath
      requires n <= |bio|
    {
      this.(staged := staged + bio[..n], bio := bio[n..])
    }

    function Publish(): SendPath {
      this.(ring := ring + staged, staged := [])
    }

    function Complete(n: nat): SendPath
      requires n <= |ring|
    {
      this.(ring := ring[n..], wire := wire + ring[..n], inFlight := 0)
    }

    function Lose(): SendPath {
      this.(hand := [], staged := [], failed := true)
    }

    predicate RingFull() {
      |ring| + |staged| + 1 >= capacity
    }
  }

  /** The closing mark, the entry in the session table and the disconnect messages pushed.  `closed`
      observes that Close has returned true. */
  datatype Table = Table(shouldClose: bool, inTable: bool, disconnectedMessages: nat, closed: bool)

  datatype State = State(threads: seq<Pc>, flags: Flags, path: SendPath, table: Table)

  /** Accepted and entered into the table; the accepting thread is about to arm the first receive. */
  ghost predicate Init(s: State) {
    && |s.threads| > 0 && s.threads[0] == TryReceive
    && (forall t :: 0 < t < |s.threads| ==> s.threads[t] == Idle)
    && s.flags == Flags(None, false, false, false, false, false, false)
    && s.path.capacity > 0 && s.path == SendPath([], [], [], [], [], 0, s.path.capacity, [], [], false)
    && s.table == Table(false, true, 0, false)
  }

  /** The thread, and what it does where it has a choice. */
  datatype Label =
    | Step(t: nat)
    | Move(t: nat, n: nat)          // a chunk of n bytes leaves the BIO, or a send of n bytes is submitted
    | Fail(t: nat)                  // TLS error, refused request, failed processing of a receive
    | SendMessageTo(t: nat, message: Message)
    | TakeInitiate(t: nat)
    | TakeSend(t: nat, transferred: nat)
    | TakeSendFailure(t: nat)
    | TakeReceive(t: nat)
    | TakeReceiveFailure(t: nat)
    | Disconnect(t: nat)

  function Next(s: State, l: Label): Option<State> {
    if l.t >= |s.threads| then None
    else
      match l
      case Step(t) => ProgramStep(s, t)
      case Move(t, n) => MoveStep(s, t, n)
      case Fail(t) => FailStep(s, t)
      case _ => if s.threads[l.t].Idle? then StartStep(s, l) else None
  }

  /** Only thread t has moved. */
  ghost predicate OneMoves(s: State, s': State, t: nat) {
    t < |s.threads| && t < |s'.threads| && s'.threads == s.threads[t := s'.threads[t]]
  }

  /** Thread t goes to pc, with new flags, send path and table. */
  function Go(s: State, t: nat, pc: Pc, flags: Flags, path: SendPath, table: Table): (r: State)
    requires t < |s.threads|
    ensures OneMoves(s, r, t) && r.threads[t] == pc
  {
    State(s.threads[t := pc], flags, path, table)
  }

  function Goto(s: State, t: nat, pc: Pc): (r: State)
    requires t < |s.threads|
    ensures OneMoves(s, r, t) && r.threads[t] == pc
  {
    Go(s, t, pc, s.flags, s.path, s.table)
  }

  function GotoFlags(s: State, t: nat, pc: Pc, flags: Flags): (r: State)
    requires t < |s.threads|
    ensures OneMoves(s, r, t) && r.threads[t] == pc
  {
    Go(s, t, pc, flags, s.path, s.table)
  }

  function GotoPath(s: State, t: nat, pc: Pc, path: SendPath): (r: State)
    requires t < |s.threads|
    ensures OneMoves(s, r, t) && r.threads[t] == pc
  {
    Go(s, t, pc, s.flags, path, s.table)
  }

  function GotoTable(s: State, t: nat, pc: Pc, table: Table): (r: State)
    requires t < |s.threads|
    ensures OneMoves(s, r, t) && r.threads[t] == pc
  {
    Go(s, t, pc, s.flags, s.path, table)
  }

  /** What an idle thread may start: a message from an actor, a completion, a disconnect. */
  function StartStep(s: State, l: Label): (r: Option<State>)
    requires l.t < |s.threads|
    ensures r.Some? ==> OneMoves(s, r.value, l.t)
  {
    var f := s.flags;
    match l
    case SendMessageTo(t, m) =>
      if s.table.inTable then Some(GotoPath(s, t, InitiateSend, s.path.Push(m))) else Some(Goto(s, t, Idle))
    case TakeInitiate(t) =>
      if f.initiatePosted then Some(GotoFlags(s, t, PostInitiateSend, f.(initiatePosted := false))) else None
    case TakeSend(t, n) =>
      if f.sendPending && n <= s.path.inFlight then Some(GotoFlags(s, t, PostSend(n), f.(sendPending := false)))
      else None
    case TakeSendFailure(t) =>
      if f.sendPending then Some(GotoFlags(s, t, SendIoFailed, f.(sendPending := false))) else None
    case TakeReceive(t) =>
      if f.receivePending then Some(GotoFlags(s, t, PostReceive, f.(receivePending := false))) else None
    case TakeReceiveFailure(t) =>
      if f.receivePending then Some(GotoFlags(s, t, ReceiveIoFailed, f.(receivePending := false))) else None
    case Disconnect(t) => Some(Goto(s, t, FindSession))
    case _ => None
  }

  function ProgramStep(s: State, t: nat): (r: Option<State>)
    requires t < |s.threads|
    ensures r.Some? ==> OneMoves(s, r.value, t)
  {
    match s.threads[t]
    case InitiateSend => InitiateStep(s, t)
    case PostInitiateCompletion => Some(GotoFlags(s, t, Idle, s.flags.(initiatePosted := true)))
    case PostInitiateSend => Some(GotoFlags(s, t, TrySend, s.flags.(initiateOnline := false)))
    case TrySend => TrySendStep(s, t)
    case QueueCheck(ringEmpty) => QueueCheckStep(s, t, ringEmpty)
    case PopMessage =>
      if s.path.queue == [] then Some(Goto(s, t, MoveBytes)) else Some(GotoPath(s, t, WriteTls, s.path.Pop()))
    case WriteTls => Some(GotoPath(s, t, PopMessage, s.path.Encrypt()))
    case MoveBytes =>
      if s.path.bio == [] then Some(GotoPath(s, t, Submit, s.path.Publish()))
      else if s.path.RingFull() then Some(GotoPath(s, t, SendFailing, s.path.Lose()))
      else None
    case SendFailing => SendOffline(s, t)
    case SendIoFailed => SendOffline(s, t)
    case PostSend(n) => PostSendStep(s, t, n)
    case PostReceive => Some(GotoFlags(s, t, ProcessReceive, s.flags.(receiveOnline := false)))
    case ProcessReceive => Some(Goto(s, t, TryReceive))
    case TryReceive =>
      if s.flags.receiveOnline || s.table.shouldClose then Some(Goto(s, t, FindSession))
      else Some(GotoFlags(s, t, ReceiveSubmit, s.flags.(receiveOnline := true)))
    case ReceiveSubmit => Some(GotoFlags(s, t, Idle, s.flags.(receivePending := true)))
    case ReceiveFailing => Some(GotoFlags(s, t, FindSession, s.flags.(receiveOnline := false)))
    case ReceiveIoFailed => Some(GotoFlags(s, t, FindSession, s.flags.(receiveOnline := false)))
    case FindSession =>
      // looking up the session and setting its closing mark are taken together
      if s.table.inTable then Some(GotoTable(s, t, CloseTest, s.table.(shouldClose := true)))
      else Some(Goto(s, t, Idle))
    case CloseTest => CloseTestStep(s, t)
    case Erase =>
      if s.table.inTable then Some(GotoTable(s, t, PushDisconnected, s.table.(inTable := false)))
      else Some(Goto(s, t, Idle))
    case PushDisconnected =>
      Some(GotoTable(s, t, Idle, s.table.(disconnectedMessages := s.table.disconnectedMessages + 1)))
    case _ => None
  }

  /** InitiateSendAsync.  It does not look at the closing mark, so it can still go online between a Close
      that returned true and the erase. */
  function InitiateStep(s: State, t: nat): (r: Option<State>)
    requires t < |s.threads|
    ensures r.Some? ==> OneMoves(s, r.value, t)
  {
    if !s.table.inTable then Some(Goto(s, t, Idle))
    else if s.flags.initiateOnline then Some(Goto(s, t, Idle))
    else Some(GotoFlags(s, t, PostInitiateCompletion, s.flags.(initiateOnline := true)))
  }

  /** TrySendAsync up to the loads of head and tail; the lock is kept for the look at the queue. */
  function TrySendStep(s: State, t: nat): (r: Option<State>)
    requires t < |s.threads|
    ensures r.Some? ==> OneMoves(s, r.value, t)
  {
    if s.flags.sendLock.Some? then None
    else if s.flags.sendOnline then Some(Goto(s, t, Idle))
    else if s.table.shouldClose then Some(Goto(s, t, FindSession))
    else Some(GotoFlags(s, t, QueueCheck(s.path.ring == []), s.flags.(sendOnline := true, sendLock := Some(t))))
  }

  function QueueCheckStep(s: State, t: nat, ringEmpty: bool): (r: Option<State>)
    requires t < |s.threads|
    ensures r.Some? ==> OneMoves(s, r.value, t)
  {
    if ringEmpty && s.path.queue == [] then Some(GotoFlags(s, t, Idle, s.flags.(sendOnline := false, sendLock := None)))
    else Some(GotoFlags(s, t, PopMessage, s.flags.(sendLock := None)))
  }

  function SendOffline(s: State, t: nat): (r: Option<State>)
    requires t < |s.threads|
    ensures r.Some? ==> OneMoves(s, r.value, t)
  {
    if s.flags.sendLock.Some? then None else Some(GotoFlags(s, t, FindSession, s.flags.(sendOnline := false)))
  }

  /** TryPostSend: clearing the flag and moving the head are taken together. */
  function PostSendStep(s: State, t: nat, n: nat): (r: Option<State>)
    requires t < |s.threads|
    ensures r.Some? ==> OneMoves(s, r.value, t)
  {
    if s.flags.sendLock.None? && n <= |s.path.ring| then
      Some(Go(s, t, TrySend, s.flags.(sendOnline := false), s.path.Complete(n), s.table))
    else None
  }

  /** Close looks at the flags under all three locks. */
  function CloseTestStep(s: State, t: nat): (r: Option<State>)
    requires t < |s.threads|
    ensures r.Some? ==> OneMoves(s, r.value, t)
  {
    if s.flags.sendLock.Some? then None
    else if s.flags.sendOnline || s.flags.receiveOnline || s.flags.initiateOnline then Some(Goto(s, t, Idle))
    else Some(GotoTable(s, t, Erase, s.table.(closed := true)))
  }

  function MoveStep(s: State, t: nat, n: nat): (r: Option<State>)
    requires t < |s.threads|
    ensures r.Some? ==> OneMoves(s, r.value, t)
  {
    match s.threads[t]
    case MoveBytes =>
      if 0 < n <= |s.path.bio| && |s.path.ring| + |s.path.staged| + n < s.path.capacity then
        Some(GotoPath(s, t, MoveBytes, s.path.Stage(n)))
      else None
    case Submit =>
      // a contiguous part of the ring's contents, at least one byte
      if 0 < n <= |s.path.ring| then
        Some(Go(s, t, Idle, s.flags.(sendPending := true), s.path.(inFlight := n), s.table))
      else None
    case _ => None
  }

  function FailStep(s: State, t: nat): (r: Option<State>)
    requires t < |s.threads|
    ensures r.Some? ==> OneMoves(s, r.value, t)
  {
    match s.threads[t]
    case WriteTls => Some(GotoPath(s, t, SendFailing, s.path.Lose()))
    case MoveBytes => Some(GotoPath(s, t, SendFailing, s.path.Lose()))
    case Submit => Some(Goto(s, t, SendFailing))
    case ProcessReceive => Some(Goto(s, t, FindSession))
    case ReceiveSubmit => Some(Goto(s, t, ReceiveFailing))
    case _ => None
  }
}
