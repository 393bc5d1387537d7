/** The actor as the object it is: two message queues, an index saying which one is pushed to, and a
    table of handlers.  Run is proved against the push history, with messages arriving in front of any of
    its steps. */
module Actors {
  import opened Types
  import opened FrameProtocol

  /** A message goes to the handler registered for its type, or to OnUnknownMessageReceived. */
  datatype Delivery = ToHandler(message: DynamicMessage) | ToUnknown(message: DynamicMessage)

  class DynamicActor {
    var pushIndex: nat
    var messageQueue: seq<seq<DynamicMessage>>
    var messageHandlers: set<nat>
    var delivered: seq<Delivery>
    ghost var history: seq<DynamicMessage>
    ghost var runs: nat

    /** The actor as the mailbox of the frame protocol. */
    ghost function Box(): Mailbox
      reads this
    {
      Mailbox(pushIndex, messageQueue, 0, history, Messages(delivered), runs)
    }

    /** Between two runs the read queue is empty and everything pushed is delivered or still queued. */
    ghost predicate Valid()
      reads this
    {
      && pushIndex < 2 && |messageQueue| == 2
      && messageQueue[1 - pushIndex] == []
      && Messages(delivered) + messageQueue[pushIndex] == history
    }

    constructor ()
      ensures Valid() && history == [] && delivered == [] && messageHandlers == {}
    {
      pushIndex := 0;
      messageQueue := [[], []];
      messageHandlers := {};
      delivered := [];
      history := [];
      runs := 0;
    }

    /** False where the program aborts: a second handler for the same type. */
    method RegisterHandler(typeIndex: nat) returns (ok: bool)
      modifies this`messageHandlers
      ensures ok <==> typeIndex !in old(messageHandlers)
      ensures messageHandlers == old(messageHandlers) + {typeIndex}
    {
      ok := typeIndex !in messageHandlers;
      messageHandlers := messageHandlers + {typeIndex};
    }

    /** A null message is refused; any other is appended to the queue the index selects. */
    method PushMessage(message: Option<DynamicMessage>)
      requires pushIndex < 2 && |messageQueue| == 2
      modifies this`messageQueue, this`history
      ensures messageQueue == if message.None? then old(messageQueue)
                              else old(messageQueue)[pushIndex := old(messageQueue)[pushIndex] + [message.value]]
      ensures history == old(history) + (if message.None? then [] else [message.value])
    {
      if message.None? {
        return;
      }
      messageQueue := messageQueue[pushIndex := messageQueue[pushIndex] + [message.value]];
      history := history + [message.value];
    }

    /** One frame's run: exactly the steps that the frame protocol takes, with `arrivals(k)` the messages that
        are pushed in front of its k-th step by a handler, by Tick or by any other thread.  The messages pushed
        before the flip, those that arrive until then included, are delivered in push order, and those that
        arrive later are left for the next run. */
    method Run(arrivals: nat -> seq<DynamicMessage>)
      requires Valid()
      modifies this`pushIndex, this`messageQueue, this`delivered, this`history, this`runs
      ensures Valid()
      ensures Steps(old(Box()), TestReadQueue(0), arrivals, 0) == Some(Box())
      ensures
        var handled := |old(messageQueue[pushIndex])| + |arrivals(0)| + |arrivals(1)|;
        && Messages(delivered) == old(history) + Flat(arrivals, 0, 2)
        && history == old(history) + Flat(arrivals, 0, 6 + handled)
        && messageQueue[pushIndex] == Flat(arrivals, 2, 6 + handled)
      ensures old(delivered) <= delivered
      ensures forall k :: |old(delivered)| <= k < |delivered| ==>
                (delivered[k].ToHandler? <==> delivered[k].message.typeIndex in messageHandlers)
    {
      hide RunMailbox, PushAll, Flat, Steps, Messages;
      ghost var before := Box();
      Flip(arrivals(0), arrivals(1));
      HandleAll(arrivals);
      var handled := |messageQueue[1 - pushIndex]|;
      Finish(arrivals(4 + handled), arrivals(5 + handled));
      RunDone(before, arrivals, Box());
    }

    /** The test and the flip. */
    method Flip(beforeTest: seq<DynamicMessage>, beforeFlip: seq<DynamicMessage>)
      requires pushIndex < 2 && |messageQueue| == 2 && messageQueue[1 - pushIndex] == []
      modifies this`pushIndex, this`messageQueue, this`history
      ensures pushIndex == 1 - old(pushIndex) && |messageQueue| == 2 && messageQueue[pushIndex] == []
      ensures messageQueue[1 - pushIndex] == old(messageQueue[pushIndex]) + beforeTest + beforeFlip
      ensures history == old(history) + beforeTest + beforeFlip
    {
      Arrive(beforeTest);
      if messageQueue[1 - pushIndex] == [] {
        Arrive(beforeFlip);
        pushIndex := 1 - pushIndex;
      }
    }

    /** The clear and Tick. */
    method Finish(beforeClear: seq<DynamicMessage>, inTick: seq<DynamicMessage>)
      requires pushIndex < 2 && |messageQueue| == 2
      modifies this`messageQueue, this`history, this`runs
      ensures |messageQueue| == 2 && messageQueue[1 - pushIndex] == [] && runs == old(runs) + 1
      ensures messageQueue[pushIndex] == old(messageQueue[pushIndex]) + beforeClear + inTick
      ensures history == old(history) + beforeClear + inTick
    {
      Arrive(beforeClear);
      messageQueue := messageQueue[1 - pushIndex := []];
      Arrive(inTick);
      runs := runs + 1;
    }

    /** The loop over the read queue, from the step that begins it to the one that finds its end. */
    method HandleAll(arrivals: nat -> seq<DynamicMessage>)
      requires pushIndex < 2 && |messageQueue| == 2 && messageQueue[pushIndex] == []
      modifies this`messageQueue, this`delivered, this`history
      ensures |messageQueue| == 2 && messageQueue[1 - pushIndex] == old(messageQueue[1 - pushIndex])
      ensures messageQueue[pushIndex] == Flat(arrivals, 2, 4 + |messageQueue[1 - pushIndex]|)
      ensures history == old(history) + Flat(arrivals, 2, 4 + |messageQueue[1 - pushIndex]|)
      ensures old(delivered) <= delivered
      ensures Messages(delivered) == Messages(old(delivered)) + messageQueue[1 - pushIndex]
      ensures forall k :: |old(delivered)| <= k < |delivered| ==>
                (delivered[k].ToHandler? <==> delivered[k].message.typeIndex in messageHandlers)
    {
      hide Flat;
      FlatNothing(arrivals, 2);
      FlatNext(arrivals, 2, 2);
      Arrive(arrivals(2));
      var k: nat := 0;
      var end := |messageQueue[1 - pushIndex]|;
      while k < end
        invariant |messageQueue| == 2 && messageQueue[1 - pushIndex] == old(messageQueue[1 - pushIndex])
        invariant 0 <= k <= end
        invariant messageQueue[pushIndex] == Flat(arrivals, 2, 3 + k)
        invariant history == old(history) + Flat(arrivals, 2, 3 + k)
        invariant old(delivered) <= delivered
        invariant Messages(delivered) == Messages(old(delivered)) + messageQueue[1 - pushIndex][..k]
        invariant forall j :: |old(delivered)| <= j < |delivered| ==>
                    (delivered[j].ToHandler? <==> delivered[j].message.typeIndex in messageHandlers)
      {
        Arrive(arrivals(3 + k));
        FlatNext(arrivals, 2, 3 + k);
        var message := messageQueue[1 - pushIndex][k];
        if message.typeIndex in messageHandlers {
          delivered := delivered + [ToHandler(message)];
        } else {
          delivered := delivered + [ToUnknown(message)];
        }
        k := k + 1;
      }
      Arrive(arrivals(3 + k));
      FlatNext(arrivals, 2, 3 + k);
    }

    /** Pushes by handlers and other threads. */
    method Arrive(messages: seq<DynamicMessage>)
      requires pushIndex < 2 && |messageQueue| == 2
      modifies this`messageQueue, this`history
      ensures |messageQueue| == 2 && messageQueue[1 - pushIndex] == old(messageQueue)[1 - pushIndex]
      ensures messageQueue[pushIndex] == old(messageQueue)[pushIndex] + messages
      ensures history == old(history) + messages
    {
      for k := 0 to |messages|
        invariant |messageQueue| == 2 && messageQueue[1 - pushIndex] == old(messageQueue)[1 - pushIndex]
        invariant messageQueue[pushIndex] == old(messageQueue)[pushIndex] + messages[..k]
        invariant history == old(history) + messages[..k]
      {
        PushMessage(Some(messages[k]));
      }
    }
  }

  function Messages(ds: seq<Delivery>): (r: seq<DynamicMessage>)
    ensures |r| == |ds| && forall k :: 0 <= k < |ds| ==> r[k] == ds[k].message
  {
    seq(|ds|, k requires 0 <= k < |ds| => ds[k].message)
  }

  // ---- a run as the steps of the frame protocol ----

  function PushAll(mb: Mailbox, ms: seq<DynamicMessage>): (r: Mailbox)
    requires mb.WellFormed()
    ensures r.WellFormed() && r.pushIndex == mb.pushIndex && r.ReadQueue() == mb.ReadQueue()
    ensures r == mb.(queues := mb.queues[mb.pushIndex := mb.PushQueue() + ms], history := mb.history + ms)
  {
    if ms == [] then
      assert mb.PushQueue() + [] == mb.PushQueue() && mb.history + [] == mb.history;
      assert mb.queues[mb.pushIndex := mb.PushQueue()] == mb.queues;
      mb
    else
      var n := |ms| - 1;
      assert mb.PushQueue() + ms[..n] + [ms[n]] == mb.PushQueue() + ms;
      assert mb.history + ms[..n] + [ms[n]] == mb.history + ms;
      PushMailbox(PushAll(mb, ms[..n]), ms[n])
  }

  function Position(pc: WorkerPc): nat {
    match pc
    case TestReadQueue(_) => 6
    case Flip(_) => 5
    case BeginLoop(_) => 4
    case Handle(_, _, _) => 3
    case Clear(_) => 2
    case Tick(_) => 1
    case _ => 0
  }

  /** The messages that arrive in front of the steps from `from` up to `to`. */
  function Flat(arrivals: nat -> seq<DynamicMessage>, from: nat, to: nat): seq<DynamicMessage> {
    if to <= from then [] else Flat(arrivals, from, to - 1) + arrivals(to - 1)
  }

  lemma FlatNothing(arrivals: nat -> seq<DynamicMessage>, from: nat)
    ensures Flat(arrivals, from, from) == []
  {
  }

  lemma FlatNext(arrivals: nat -> seq<DynamicMessage>, from: nat, to: nat)
    requires from <= to
    ensures Flat(arrivals, from, to + 1) == Flat(arrivals, from, to) + arrivals(to)
  {
  }

  lemma {:induction false} FlatSplit(arrivals: nat -> seq<DynamicMessage>, from: nat, at: nat, to: nat)
    requires from <= at <= to
    ensures Flat(arrivals, from, to) == Flat(arrivals, from, at) + Flat(arrivals, at, to)
  {
    if at < to {
      FlatSplit(arrivals, from, at, to - 1);
      assert Flat(arrivals, from, at) + Flat(arrivals, at, to - 1) + arrivals(to - 1)
          == Flat(arrivals, from, at) + (Flat(arrivals, at, to - 1) + arrivals(to - 1));
    }
  }

  lemma FirstTwo(arrivals: nat -> seq<DynamicMessage>)
    ensures Flat(arrivals, 0, 2) == arrivals(0) + arrivals(1)
  {
    assert Flat(arrivals, 0, 1) == [] + arrivals(0) == arrivals(0);
  }

  lemma FlatCons(arrivals: nat -> seq<DynamicMessage>, from: nat, to: nat)
    requires from < to
    ensures Flat(arrivals, from, to) == arrivals(from) + Flat(arrivals, from + 1, to)
  {
    FlatSplit(arrivals, from, from + 1, to);
    assert Flat(arrivals, from, from + 1) == [] + arrivals(from) == arrivals(from);
  }

  /** The protocol's steps of Run from a position to the end of the run, the k-th of them with `arrivals(k)`
      pushed in front of it. */
  function Steps(mb: Mailbox, pc: WorkerPc, arrivals: nat -> seq<DynamicMessage>, k: nat): Option<Mailbox>
    requires mb.WellFormed()
    decreases Position(pc), if pc.Handle? && pc.next <= pc.end then pc.end - pc.next else 0
  {
    if Position(pc) == 0 then Some(mb)
    else
      match RunMailbox(PushAll(mb, arrivals(k)), pc)
      case None => None
      case Some((mb', pc')) =>
        if !mb'.WellFormed() || (pc.Handle? && pc.next > pc.end) then None else Steps(mb', pc', arrivals, k + 1)
  }

  /** The mailbox after the messages from the j-th on have been handled and the read queue cleared. */
  function Finished(mb: Mailbox, j: nat, arrived: seq<DynamicMessage>): Mailbox
    requires mb.WellFormed() && j <= |mb.ReadQueue()|
  {
    mb.(queues := mb.queues[1 - mb.pushIndex := []][mb.pushIndex := mb.PushQueue() + arrived], taken := 0,
        history := mb.history + arrived, handled := mb.handled + mb.ReadQueue()[j..], runs := mb.runs + 1)
  }

  /** The mailbox with one more message arrived and one more handled. */
  function OneHandled(mb: Mailbox, j: nat, arrived: seq<DynamicMessage>): (r: Mailbox)
    requires mb.WellFormed() && j < |mb.ReadQueue()|
    ensures r.WellFormed() && r.ReadQueue() == mb.ReadQueue() && r.taken == j + 1
  {
    PushAll(mb, arrived).(handled := mb.handled + [mb.ReadQueue()[j]], taken := j + 1)
  }

  lemma FinishedStep(mb: Mailbox, j: nat, arrived: seq<DynamicMessage>, later: seq<DynamicMessage>)
    requires mb.WellFormed() && j < |mb.ReadQueue()|
    ensures Finished(OneHandled(mb, j, arrived), j + 1, later) == Finished(mb, j, arrived + later)
  {
    hide PushAll, PushMailbox;
    var read := mb.ReadQueue();
    assert mb.handled + [read[j]] + read[j + 1..] == mb.handled + read[j..];
    assert mb.PushQueue() + arrived + later == mb.PushQueue() + (arrived + later);
    assert mb.history + arrived + later == mb.history + (arrived + later);
    SameQueues(mb.queues, mb.pushIndex, mb.PushQueue() + arrived, mb.PushQueue() + (arrived + later));
  }

  lemma SameQueues(queues: seq<seq<DynamicMessage>>, i: nat, a: seq<DynamicMessage>, b: seq<DynamicMessage>)
    requires |queues| == 2 && i < 2
    ensures queues[i := a][1 - i := []][i := b] == queues[1 - i := []][i := b]
  {
  }

  lemma SameTwo(a: seq<seq<DynamicMessage>>, b: seq<seq<DynamicMessage>>, i: nat)
    requires |a| == 2 && |b| == 2 && i < 2 && a[i] == b[i] && a[1 - i] == b[1 - i]
    ensures a == b
  {
  }

  lemma HandleStep(mb: Mailbox, j: nat, arrived: seq<DynamicMessage>)
    requires mb.WellFormed() && mb.taken == j < |mb.ReadQueue()|
    ensures RunMailbox(PushAll(mb, arrived), Handle(0, j, |mb.ReadQueue()|)) ==
            Some((OneHandled(mb, j, arrived), Handle(0, j + 1, |mb.ReadQueue()|)))
  {
    hide PushAll;
  }

  /** One message of the loop. */
  lemma LoopStep(mb: Mailbox, j: nat, arrivals: nat -> seq<DynamicMessage>, k: nat)
    requires mb.WellFormed() && mb.taken == j < |mb.ReadQueue()|
    ensures Steps(mb, Handle(0, j, |mb.ReadQueue()|), arrivals, k) ==
            Steps(OneHandled(mb, j, arrivals(k)), Handle(0, j + 1, |mb.ReadQueue()|), arrivals, k + 1)
  {
    hide PushAll, RunMailbox, OneHandled;
    HandleStep(mb, j, arrivals(k));
  }

  /** From the j-th message on. */
  lemma {:induction false} StepsOfLoop(mb: Mailbox, j: nat, arrivals: nat -> seq<DynamicMessage>, k: nat)
    requires mb.WellFormed() && mb.taken == j <= |mb.ReadQueue()|
    ensures Steps(mb, Handle(0, j, |mb.ReadQueue()|), arrivals, k) ==
            Some(Finished(mb, j, Flat(arrivals, k, k + |mb.ReadQueue()| - j + 3)))
    decreases |mb.ReadQueue()| - j
  {
    hide RunMailbox, Finished, PushAll, OneHandled, Flat;
    var end := |mb.ReadQueue()|;
    if j == end {
      AtTheEnd(mb, arrivals, k);
    } else {
      LoopStep(mb, j, arrivals, k);
      StepsOfLoop(OneHandled(mb, j, arrivals(k)), j + 1, arrivals, k + 1);
      FlatCons(arrivals, k, k + end - j + 3);
      FinishedStep(mb, j, arrivals(k), Flat(arrivals, k + 1, k + end - j + 3));
    }
  }

  /** The end of the loop, the clear and Tick. */
  lemma AtTheEnd(mb: Mailbox, arrivals: nat -> seq<DynamicMessage>, k: nat)
    requires mb.WellFormed() && mb.taken == |mb.ReadQueue()|
    ensures
      var end := |mb.ReadQueue()|;
      Steps(mb, Handle(0, end, end), arrivals, k) == Some(Finished(mb, end, Flat(arrivals, k, k + 3)))
  {
    hide PushAll, PushMailbox, Flat, Steps, RunMailbox;
    var end := |mb.ReadQueue()|;
    var mb1 := PushAll(mb, arrivals(k));
    var mb2 := PushAll(mb1, arrivals(k + 1));
    var cleared := mb2.(queues := mb2.queues[1 - mb2.pushIndex := []], taken := 0);
    var mb3 := PushAll(cleared, arrivals(k + 2));
    LastSteps(mb, mb1, mb2, cleared, mb3, arrivals, k);
    LastThree(arrivals, k);
    assert mb.handled + mb.ReadQueue()[end..] == mb.handled;
    SameTwo(mb3.queues, mb.queues[1 - mb.pushIndex := []][mb.pushIndex := mb.PushQueue() + Flat(arrivals, k, k + 3)],
            mb.pushIndex);
    assert mb3.history == mb.history + Flat(arrivals, k, k + 3);
  }

  lemma LastThree(arrivals: nat -> seq<DynamicMessage>, k: nat)
    ensures Flat(arrivals, k, k + 3) == arrivals(k) + arrivals(k + 1) + arrivals(k + 2)
  {
    assert Flat(arrivals, k, k + 1) == [] + arrivals(k) == arrivals(k);
    assert Flat(arrivals, k, k + 2) == Flat(arrivals, k, k + 1) + arrivals(k + 1);
  }

  lemma LastSteps(mb: Mailbox, mb1: Mailbox, mb2: Mailbox, cleared: Mailbox, mb3: Mailbox,
                  arrivals: nat -> seq<DynamicMessage>, k: nat)
    requires mb.WellFormed() && mb1.WellFormed() && mb2.WellFormed() && cleared.WellFormed()
    requires mb1 == PushAll(mb, arrivals(k)) && mb2 == PushAll(mb1, arrivals(k + 1))
    requires cleared == mb2.(queues := mb2.queues[1 - mb2.pushIndex := []], taken := 0)
    requires mb3 == PushAll(cleared, arrivals(k + 2))
    ensures
      var end := |mb.ReadQueue()|;
      Steps(mb, Handle(0, end, end), arrivals, k) == Some(mb3.(runs := mb3.runs + 1))
  {
    hide PushAll;
    assert Steps(mb3.(runs := mb3.runs + 1), Claim, arrivals, k + 3) == Some(mb3.(runs := mb3.runs + 1));
    assert Steps(cleared, Tick(0), arrivals, k + 2) == Some(mb3.(runs := mb3.runs + 1));
    assert Steps(mb1, Clear(0), arrivals, k + 1) == Some(mb3.(runs := mb3.runs + 1));
  }

  lemma OneStep(mb: Mailbox, pc: WorkerPc, arrivals: nat -> seq<DynamicMessage>, k: nat)
    requires mb.WellFormed() && Position(pc) > 0 && !pc.Handle?
    requires RunMailbox(PushAll(mb, arrivals(k)), pc).Some?
    ensures
      var (mb', pc') := RunMailbox(PushAll(mb, arrivals(k)), pc).value;
      mb'.WellFormed() ==> Steps(mb, pc, arrivals, k) == Steps(mb', pc', arrivals, k + 1)
  {
    hide RunMailbox, PushAll;
  }

  lemma FirstSteps(mb: Mailbox)
    requires mb.WellFormed()
    ensures mb.ReadQueue() == [] ==> RunMailbox(mb, TestReadQueue(0)) == Some((mb, Flip(0)))
    ensures RunMailbox(mb, Flip(0)) == Some((mb.(pushIndex := 1 - mb.pushIndex, taken := 0), BeginLoop(0)))
    ensures RunMailbox(mb, BeginLoop(0)) == Some((mb, Handle(0, 0, |mb.ReadQueue()|)))
  {
  }

  /** The mailbox when the loop begins. */
  function Begun(mb: Mailbox, a: seq<DynamicMessage>, b: seq<DynamicMessage>, c: seq<DynamicMessage>): (r: Mailbox)
    requires mb.WellFormed() && mb.ReadQueue() == []
    ensures r.WellFormed() && r.ReadQueue() == mb.PushQueue() + a + b && r.taken == 0
  {
    var mb2 := PushAll(PushAll(mb, a), b);
    PushAll(mb2.(pushIndex := 1 - mb2.pushIndex, taken := 0), c)
  }

  /** The flip comes first, and what arrives until then is in the queue that is flipped. */
  lemma StepsToLoop(mb: Mailbox, arrivals: nat -> seq<DynamicMessage>)
    requires mb.WellFormed() && mb.ReadQueue() == []
    ensures
      var begun := Begun(mb, arrivals(0), arrivals(1), arrivals(2));
      Steps(mb, TestReadQueue(0), arrivals, 0) == Steps(begun, Handle(0, 0, |begun.ReadQueue()|), arrivals, 3)
  {
    hide PushAll, RunMailbox, Steps;
    var mb1 := PushAll(mb, arrivals(0));
    var mb2 := PushAll(mb1, arrivals(1));
    var flipped := mb2.(pushIndex := 1 - mb2.pushIndex, taken := 0);
    FirstSteps(mb1);
    FirstSteps(mb2);
    FirstSteps(PushAll(flipped, arrivals(2)));
    OneStep(mb, TestReadQueue(0), arrivals, 0);
    OneStep(mb1, Flip(0), arrivals, 1);
    OneStep(flipped, BeginLoop(0), arrivals, 2);
  }

  lemma FinishedRun(mb: Mailbox, a: seq<DynamicMessage>, b: seq<DynamicMessage>, c: seq<DynamicMessage>,
                    rest: seq<DynamicMessage>)
    requires mb.WellFormed() && mb.ReadQueue() == []
    ensures
      var handled := mb.PushQueue() + a + b;
      Finished(Begun(mb, a, b, c), 0, rest) ==
      Mailbox(1 - mb.pushIndex, mb.queues[mb.pushIndex := []][1 - mb.pushIndex := c + rest], 0,
              mb.history + (a + b + (c + rest)), mb.handled + handled, mb.runs + 1)
  {
    hide PushAll;
    var begun := Begun(mb, a, b, c);
    assert begun.ReadQueue()[0..] == begun.ReadQueue();
    assert begun.history + rest == mb.history + (a + b + (c + rest));
    assert [] + c + rest == c + rest;
    SameTwo(Finished(begun, 0, rest).queues, mb.queues[mb.pushIndex := []][1 - mb.pushIndex := c + rest], mb.pushIndex);
  }

  /** A whole run of a mailbox whose read queue is empty. */
  lemma StepsOfRun(mb: Mailbox, arrivals: nat -> seq<DynamicMessage>)
    requires mb.WellFormed() && mb.ReadQueue() == []
    ensures
      var handled := mb.PushQueue() + arrivals(0) + arrivals(1);
      var left := Flat(arrivals, 2, 6 + |handled|);
      Steps(mb, TestReadQueue(0), arrivals, 0) ==
      Some(Mailbox(1 - mb.pushIndex, mb.queues[mb.pushIndex := []][1 - mb.pushIndex := left], 0,
                   mb.history + Flat(arrivals, 0, 6 + |handled|), mb.handled + handled, mb.runs + 1))
  {
    hide RunMailbox, PushAll, Flat, Finished, Begun;
    var handled := mb.PushQueue() + arrivals(0) + arrivals(1);
    StepsToLoop(mb, arrivals);
    StepsOfLoop(Begun(mb, arrivals(0), arrivals(1), arrivals(2)), 0, arrivals, 3);
    FinishedRun(mb, arrivals(0), arrivals(1), arrivals(2), Flat(arrivals, 3, 6 + |handled|));
    FlatCons(arrivals, 2, 6 + |handled|);
    FlatSplit(arrivals, 0, 2, 6 + |handled|);
    FirstTwo(arrivals);
  }

  /** What the actor's Run comes to, put together. */
  lemma RunDone(mb: Mailbox, arrivals: nat -> seq<DynamicMessage>, mb': Mailbox)
    requires mb.WellFormed() && mb.ReadQueue() == [] && mb.taken == 0 && mb.Conserves()
    requires mb'.WellFormed() && mb'.pushIndex == 1 - mb.pushIndex && mb'.ReadQueue() == [] && mb'.taken == 0
    requires mb'.runs == mb.runs + 1 && mb'.handled == mb.handled + (mb.PushQueue() + arrivals(0) + arrivals(1))
    requires
      var n := |mb.PushQueue() + arrivals(0) + arrivals(1)|;
      && mb'.PushQueue() == Flat(arrivals, 2, 4 + n) + arrivals(4 + n) + arrivals(5 + n)
      && mb'.history == mb.history + arrivals(0) + arrivals(1) + Flat(arrivals, 2, 4 + n)
                        + arrivals(4 + n) + arrivals(5 + n)
    ensures Steps(mb, TestReadQueue(0), arrivals, 0) == Some(mb')
    ensures mb'.Conserves() && mb'.handled == mb.history + Flat(arrivals, 0, 2)
    ensures
      var n := |mb.PushQueue()| + |arrivals(0)| + |arrivals(1)|;
      mb'.history == mb.history + Flat(arrivals, 0, 6 + n) && mb'.PushQueue() == Flat(arrivals, 2, 6 + n)
  {
    hide RunMailbox, PushAll, Flat, Steps;
    var n := |mb.PushQueue() + arrivals(0) + arrivals(1)|;
    StepsOfRun(mb, arrivals);
    FirstTwo(arrivals);
    FlatNext(arrivals, 2, 4 + n);
    FlatNext(arrivals, 2, 5 + n);
    FlatSplit(arrivals, 0, 2, 6 + n);
    Regroup(mb.history, arrivals(0), arrivals(1), Flat(arrivals, 2, 4 + n), arrivals(4 + n), arrivals(5 + n));
    Settle(mb, mb', arrivals(0), arrivals(1), Flat(arrivals, 2, 6 + n));
    SameTwo(mb'.queues, mb.queues[mb.pushIndex := []][1 - mb.pushIndex := Flat(arrivals, 2, 6 + n)], mb.pushIndex);
  }

  lemma Regroup(h: seq<DynamicMessage>, a: seq<DynamicMessage>, b: seq<DynamicMessage>, left: seq<DynamicMessage>,
                c: seq<DynamicMessage>, d: seq<DynamicMessage>)
    ensures h + a + b + left + c + d == h + (a + b + (left + c + d))
  {
  }

  lemma Settle(mb: Mailbox, mb': Mailbox, a: seq<DynamicMessage>, b: seq<DynamicMessage>, left: seq<DynamicMessage>)
    requires mb.WellFormed() && mb.ReadQueue() == [] && mb.taken == 0 && mb.Conserves()
    requires mb'.WellFormed() && mb'.ReadQueue() == [] && mb'.taken == 0 && mb'.PushQueue() == left
    requires mb'.handled == mb.handled + (mb.PushQueue() + a + b) && mb'.history == mb.history + (a + b + left)
    ensures mb'.Conserves() && mb'.handled == mb.history + (a + b)
  {
    assert mb.history == mb.handled + mb.PushQueue();
    assert mb'.handled == mb.handled + mb.PushQueue() + (a + b);
    assert mb'.handled + [] + left == mb.history + (a + b + left);
  }
}
