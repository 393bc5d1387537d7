/** What the session protocol guarantees over whole executions. */
module SessionTheorems {
  import opened Types
  import opened Counting
  import opened Framing
  import opened SessionProtocol
  import opened SessionSafety

  /** `states` is a run of the session's threads under the schedule `labels`, from acceptance on. */
  ghost predicate Execution(states: seq<State>, labels: seq<Label>) {
    && |states| == |labels| + 1
    && Init(states[0])
    && forall k :: 0 <= k < |labels| ==> Next(states[k], labels[k]) == Some(states[k + 1])
  }

  lemma {:induction false} ReachableInv(states: seq<State>, labels: seq<Label>, k: nat)
    requires Execution(states, labels) && k < |states|
    ensures Inv(states[k])
  {
    hide Next, Inv, Init;
    if k == 0 {
      InitInv(states[0]);
    } else {
      ReachableInv(states, labels, k - 1);
      assert Next(states[k - 1], labels[k - 1]) == Some(states[k]);
      NextInv(states[k - 1], labels[k - 1]);
    }
  }

  // ---- sending ----

  /** The session is open: not marked for closing and no thread bound to do so. */
  ghost predicate Open(s: State) {
    !s.table.shouldClose && forall t :: 0 <= t < |s.threads| ==> !s.threads[t].ClosingSoon()
  }

  /** No outgoing message is stranded: while an open session has anything left to send, an InitiateSend is
      on its way to a worker, a send is online, or a thread is about to enter one of the two routines
      that put a send online. */
  lemma NoMessageStranded(states: seq<State>, labels: seq<Label>, k: nat)
    requires Execution(states, labels) && k < |states|
    requires Open(states[k]) && !states[k].path.Empty()
    ensures
      || states[k].flags.sendOnline || states[k].flags.initiateOnline
      || exists t :: 0 <= t < |states[k].threads| &&
                     (states[k].threads[t].InitiateSend? || states[k].threads[t].TrySend?)
  {
    ReachableInv(states, labels, k);
    CountZero(HeadingForClose(), states[k].threads);
    CountZero(HeadingForSend(), states[k].threads);
  }

  /** A flag that is up has exactly one reason: one thread or one outstanding request. */
  lemma FlagsHaveOwners(states: seq<State>, labels: seq<Label>, k: nat)
    requires Execution(states, labels) && k < |states|
    ensures states[k].flags.sendOnline <==>
              states[k].flags.sendPending || exists t :: 0 <= t < |states[k].threads| && states[k].threads[t].OwnsSend()
    ensures forall t, u | 0 <= t < |states[k].threads| && 0 <= u < |states[k].threads| ::
              states[k].threads[t].OwnsSend() && states[k].threads[u].OwnsSend() ==> t == u
    ensures forall t | 0 <= t < |states[k].threads| :: states[k].threads[t].OwnsSend() ==> !states[k].flags.sendPending
    ensures states[k].flags.initiateOnline <==>
              || states[k].flags.initiatePosted
              || exists t :: 0 <= t < |states[k].threads| && states[k].threads[t].OwnsInitiate()
    ensures states[k].flags.receiveOnline <==>
              || states[k].flags.receivePending
              || exists t :: 0 <= t < |states[k].threads| && states[k].threads[t].OwnsReceive()
  {
    ReachableInv(states, labels, k);
    var s := states[k];
    CountZero(OwningSend(), s.threads);
    CountZero(OwningInitiate(), s.threads);
    CountZero(OwningReceive(), s.threads);
    forall t, u | 0 <= t < |s.threads| && 0 <= u < |s.threads| && s.threads[t].OwnsSend() && s.threads[u].OwnsSend()
      ensures t == u
    {
      if t != u {
        CountUnique(OwningSend(), s.threads, t, u);
      }
    }
  }

  /** The messages a schedule hands to an entered session, in order. */
  function Sent(states: seq<State>, labels: seq<Label>): seq<Message>
    requires |states| == |labels| + 1
  {
    if labels == [] then []
    else
      var n := |labels| - 1;
      Sent(states[..n + 1], labels[..n]) +
      if labels[n].SendMessageTo? && states[n].table.inTable then [labels[n].message] else []
  }

  lemma {:induction false} PushedIsSent(states: seq<State>, labels: seq<Label>)
    requires Execution(states, labels)
    ensures states[|labels|].path.pushed == Sent(states, labels)
  {
    if labels != [] {
      var n := |labels| - 1;
      PushedIsSent(states[..n + 1], labels[..n]);
      assert Next(states[n], labels[n]) == Some(states[n + 1]);
      PushedStep(states[n], labels[n]);
    }
  }

  lemma PushedStep(s: State, l: Label)
    requires Next(s, l).Some?
    ensures Next(s, l).value.path.pushed ==
            s.path.pushed + (if l.SendMessageTo? && s.table.inTable then [l.message] else [])
  {
    hide EncodeAll, Encode, OneMoves;
  }

  /** Nothing moves any more: every thread is idle and no completion is outstanding. */
  ghost predicate Quiescent(s: State) {
    && (forall t :: 0 <= t < |s.threads| ==> s.threads[t].Idle?)
    && !s.flags.sendPending && !s.flags.initiatePosted
  }

  /** A quiescent open session has sent everything: the wire carries the encodings of all messages pushed
      so far, in order, and the peer's frame parser gets back exactly those messages. */
  lemma QuiescentHasSentAll(states: seq<State>, labels: seq<Label>)
    requires Execution(states, labels)
    requires Quiescent(states[|labels|]) && !states[|labels|].table.shouldClose
    ensures states[|labels|].path.wire == EncodeAll(Sent(states, labels))
    ensures Sendable(Sent(states, labels)) ==> Drain(states[|labels|].path.wire) == (Sent(states, labels), [])
  {
    var k := |labels|;
    var s := states[k];
    ReachableInv(states, labels, k);
    FlagsHaveOwners(states, labels, k);
    CountZero(HeadingForClose(), s.threads);
    CountZero(HeadingForSend(), s.threads);
    assert s.path.Empty() && !s.path.failed;
    PushedIsSent(states, labels);
    var sent := Sent(states, labels);
    assert s.path.wire + ([] + ([] + ([] + []))) == s.path.wire;
    if Sendable(sent) {
      StreamRoundTrip(sent, []);
      assert EncodeAll(sent) + [] == EncodeAll(sent);
    }
  }

  /** At any moment before a send fails, what has completed on the wire is a prefix of the encoded
      messages: nothing is reordered, repeated or overwritten in the ring. */
  lemma WireIsPrefix(states: seq<State>, labels: seq<Label>)
    requires Execution(states, labels) && !states[|labels|].path.failed
    ensures states[|labels|].path.wire <= EncodeAll(Sent(states, labels))
    ensures states[|labels|].path.wire + states[|labels|].path.ring <= EncodeAll(Sent(states, labels))
    ensures |states[|labels|].path.ring| < states[|labels|].path.capacity
  {
    ReachableInv(states, labels, |labels|);
    PushedIsSent(states, labels);
    ConservedPrefix(states[|labels|].path);
  }

  lemma ConservedPrefix(p: SendPath)
    requires Conserves(p)
    ensures p.wire <= EncodeAll(p.pushed) && p.wire + p.ring <= EncodeAll(p.pushed)
  {
    var rest := p.staged + (p.bio + EncodeAll(p.hand + p.queue));
    assert p.wire + (p.ring + rest) == p.wire + p.ring + rest;
  }

  /** The threads never block each other for good: while some thread is busy, some busy thread can move. */
  lemma BusyThreadsMove(states: seq<State>, labels: seq<Label>, k: nat, t: nat) returns (l: Label)
    requires Execution(states, labels) && k < |states| && t < |states[k].threads| && !states[k].threads[t].Idle?
    ensures l.t < |states[k].threads| && !states[k].threads[l.t].Idle? && Next(states[k], l).Some?
  {
    ReachableInv(states, labels, k);
    l := BusyMove(states[k], t);
  }

  lemma BusyMove(s: State, t: nat) returns (l: Label)
    requires FlagInv(s) && LockInv(s) && StageInv(s) && t < |s.threads| && !s.threads[t].Idle?
    ensures l.t < |s.threads| && !s.threads[l.t].Idle? && Next(s, l).Some?
  {
    assert Stage(s.threads[t], s);
    if s.flags.sendLock.Some? {
      return Step(s.flags.sendLock.value);
    }
    if s.threads[t].Submit? || (s.threads[t].MoveBytes? && s.path.bio != [] && !s.path.RingFull()) {
      return Move(t, 1);
    }
    return Step(t);
  }

  // ---- teardown ----

  /** Once Close has returned true no Send and no Receive goes online again, for the rest of the run. */
  lemma {:induction false} ClosedStaysDown(states: seq<State>, labels: seq<Label>, j: nat, k: nat)
    requires Execution(states, labels) && j <= k < |states| && states[j].table.closed
    ensures states[k].table.closed && !states[k].flags.sendOnline && !states[k].flags.receiveOnline
  {
    hide Next, Inv, Init;
    ReachableInv(states, labels, k);
    if j < k {
      ClosedStaysDown(states, labels, j, k - 1);
      assert Next(states[k - 1], labels[k - 1]) == Some(states[k]);
      ClosedStep(states[k - 1], labels[k - 1]);
    }
    ClosedMeansDown(states[k]);
  }

  lemma ClosedMeansDown(s: State)
    requires Inv(s) && s.table.closed
    ensures !s.flags.sendOnline && !s.flags.receiveOnline
  {
  }

  lemma ClosedStep(s: State, l: Label)
    requires Next(s, l).Some? && s.table.closed
    ensures Next(s, l).value.table.closed
  {
  }

  /** A closing session whose three flags are down, with no thread left on a cleanup path, has been erased;
      and when the last thread has announced it, exactly one disconnect message was pushed. */
  lemma TeardownCompletes(states: seq<State>, labels: seq<Label>, k: nat)
    requires Execution(states, labels) && k < |states|
    requires states[k].table.shouldClose
    requires !states[k].flags.sendOnline && !states[k].flags.receiveOnline && !states[k].flags.initiateOnline
    requires forall t :: 0 <= t < |states[k].threads| ==> !states[k].threads[t].OnCleanupPath()
    ensures !states[k].table.inTable
    ensures (forall t :: 0 <= t < |states[k].threads| ==> !states[k].threads[t].PushDisconnected?)
              ==> states[k].table.disconnectedMessages == 1
  {
    ReachableInv(states, labels, k);
    CountZero(Cleaning(), states[k].threads);
    CountZero(Announcing(), states[k].threads);
  }

  /** At most one disconnect message is ever pushed, and only for an erased session. */
  lemma AnnouncedAtMostOnce(states: seq<State>, labels: seq<Label>, k: nat)
    requires Execution(states, labels) && k < |states|
    ensures states[k].table.disconnectedMessages <= 1
    ensures states[k].table.disconnectedMessages == 1 ==> !states[k].table.inTable && states[k].table.closed
  {
    ReachableInv(states, labels, k);
  }

  /** Erasing does not wait for an InitiateSend: from any state between a Close that returned true and the
      erase, a message sent now leaves an InitiateSend online for the erased session. */
  lemma InitiateOutlivesErase(s: State, t: nat, u: nat, m: Message)
    requires t < |s.threads| && u < |s.threads| && s.threads[t] == Erase && s.threads[u] == Idle
    requires s.table.closed && s.table.inTable && !s.flags.initiateOnline
    ensures
      var s1 := Next(s, SendMessageTo(u, m));
      && s1.Some?
      && var s2 := Next(s1.value, Step(u));
      && s2.Some?
      && var s3 := Next(s2.value, Step(t));
      && s3.Some? && !s3.value.table.inTable && s3.value.flags.initiateOnline
  {
    var s1 := Next(s, SendMessageTo(u, m)).value;
    assert s1.threads[u] == InitiateSend && s1.threads[t] == Erase;
    var s2 := Next(s1, Step(u)).value;
    assert s2.threads[t] == Erase;
  }

  /** Every first state with a second thread has a run to such a state: the first receive is refused, the session
      is closed, and the message comes before the erase. */
  lemma ErasedWithInitiate(s0: State, m: Message) returns (states: seq<State>, labels: seq<Label>)
    requires Init(s0) && |s0.threads| > 1
    ensures Execution(states, labels) && states[0] == s0
    ensures
      var s := states[|labels|];
      s.table.closed && !s.table.inTable && s.flags.initiateOnline
  {
    hide ProgramStep, StartStep, MoveStep, FailStep, Inv;
    var s1, s2, s3, s4, s5 := RefusedReceive(s0);
    InitiateOutlivesErase(s5, 0, 1, m);
    var s6 := Next(s5, SendMessageTo(1, m)).value;
    var s7 := Next(s6, Step(1)).value;
    var s8 := Next(s7, Step(0)).value;
    ClosedStep(s5, SendMessageTo(1, m));
    ClosedStep(s6, Step(1));
    ClosedStep(s7, Step(0));
    states := [s0, s1, s2, s3, s4, s5, s6, s7, s8];
    labels := [Step(0), Fail(0), Step(0), Step(0), Step(0), SendMessageTo(1, m), Step(1), Step(0)];
  }

  lemma RefusedReceive(s0: State) returns (s1: State, s2: State, s3: State, s4: State, s5: State)
    requires Init(s0) && |s0.threads| > 1
    ensures Next(s0, Step(0)) == Some(s1) && Next(s1, Fail(0)) == Some(s2) && Next(s2, Step(0)) == Some(s3)
    ensures Next(s3, Step(0)) == Some(s4) && Next(s4, Step(0)) == Some(s5)
    ensures |s5.threads| > 1 && s5.threads[0] == Erase && s5.threads[1] == Idle
    ensures s5.table.closed && s5.table.inTable && !s5.flags.initiateOnline
  {
    s1 := Goto(s0, 0, ReceiveSubmit).(flags := s0.flags.(receiveOnline := true));
    s2 := Goto(s1, 0, ReceiveFailing);
    s3 := Goto(s2, 0, FindSession).(flags := s0.flags);
    s4 := Goto(s3, 0, CloseTest).(table := s0.table.(shouldClose := true));
    s5 := Goto(s4, 0, Erase).(table := s4.table.(closed := true));
  }

  /** It happens exactly then: an erased session has an InitiateSend online only if it was online at the
      erase, and none goes online afterwards. */
  lemma {:induction false} NoInitiateAfterErase(states: seq<State>, labels: seq<Label>, j: nat, k: nat)
    requires Execution(states, labels) && j <= k < |states| && !states[j].table.inTable
    ensures !states[k].table.inTable && (states[k].flags.initiateOnline ==> states[j].flags.initiateOnline)
  {
    hide Next, Init;
    if j < k {
      NoInitiateAfterErase(states, labels, j, k - 1);
      assert Next(states[k - 1], labels[k - 1]) == Some(states[k]);
      ErasedStep(states[k - 1], labels[k - 1]);
    }
  }

  /** Once erased, a session stays erased, and its InitiateSend flag can only go down. */
  ghost predicate ErasedKept(s: State, s': State) {
    !s'.table.inTable && (s'.flags.initiateOnline ==> s.flags.initiateOnline)
  }

  lemma ErasedStep(s: State, l: Label)
    requires Next(s, l).Some? && !s.table.inTable
    ensures ErasedKept(s, Next(s, l).value)
  {
    hide ProgramStep, StartStep, MoveStep, FailStep, ErasedKept;
    match l
    case Step(t) =>
      var p := s.threads[t];
      if p.Processing() { ErasedProcessing(s, t); }
      else if p.OwnsReceive() || p.ProcessReceive? || p.TryReceive? { ErasedReceive(s, t); }
      else if p.FindSession? || p.CloseTest? || p.Erase? || p.PushDisconnected? { ErasedCleanup(s, t); }
      else { ErasedSend(s, t); }
    case Move(t, n) => ErasedMove(s, t, n);
    case Fail(t) => ErasedFail(s, t);
    case _ => ErasedStart(s, l);
  }

  lemma ErasedReceive(s: State, t: nat)
    requires t < |s.threads| && ProgramStep(s, t).Some? && !s.table.inTable
    requires var p := s.threads[t]; p.OwnsReceive() || p.ProcessReceive? || p.TryReceive?
    ensures ErasedKept(s, ProgramStep(s, t).value)
  {
    hide EncodeAll, Encode, OneMoves;
  }

  lemma ErasedCleanup(s: State, t: nat)
    requires t < |s.threads| && ProgramStep(s, t).Some? && !s.table.inTable
    requires var p := s.threads[t]; p.FindSession? || p.CloseTest? || p.Erase? || p.PushDisconnected?
    ensures ErasedKept(s, ProgramStep(s, t).value)
  {
    hide EncodeAll, Encode, OneMoves;
  }

  lemma ErasedSend(s: State, t: nat)
    requires t < |s.threads| && ProgramStep(s, t).Some? && !s.table.inTable
    requires
      var p := s.threads[t];
      p.Idle? || p.InitiateSend? || p.OwnsInitiate() || p.TrySend? || (p.OwnsSend() && !p.Processing())
    ensures ErasedKept(s, ProgramStep(s, t).value)
  {
    hide EncodeAll, Encode, OneMoves;
  }

  lemma ErasedProcessing(s: State, t: nat)
    requires t < |s.threads| && ProgramStep(s, t).Some? && !s.table.inTable && s.threads[t].Processing()
    ensures ErasedKept(s, ProgramStep(s, t).value)
  {
    hide EncodeAll, Encode, OneMoves;
  }

  lemma ErasedMove(s: State, t: nat, n: nat)
    requires t < |s.threads| && MoveStep(s, t, n).Some? && !s.table.inTable
    ensures ErasedKept(s, MoveStep(s, t, n).value)
  {
    hide EncodeAll, Encode, OneMoves;
  }

  lemma ErasedFail(s: State, t: nat)
    requires t < |s.threads| && FailStep(s, t).Some? && !s.table.inTable
    ensures ErasedKept(s, FailStep(s, t).value)
  {
    hide EncodeAll, Encode, OneMoves;
  }

  lemma ErasedStart(s: State, l: Label)
    requires l.t < |s.threads| && StartStep(s, l).Some? && !s.table.inTable
    ensures ErasedKept(s, StartStep(s, l).value)
  {
    hide EncodeAll, Encode, OneMoves;
  }
}
