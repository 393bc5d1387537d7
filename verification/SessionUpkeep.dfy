/** What keeps a session going and what ends it: an open session always has a receive outstanding or on its way,
    and a session closes exactly when there was a reason to. */
module SessionUpkeep {
  import opened Types
  import opened Counting
  import opened Framing
  import opened SessionProtocol
  import opened SessionSafety
  import opened SessionTheorems
  import opened SessionProgress

  function Rearming(): Pc -> bool {
    (p: Pc) => p.ProcessReceive? || p.TryReceive?
  }

  /** A receive has failed, and the thread is bound for the cleanup routine with the Receive flag still up. */
  predicate ReceiveFailed(p: Pc) {
    p.ReceiveFailing? || p.ReceiveIoFailed?
  }

  /** The reasons for closing a session: a TLS error, a refused request or a receive that could not be processed,
      a failed completion, a disconnect, and bytes for which the send ring has no room. */
  predicate Cause(s: State, l: Label) {
    || l.Fail? || l.Disconnect? || l.TakeSendFailure? || l.TakeReceiveFailure?
    || (l.Step? && l.t < |s.threads| && s.threads[l.t].MoveBytes? && s.path.bio != [])
  }

  /** The session is closing, or a thread is bound to close it. */
  ghost predicate Doomed(s: State) {
    || s.table.shouldClose
    || exists t :: 0 <= t < |s.threads| && (s.threads[t].ClosingSoon() || ReceiveFailed(s.threads[t]))
  }

  // ---- one step, seen from its thread ----

  /** What thread t's step does to the closing mark, to the Receive flag and to the thread's own intentions. */
  ghost predicate Local(s: State, l: Label, s': State) {
    && OneMoves(s, s', l.t)
    && var p, x := s.threads[l.t], s'.threads[l.t];
    && (s.table.shouldClose ==> s'.table.shouldClose)
    && (p.ClosingSoon() && s.table.inTable ==> s'.table.shouldClose || x.ClosingSoon())
    && (ReceiveFailed(p) ==> x.ClosingSoon() && !s'.flags.receiveOnline)
    && (Cause(s, l) ==> x.ClosingSoon() || ReceiveFailed(x))
    && (l.Disconnect? ==> x.ClosingSoon())
    && (!s.table.closed && s'.table.closed ==>
          !s.flags.sendOnline && !s.flags.receiveOnline && !s.flags.initiateOnline && s'.flags == s.flags)
    && (!Cause(s, l) && !p.ClosingSoon() && !ReceiveFailed(p) ==>
          || (s'.table.shouldClose == s.table.shouldClose && !x.ClosingSoon() && !ReceiveFailed(x))
          || s.table.shouldClose || (p.TryReceive? && s.flags.receiveOnline))
    // the receive
    && (!p.OwnsReceive() && !Rearming()(p) ==> s'.flags.receiveOnline == s.flags.receiveOnline && !Rearming()(x))
    && (l.TakeReceive? ==> p.Idle?) && (x.PostReceive? <==> l.TakeReceive?) && (x.ProcessReceive? <==> p.PostReceive?)
    && (p.PostReceive? ==> !s'.flags.receiveOnline)
    && (p.ReceiveSubmit? ==> s'.flags.receiveOnline == s.flags.receiveOnline && !Rearming()(x))
    && (p.ProcessReceive? ==>
          && s'.flags.receiveOnline == s.flags.receiveOnline
          && (x.TryReceive? || (x.ClosingSoon() && !Rearming()(x))))
    && (p.TryReceive? ==> !Rearming()(x) && s'.flags.receiveOnline == (s.flags.receiveOnline || !x.ClosingSoon()))
  }

  lemma LocalReceive(s: State, t: nat)
    requires t < |s.threads| && ProgramStep(s, t).Some?
    requires s.threads[t].OwnsReceive() || s.threads[t].ProcessReceive? || s.threads[t].TryReceive?
    ensures Local(s, Step(t), ProgramStep(s, t).value)
  {
    hide EncodeAll, Encode, TrySendStep, QueueCheckStep, SendOffline, PostSendStep, CloseTestStep, InitiateStep;
  }

  lemma LocalCleanup(s: State, t: nat)
    requires t < |s.threads| && ProgramStep(s, t).Some?
    requires var p := s.threads[t]; p.FindSession? || p.CloseTest? || p.Erase? || p.PushDisconnected?
    ensures Local(s, Step(t), ProgramStep(s, t).value)
  {
    hide EncodeAll, Encode, TrySendStep, QueueCheckStep, SendOffline, PostSendStep, InitiateStep;
  }

  lemma LocalInitiate(s: State, t: nat)
    requires t < |s.threads| && ProgramStep(s, t).Some?
    requires var p := s.threads[t]; p.InitiateSend? || p.OwnsInitiate() || p.TrySend? || p.QueueCheck?
    ensures Local(s, Step(t), ProgramStep(s, t).value)
  {
    hide EncodeAll, Encode, SendOffline, PostSendStep, CloseTestStep;
  }

  lemma LocalProcessing(s: State, t: nat)
    requires t < |s.threads| && ProgramStep(s, t).Some? && s.threads[t].Processing()
    ensures Local(s, Step(t), ProgramStep(s, t).value)
  {
    hide EncodeAll, Encode, TrySendStep, QueueCheckStep, SendOffline, PostSendStep, CloseTestStep, InitiateStep;
  }

  lemma LocalSent(s: State, t: nat)
    requires t < |s.threads| && ProgramStep(s, t).Some?
    requires var p := s.threads[t]; p.SendFailing? || p.SendIoFailed? || p.PostSend?
    ensures Local(s, Step(t), ProgramStep(s, t).value)
  {
    hide EncodeAll, Encode, TrySendStep, QueueCheckStep, CloseTestStep, InitiateStep;
  }

  lemma LocalMove(s: State, t: nat, n: nat)
    requires t < |s.threads| && MoveStep(s, t, n).Some?
    ensures Local(s, Move(t, n), MoveStep(s, t, n).value)
  {
    hide EncodeAll, Encode;
  }

  lemma LocalFail(s: State, t: nat)
    requires t < |s.threads| && FailStep(s, t).Some?
    ensures Local(s, Fail(t), FailStep(s, t).value)
  {
    hide EncodeAll, Encode;
  }

  lemma LocalStart(s: State, l: Label)
    requires l.t < |s.threads| && s.threads[l.t].Idle? && StartStep(s, l).Some?
    requires !l.Step? && !l.Move? && !l.Fail?
    ensures Local(s, l, StartStep(s, l).value)
  {
    hide EncodeAll, Encode;
  }

  lemma LocalStep(s: State, l: Label)
    requires Next(s, l).Some?
    ensures Local(s, l, Next(s, l).value)
  {
    hide ProgramStep, StartStep, MoveStep, FailStep, Local;
    match l
    case Step(t) =>
      NotIdle(s, t);
      var p := s.threads[t];
      if p.Processing() { LocalProcessing(s, t); }
      else if p.OwnsReceive() || p.ProcessReceive? || p.TryReceive? { LocalReceive(s, t); }
      else if p.FindSession? || p.CloseTest? || p.Erase? || p.PushDisconnected? { LocalCleanup(s, t); }
      else if p.SendFailing? || p.SendIoFailed? || p.PostSend? { LocalSent(s, t); }
      else { LocalInitiate(s, t); }
    case Move(t, n) => LocalMove(s, t, n);
    case Fail(t) => LocalFail(s, t);
    case _ => LocalStart(s, l);
  }

  // ---- receiving ----

  /** At most one receive is online or about to be, and none only in a session that is closing. */
  ghost predicate Receiving(s: State) {
    && B2N(s.flags.receiveOnline) + Number(Rearming(), s) <= 1
    && (!Closing(s) ==> B2N(s.flags.receiveOnline) + Number(Rearming(), s) == 1)
  }

  lemma InitReceiving(s: State)
    requires Init(s)
    ensures Receiving(s)
  {
    hide CountIf;
    var first := s.threads[0 := Idle];
    CountZero(Rearming(), first);
    CountUpdate(Rearming(), first, 0, TryReceive);
    assert first[0 := TryReceive] == s.threads;
  }

  /** How the two counts move with one thread. */
  lemma UpkeepCounts(s: State, l: Label)
    requires Inv(s) && Next(s, l).Some? && Local(s, l, Next(s, l).value)
    ensures
      var s' := Next(s, l).value;
      && Moves(Rearming(), s, l.t, s'.threads[l.t]) && Moves(HeadingForClose(), s, l.t, s'.threads[l.t])
      && (Rearming()(s.threads[l.t]) ==> Number(Rearming(), s) > 0)
      && (s.threads[l.t].ClosingSoon() ==> Number(HeadingForClose(), s) > 0)
      && (s.threads[l.t].OwnsReceive() ==> s.flags.receiveOnline)
      && (!s.table.inTable ==> s.table.shouldClose)
  {
    hide CountIf, Next, LockInv, StageInv, ConservationInv, AttendedInv;
    CountUpdate(Rearming(), s.threads, l.t, Next(s, l).value.threads[l.t]);
    CountUpdate(HeadingForClose(), s.threads, l.t, Next(s, l).value.threads[l.t]);
    if Rearming()(s.threads[l.t]) {
      CountPositive(Rearming(), s.threads, l.t);
    }
    Owned(s, l.t);
  }

  lemma NextReceiving(s: State, l: Label)
    requires Inv(s) && Receiving(s) && Next(s, l).Some?
    ensures Receiving(Next(s, l).value)
    ensures Closing(s) || l.Disconnect? ==> Closing(Next(s, l).value)
  {
    hide CountIf, Next, Inv, Cause;
    LocalStep(s, l);
    UpkeepCounts(s, l);
  }

  lemma {:induction false} ReachableReceiving(states: seq<State>, labels: seq<Label>, k: nat)
    requires Execution(states, labels) && k < |states|
    ensures Receiving(states[k])
  {
    hide Next, Inv, Init, Receiving;
    if k == 0 {
      InitReceiving(states[0]);
    } else {
      ReachableReceiving(states, labels, k - 1);
      ReachableInv(states, labels, k - 1);
      assert Next(states[k - 1], labels[k - 1]) == Some(states[k]);
      NextReceiving(states[k - 1], labels[k - 1]);
    }
  }

  /** The client goes on being read: as long as a session is not closing its receive is online, or one thread is
      about to process one or to arm the next. */
  lemma ReceiveGoesOn(states: seq<State>, labels: seq<Label>, k: nat)
    requires Execution(states, labels) && k < |states| && Open(states[k])
    ensures
      || states[k].flags.receiveOnline
      || exists t :: 0 <= t < |states[k].threads| &&
                     (states[k].threads[t].ProcessReceive? || states[k].threads[t].TryReceive?)
  {
    hide Next, Init;
    ReachableReceiving(states, labels, k);
    CountZero(HeadingForClose(), states[k].threads);
    CountZero(Rearming(), states[k].threads);
  }

  /** An open session at rest waits for the client. */
  lemma QuiescentReceives(states: seq<State>, labels: seq<Label>, k: nat)
    requires Execution(states, labels) && k < |states| && Quiescent(states[k]) && !states[k].table.shouldClose
    ensures states[k].flags.receiveOnline && states[k].flags.receivePending
  {
    hide Next, Init, Execution;
    ReceiveGoesOn(states, labels, k);
    FlagsHaveOwners(states, labels, k);
  }

  /** Arming a receive never finds one online. */
  lemma ArmedOnce(states: seq<State>, labels: seq<Label>, k: nat, t: nat)
    requires Execution(states, labels) && k < |states| && t < |states[k].threads| && states[k].threads[t].TryReceive?
    ensures !states[k].flags.receiveOnline
  {
    hide Next, Init;
    ReachableReceiving(states, labels, k);
    CountPositive(Rearming(), states[k].threads, t);
  }

  // ---- what can come from outside ----

  /** An idle thread can be given any message and a disconnect. */
  lemma RequestsPossible(s: State, t: nat, m: Message)
    requires t < |s.threads| && s.threads[t].Idle?
    ensures Next(s, SendMessageTo(t, m)).Some? && Next(s, Disconnect(t)).Some?
  {
    hide EncodeAll, Encode, OneMoves, ProgramStep, MoveStep, FailStep, Go, Goto, GotoFlags, GotoPath, GotoTable,
         SendPath.Push;
  }

  /** It can be given exactly the outcomes of the outstanding requests. */
  lemma OutcomesPossible(s: State, t: nat, n: nat)
    requires t < |s.threads| && s.threads[t].Idle?
    ensures Next(s, TakeInitiate(t)).Some? <==> s.flags.initiatePosted
    ensures Next(s, TakeSend(t, n)).Some? <==> s.flags.sendPending && n <= s.path.inFlight
    ensures Next(s, TakeSendFailure(t)).Some? <==> s.flags.sendPending
    ensures Next(s, TakeReceive(t)).Some? <==> s.flags.receivePending
    ensures Next(s, TakeReceiveFailure(t)).Some? <==> s.flags.receivePending
  {
    hide EncodeAll, Encode, OneMoves, ProgramStep, MoveStep, FailStep, Go, Goto, GotoFlags, GotoPath, GotoTable,
         SendPath.Push;
  }

  /** TLS, the socket and the processing of a receive can fail wherever the program calls them, and nowhere else. */
  lemma FailuresPossible(s: State, t: nat)
    requires t < |s.threads|
    ensures
      var p := s.threads[t];
      Next(s, Fail(t)).Some? <==> p.WriteTls? || p.MoveBytes? || p.Submit? || p.ProcessReceive? || p.ReceiveSubmit?
  {
    hide EncodeAll, Encode, OneMoves;
  }

  // ---- closing ----

  /** Close returns true only when all three flags are down. */
  lemma CloseSeesFlags(s: State, l: Label)
    requires Next(s, l).Some? && !s.table.closed && Next(s, l).value.table.closed
    ensures !s.flags.sendOnline && !s.flags.receiveOnline && !s.flags.initiateOnline
    ensures Next(s, l).value.flags == s.flags
  {
    hide Next;
    LocalStep(s, l);
  }

  lemma InitSound(s: State)
    requires Init(s)
    ensures !Doomed(s)
  {
  }

  lemma NextDoomed(s: State, l: Label)
    requires Inv(s) && Receiving(s) && Next(s, l).Some?
    ensures Doomed(Next(s, l).value) <==> Doomed(s) || Cause(s, l)
  {
    hide CountIf, Next, Inv, Cause;
    var s' := Next(s, l).value;
    LocalStep(s, l);
    UpkeepCounts(s, l);
    assert s'.threads[l.t] == s'.threads[l.t];
    if Doomed(s) && !s'.table.shouldClose {
      var t :| 0 <= t < |s.threads| && (s.threads[t].ClosingSoon() || ReceiveFailed(s.threads[t]));
      assert t != l.t ==> s'.threads[t] == s.threads[t];
    }
  }

  /** A session is closing, or bound to, if and only if a reason to close it has come up. */
  lemma {:induction false} DoomedIff(states: seq<State>, labels: seq<Label>, k: nat)
    requires Execution(states, labels) && k < |states|
    ensures Doomed(states[k]) <==> exists j :: 0 <= j < k && Cause(states[j], labels[j])
  {
    hide Next, Inv, Init, Doomed, Cause, Receiving;
    if k == 0 {
      InitSound(states[0]);
    } else {
      DoomedIff(states, labels, k - 1);
      ReachableInv(states, labels, k - 1);
      ReachableReceiving(states, labels, k - 1);
      assert Next(states[k - 1], labels[k - 1]) == Some(states[k]);
      NextDoomed(states[k - 1], labels[k - 1]);
    }
  }

  /** DisconnectSession closes the session: from then on it is marked for closing or a thread is about to mark it. */
  lemma {:induction false} DisconnectCloses(states: seq<State>, labels: seq<Label>, j: nat, k: nat)
    requires Execution(states, labels) && j < k < |states| && labels[j].Disconnect?
    ensures Closing(states[k])
  {
    hide Next, Inv, Init, Closing, Receiving;
    ReachableInv(states, labels, k - 1);
    ReachableReceiving(states, labels, k - 1);
    assert Next(states[k - 1], labels[k - 1]) == Some(states[k]);
    if j < k - 1 {
      DisconnectCloses(states, labels, j, k - 1);
    }
    NextReceiving(states[k - 1], labels[k - 1]);
  }

  /** At rest a session is marked for closing exactly if there was a reason. */
  lemma AtRest(states: seq<State>, labels: seq<Label>, k: nat)
    requires Execution(states, labels) && k < |states| && Quiescent(states[k])
    ensures states[k].table.shouldClose <==> exists j :: 0 <= j < k && Cause(states[j], labels[j])
  {
    hide Next, Init, Cause, Execution;
    DoomedIff(states, labels, k);
  }

  /** So a session at rest with no receive outstanding has been erased and announced exactly once, and one for
      which no reason to close has come up still waits for its client. */
  lemma ClosedWithCause(states: seq<State>, labels: seq<Label>, k: nat)
    requires Execution(states, labels) && k < |states| && Quiescent(states[k])
    ensures (exists j :: 0 <= j < k && Cause(states[j], labels[j])) && !states[k].flags.receivePending ==>
              !states[k].table.inTable && states[k].table.disconnectedMessages == 1
    ensures !(exists j :: 0 <= j < k && Cause(states[j], labels[j])) ==>
              states[k].table.inTable && states[k].flags.receivePending
  {
    hide Next, Init, Cause, Execution;
    AtRest(states, labels, k);
    if !states[k].table.shouldClose {
      QuiescentReceives(states, labels, k);
      OpenIsInTable(states, labels, k);
    } else if !states[k].flags.receivePending {
      ClosingIsErased(states, labels, k);
    }
  }

  lemma OpenIsInTable(states: seq<State>, labels: seq<Label>, k: nat)
    requires Execution(states, labels) && k < |states| && !states[k].table.shouldClose
    ensures states[k].table.inTable
  {
    hide Next, Init;
    ReachableInv(states, labels, k);
  }

  // ---- processing what was received ----

  function Unprocessed(): Pc -> bool {
    (p: Pc) => p.PostReceive? || p.ProcessReceive?
  }

  function Completions(labels: seq<Label>): nat {
    if labels == [] then 0 else Completions(labels[..|labels| - 1]) + B2N(labels[|labels| - 1].TakeReceive?)
  }

  /** The steps in which a thread has processed the receive buffers, with success or without. */
  function Processed(states: seq<State>, labels: seq<Label>): nat
    requires |states| == |labels| + 1
  {
    if labels == [] then 0
    else
      var n := |labels| - 1;
      var s, l := states[n], labels[n];
      Processed(states[..n + 1], labels[..n]) + B2N(l.t < |s.threads| && s.threads[l.t].ProcessReceive?)
  }

  /** Every receive completion is processed, once: those taken are those processed and those that a thread is just
      about to process. */
  lemma {:induction false} CompletionsProcessed(states: seq<State>, labels: seq<Label>)
    requires Execution(states, labels)
    ensures Completions(labels) == Processed(states, labels) + Number(Unprocessed(), states[|labels|])
  {
    hide Next, Inv;
    if labels == [] {
      CountZero(Unprocessed(), states[0].threads);
    } else {
      var n := |labels| - 1;
      CompletionsProcessed(states[..n + 1], labels[..n]);
      assert Next(states[n], labels[n]) == Some(states[n + 1]);
      ProcessedStep(states[n], labels[n]);
    }
  }

  lemma ProcessedStep(s: State, l: Label)
    requires Next(s, l).Some?
    ensures l.t < |s.threads|
    ensures Number(Unprocessed(), Next(s, l).value) + B2N(s.threads[l.t].ProcessReceive?) ==
            Number(Unprocessed(), s) + B2N(l.TakeReceive?)
  {
    hide CountIf, Next, ProgramStep, StartStep, MoveStep, FailStep;
    LocalStep(s, l);
    CountUpdate(Unprocessed(), s.threads, l.t, Next(s, l).value.threads[l.t]);
  }
}
