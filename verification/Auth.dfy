/** The login actor and its background thread: two job queues and two maps that say who is online.

    The account database, the password hash and the network are outside: the look-up, the account creation,
    hashing and checking come in as functions, and what goes out is recorded in order. */
module Auth {
  import opened Types

  // ---- what is asked and what is answered ----

  const INVALID_ID: nat := 0xFFFF_FFFF

  datatype Job =
    | LoginJob(context: nat, id: nat, requestedPassword: string, savedPassword: string, isPasswordMatch: bool)
    | RegisterJob(context: nat, account: string, originalPassword: string, hashedPassword: string)
  {
    /** The job as it was enqueued. */
    function Request(): Job {
      if LoginJob? then this.(isPasswordMatch := false) else this.(hashedPassword := "")
    }

    /** ExecuteBackgroundJob. */
    function Execute(b: Bcrypt): Job {
      if LoginJob? then this.(isPasswordMatch := id != INVALID_ID && b.check(requestedPassword, savedPassword))
      else this.(hashedPassword := b.hash(originalPassword))
    }
  }

  /** `unknown` is the hash that a login for an unknown account is checked against. */
  datatype Bcrypt = Bcrypt(check: (string, string) -> bool, hash: string -> string, unknown: string)

  datatype LoginResult = Success | Failure | DuplicateAccount | DuplicateContext

  datatype Outgoing =
    | LoginResponse(context: nat, result: LoginResult)
    | RegisterResponse(context: nat, successful: bool, reason: Reason)
    | Notify(context: nat)
    | DisconnectSession(context: nat)

  datatype Reason = NoReason | AccountTooShort | AccountTooLong | AccountCharacters
                  | PasswordTooShort | PasswordTooLong | PasswordCharacters | DuplicateId | UnknownError

  datatype CreateAccountResult = Created | DuplicatedAccount | CreationFailed

  predicate AccountChar(c: char) {
    'a' <= c <= 'z' || '0' <= c <= '9' || c == '_'
  }

  predicate PasswordChar(c: char) {
    'a' <= c <= 'z' || 'A' <= c <= 'Z' || '0' <= c <= '9' || c in "!@#$%^&*()_+-=[]{};':\"\\|,.<>/?"
  }

  /** The first thing wrong with a registration, in the order of the program's checks. */
  function Fault(account: string, password: string): Reason {
    if |account| < 6 then AccountTooShort
    else if |account| > 24 then AccountTooLong
    else if exists k :: 0 <= k < |account| && !AccountChar(account[k]) then AccountCharacters
    else if |password| < 8 then PasswordTooShort
    else if |password| > 32 then PasswordTooLong
    else if exists k :: 0 <= k < |password| && !PasswordChar(password[k]) then PasswordCharacters
    else NoReason
  }

  /** Which reason is given when, with the allowed characters written out. */
  lemma FaultWhen(account: string, password: string)
    ensures
      var strange := exists c :: c in account && !('a' <= c <= 'z' || '0' <= c <= '9' || c == '_');
      var odd := exists c :: c in password && !('a' <= c <= 'z' || 'A' <= c <= 'Z' || '0' <= c <= '9'
                                                || c in "!@#$%^&*()_+-=[]{};':\"\\|,.<>/?");
      var fine := 6 <= |account| <= 24 && !strange;
      && (Fault(account, password) == AccountTooShort <==> |account| < 6)
      && (Fault(account, password) == AccountTooLong <==> |account| > 24)
      && (Fault(account, password) == AccountCharacters <==> 6 <= |account| <= 24 && strange)
      && (Fault(account, password) == PasswordTooShort <==> fine && |password| < 8)
      && (Fault(account, password) == PasswordTooLong <==> fine && |password| > 32)
      && (Fault(account, password) == PasswordCharacters <==> fine && 8 <= |password| <= 32 && odd)
      && (Fault(account, password) == NoReason <==> fine && 8 <= |password| <= 32 && !odd)
  {
    hide AccountChar, PasswordChar;
    CharsIff(account, AccountChar);
    CharsIff(password, PasswordChar);
    AllowedChars();
  }

  lemma AllowedChars()
    ensures forall c :: AccountChar(c) <==> 'a' <= c <= 'z' || '0' <= c <= '9' || c == '_'
    ensures forall c :: PasswordChar(c) <==> 'a' <= c <= 'z' || 'A' <= c <= 'Z' || '0' <= c <= '9'
                                             || c in "!@#$%^&*()_+-=[]{};':\"\\|,.<>/?"
  {
  }

  /** What a registration has to be, without the order of the checks. */
  lemma FaultlessIff(account: string, password: string)
    ensures Fault(account, password) == NoReason <==>
            && 6 <= |account| <= 24 && (forall c :: c in account ==> AccountChar(c))
            && 8 <= |password| <= 32 && (forall c :: c in password ==> PasswordChar(c))
  {
    hide AccountChar, PasswordChar;
    CharsIff(account, AccountChar);
    CharsIff(password, PasswordChar);
  }

  lemma CharsIff(s: string, p: char -> bool)
    ensures (exists k :: 0 <= k < |s| && !p(s[k])) <==> exists c :: c in s && !p(c)
  {
    if c :| c in s && !p(c) {
      var k :| 0 <= k < |s| && s[k] == c;
    }
  }

  function ReasonOf(r: CreateAccountResult): Reason {
    match r
    case Created => NoReason
    case DuplicatedAccount => DuplicateId
    case CreationFailed => UnknownError
  }

  // ---- who is online ----

  /** The two maps are mutually inverse. */
  ghost predicate Inverse(contextId: map<nat, nat>, idContext: map<nat, nat>) {
    && (forall c :: c in contextId ==> contextId[c] in idContext && idContext[contextId[c]] == c)
    && (forall id :: id in idContext ==> idContext[id] in contextId && contextId[idContext[id]] == id)
  }

  /** No account is online under two contexts and no context under two accounts. */
  lemma InverseIsBijective(contextId: map<nat, nat>, idContext: map<nat, nat>)
    requires Inverse(contextId, idContext)
    ensures forall c, d :: c in contextId && d in contextId && contextId[c] == contextId[d] ==> c == d
    ensures forall c, id :: (c in contextId && contextId[c] == id) <==> (id in idContext && idContext[id] == c)
  {
  }

  /** A login for an existing account with its password. */
  predicate Matches(j: Job, b: Bcrypt) {
    j.LoginJob? && j.id != INVALID_ID && b.check(j.requestedPassword, j.savedPassword)
  }

  ghost predicate IsLogin(j: Job, o: Outgoing, b: Bcrypt, context: nat, id: nat) {
    Matches(j, b) && j.context == context && j.id == id && o == LoginResponse(context, LoginResult.Success)
  }

  /** What a successful login of this context and account has to look like in the record. */
  ghost predicate LoggedIn(answered: seq<Job>, answers: seq<Outgoing>, b: Bcrypt, context: nat, id: nat)
    requires |answers| == |answered|
  {
    exists k :: 0 <= k < |answered| && IsLogin(answered[k], answers[k], b, context, id)
  }

  /** An answer belongs to its request: the same context, the same kind, and Failure exactly for an
      unknown account or a wrong password. */
  predicate Answers(j: Job, o: Outgoing, b: Bcrypt) {
    match j
    case LoginJob(context, _, _, _, _) =>
      o.LoginResponse? && o.context == context && (o.result == Failure <==> !Matches(j, b))
    case RegisterJob(context, _, _, _) =>
      o.RegisterResponse? && o.context == context && (o.successful <==> o.reason == NoReason)
  }

  /** The answer to an executed login job. */
  function LoginOutcome(contextId: map<nat, nat>, idContext: map<nat, nat>, j: Job): LoginResult
    requires j.LoginJob?
  {
    if !j.isPasswordMatch then Failure
    else if j.context in contextId then DuplicateContext
    else if j.id in idContext then DuplicateAccount
    else LoginResult.Success
  }

  function AnswerTo(contextId: map<nat, nat>, idContext: map<nat, nat>, j: Job,
                    create: (string, string) -> CreateAccountResult): Outgoing {
    if j.LoginJob? then LoginResponse(j.context, LoginOutcome(contextId, idContext, j))
    else
      var creation := create(j.account, j.hashedPassword);
      RegisterResponse(j.context, creation.Created?, ReasonOf(creation))
  }

  /** The answers after which a tick does not go on. */
  predicate Stops(o: Outgoing) {
    (o.LoginResponse? && o.result == Failure) || (o.RegisterResponse? && !o.successful)
  }

  // ---- who is going to be online ----

  datatype Online = Online(contextId: map<nat, nat>, idContext: map<nat, nat>)

  /** What answering one request makes of the maps. */
  function Settled1(m: Online, j: Job, b: Bcrypt): Online {
    if Matches(j, b) && j.context !in m.contextId && j.id !in m.idContext then
      Online(m.contextId[j.context := j.id], m.idContext[j.id := j.context])
    else m
  }

  /** What answering the requests in order makes of them. */
  function Settled(m: Online, jobs: seq<Job>, b: Bcrypt): Online
    decreases |jobs|
  {
    if jobs == [] then m else Settled(Settled1(m, jobs[0], b), jobs[1..], b)
  }

  lemma {:induction false} SettledSnoc(m: Online, jobs: seq<Job>, j: Job, b: Bcrypt)
    ensures Settled(m, jobs + [j], b) == Settled1(Settled(m, jobs, b), j, b)
    decreases |jobs|
  {
    if jobs == [] {
      assert [j][1..] == [];
    } else {
      assert (jobs + [j])[1..] == jobs[1..] + [j];
      SettledSnoc(Settled1(m, jobs[0], b), jobs[1..], j, b);
    }
  }

  /** Answering takes nobody offline. */
  lemma {:induction false} SettledKeeps(m: Online, jobs: seq<Job>, b: Bcrypt)
    ensures forall c :: c in m.contextId ==> c in Settled(m, jobs, b).contextId
    ensures forall id :: id in m.idContext ==>
              id in Settled(m, jobs, b).idContext && Settled(m, jobs, b).idContext[id] == m.idContext[id]
    decreases |jobs|
  {
    if jobs != [] {
      SettledKeeps(Settled1(m, jobs[0], b), jobs[1..], b);
    }
  }

  /** Request k logs this context in if its account is offline when its turn comes. */
  ghost predicate ComesOnline(m: Online, jobs: seq<Job>, b: Bcrypt, context: nat, k: nat)
    requires k < |jobs|
  {
    Matches(jobs[k], b) && jobs[k].context == context && jobs[k].id !in Settled(m, jobs[..k], b).idContext
  }

  /** An offline context comes online exactly by a login request of its own, with the right password, whose
      account is offline when its turn comes. */
  lemma {:induction false} ComesOnlineIff(m: Online, jobs: seq<Job>, b: Bcrypt, context: nat)
    requires context !in m.contextId
    ensures context in Settled(m, jobs, b).contextId <==>
            exists k :: 0 <= k < |jobs| && ComesOnline(m, jobs, b, context, k)
    decreases |jobs|
  {
    if jobs != [] {
      var n := |jobs| - 1;
      var before := jobs[..n];
      assert jobs == before + [jobs[n]];
      SettledSnoc(m, before, jobs[n], b);
      ComesOnlineIff(m, before, b, context);
      forall k | 0 <= k < n
        ensures ComesOnline(m, jobs, b, context, k) <==> ComesOnline(m, before, b, context, k)
      {
        assert before[..k] == jobs[..k];
      }
      if ComesOnline(m, jobs, b, context, n) {
        assert context in Settled(m, jobs, b).contextId;
      }
    }
  }

  /** No request is a login of this context. */
  predicate NoLogin(jobs: seq<Job>, context: nat) {
    forall k :: 0 <= k < |jobs| ==> !(jobs[k].LoginJob? && jobs[k].context == context)
  }

  lemma FirstSettled(m: Online, j: Job, rest: seq<Job>, b: Bcrypt)
    ensures Settled(m, [j] + rest, b) == Settled(Settled1(m, j, b), rest, b)
  {
    assert ([j] + rest)[1..] == rest;
  }

  lemma FirstIsNone(j: Job, rest: seq<Job>, contexts: set<nat>)
    requires forall c :: c in contexts ==> NoLogin([j] + rest, c)
    ensures forall c :: c in contexts ==> NoLogin(rest, c)
    ensures j.LoginJob? ==> j.context !in contexts
  {
    forall c | c in contexts
      ensures NoLogin(rest, c) && !(j.LoginJob? && j.context == c)
    {
      assert ([j] + rest)[0] == j;
      assert forall k :: 0 <= k < |rest| ==> rest[k] == ([j] + rest)[k + 1];
    }
  }

  /** An account that is online stays refused: no request waiting for its answer logs anybody in for it. */
  lemma LockedOut(m: Online, jobs: seq<Job>, b: Bcrypt, k: nat)
    requires k < |jobs| && jobs[k].LoginJob? && jobs[k].id in m.idContext
    ensures
      var now := Settled(m, jobs[..k], b);
      LoginOutcome(now.contextId, now.idContext, jobs[k].Execute(b)) != LoginResult.Success
  {
    SettledKeeps(m, jobs[..k], b);
  }

  /** The case in which "nobody online has disconnected" fails: a context disconnects before its login job is
      answered, the answer puts it online, and every later login for the account is refused. */
  lemma LateLogin(b: Bcrypt, context: nat, id: nat, password: string, saved: string, later: nat)
    requires id != INVALID_ID && b.check(password, saved) && later != context
    ensures
      var job := LoginJob(context, id, password, saved, false);
      var again := LoginJob(later, id, password, saved, false);
      var m := Settled(Online(map[], map[]), [job], b);
      && !NoLogin([job], context) && context in m.contextId
      && LoginOutcome(m.contextId, m.idContext, again.Execute(b)) == DuplicateAccount
  {
    var job := LoginJob(context, id, password, saved, false);
    assert Settled(Settled1(Online(map[], map[]), job, b), [job][1..], b).contextId == map[context := id];
    assert [job][0].LoginJob?;
  }

  function Requests(jobs: seq<Job>): (r: seq<Job>)
    ensures |r| == |jobs| && forall k :: 0 <= k < |jobs| ==> r[k] == jobs[k].Request()
  {
    seq(|jobs|, k requires 0 <= k < |jobs| => jobs[k].Request())
  }

  function Hand(job: Option<Job>): seq<Job> {
    if job.Some? then [job.value] else []
  }

  class A_Auth {
    const bcrypt: Bcrypt
    var contextIdMap: map<nat, nat>
    var idContextMap: map<nat, nat>
    var authJobForegroundQueue: seq<Job>
    var authJobBackgroundQueue: seq<Job>
    var inHand: Option<Job>
    var sent: seq<Outgoing>

    // every job ever enqueued, those answered so far, and their answers
    ghost var enqueued: seq<Job>
    ghost var answered: seq<Job>
    ghost var answers: seq<Outgoing>

    // the contexts that have disconnected with no login job of theirs unanswered, and have not asked since
    ghost var gone: set<nat>

    /** Every job enqueued is answered, waiting for its answer, in the background thread's hand or waiting
        for that thread, in this order; nothing is lost, duplicated or overtaken. */
    ghost predicate Ordered()
      reads this`answered, this`authJobForegroundQueue, this`inHand, this`authJobBackgroundQueue, this`enqueued
    {
      && answered + Requests(authJobForegroundQueue) + Hand(inHand) + authJobBackgroundQueue == enqueued
      && (forall k :: 0 <= k < |authJobForegroundQueue| ==>
            authJobForegroundQueue[k] == authJobForegroundQueue[k].Request().Execute(bcrypt))
      && (forall k :: 0 <= k < |enqueued| ==> enqueued[k] == enqueued[k].Request())
    }

    /** Each answered job has exactly one answer, and whoever is online has logged in with the password. */
    ghost predicate Recorded(jobs: seq<Job>)
      reads this`answers, this`contextIdMap
    {
      && |answers| == |jobs|
      && (forall k :: 0 <= k < |jobs| ==> Answers(jobs[k], answers[k], bcrypt))
      && (forall c :: c in contextIdMap ==> LoggedIn(jobs, answers, bcrypt, c, contextIdMap[c]))
    }

    /** The jobs still without an answer when the first `count` have one, as they were enqueued. */
    ghost function Unanswered(count: nat): seq<Job>
      requires count <= |enqueued|
      reads this`enqueued
    {
      enqueued[count..]
    }

    /** Nobody who is gone is online, or has a login job that could still put them online. */
    ghost predicate GoneIsOffline(count: nat)
      requires count <= |enqueued|
      reads this`gone, this`contextIdMap, this`enqueued
    {
      forall c :: c in gone ==> c !in contextIdMap && NoLogin(Unanswered(count), c)
    }

    /** Who is going to be online when every job so far has been answered. */
    ghost function WillBeOnline(count: nat): Online
      requires count <= |enqueued|
      reads this`contextIdMap, this`idContextMap, this`enqueued
    {
      Settled(Online(contextIdMap, idContextMap), Unanswered(count), bcrypt)
    }

    ghost predicate Valid()
      reads this
    {
      && Inverse(contextIdMap, idContextMap) && Ordered() && Recorded(answered)
      && |answered| <= |enqueued| && GoneIsOffline(|answered|)
    }

    /** Nobody online has disconnected, unless a login job of theirs was unanswered at that moment: a context
        counts as gone exactly if none was. */
    lemma GoneIsNotOnline(context: nat)
      requires Valid() && context in gone
      ensures context !in contextIdMap && context !in WillBeOnline(|answered|).contextId
    {
      ComesOnlineIff(Online(contextIdMap, idContextMap), Unanswered(|answered|), bcrypt, context);
    }

    /** Whoever is online got there with the right password for an existing account, and nobody else is
        online for that account. */
    lemma OnlineIsAuthenticated(context: nat)
      requires Valid() && context in contextIdMap
      ensures
        var id := contextIdMap[context];
        && id != INVALID_ID && id in idContextMap && idContextMap[id] == context
        && (forall c :: c in contextIdMap && contextIdMap[c] == id ==> c == context)
        && exists k :: 0 <= k < |answered| && k < |answers| && IsLogin(answered[k], answers[k], bcrypt, context, id)
    {
      assert LoggedIn(answered, answers, bcrypt, context, contextIdMap[context]);
    }

    constructor (bcrypt: Bcrypt)
      ensures Valid() && enqueued == [] && contextIdMap == map[] && sent == [] && gone == {}
    {
      this.bcrypt := bcrypt;
      contextIdMap, idContextMap := map[], map[];
      authJobForegroundQueue, authJobBackgroundQueue, inHand := [], [], None;
      sent, enqueued, answered, answers, gone := [], [], [], [], {};
    }

    // ---- requests ----

    method Enqueue(job: Job)
      requires Valid() && job == job.Request()
      modifies this`authJobBackgroundQueue, this`enqueued, this`gone
      ensures Valid() && enqueued == old(enqueued) + [job]
      ensures authJobBackgroundQueue == old(authJobBackgroundQueue) + [job]
      ensures gone == if job.LoginJob? then old(gone) - {job.context} else old(gone)
      ensures WillBeOnline(|answered|) == Settled1(old(WillBeOnline(|answered|)), job, bcrypt)
    {
      assert enqueued[|answered|..] + [job] == (enqueued + [job])[|answered|..];
      SettledSnoc(Online(contextIdMap, idContextMap), enqueued[|answered|..], job, bcrypt);
      gone := if job.LoginJob? then gone - {job.context} else gone;
      authJobBackgroundQueue := authJobBackgroundQueue + [job];
      enqueued := enqueued + [job];
    }

    /** A registration is enqueued exactly when nothing is wrong with it; otherwise it is refused at once
        with the first fault, in the order of the program's checks. */
    method OnRegisterRequest(context: nat, account: string, password: string) returns (ghost reason: Reason)
      requires Valid()
      modifies this`authJobBackgroundQueue, this`enqueued, this`sent, this`gone
      ensures Valid() && gone == old(gone) && reason == Fault(account, password)
      ensures enqueued ==
              old(enqueued) + if reason == NoReason then [RegisterJob(context, account, password, "")] else []
      ensures sent == old(sent) + if reason == NoReason then [] else [RegisterResponse(context, false, reason)]
      ensures
        var strange := exists c :: c in account && !('a' <= c <= 'z' || '0' <= c <= '9' || c == '_');
        var odd := exists c :: c in password && !('a' <= c <= 'z' || 'A' <= c <= 'Z' || '0' <= c <= '9'
                                                  || c in "!@#$%^&*()_+-=[]{};':\"\\|,.<>/?");
        var fine := 6 <= |account| <= 24 && !strange;
        && (reason == AccountTooShort <==> |account| < 6)
        && (reason == AccountTooLong <==> |account| > 24)
        && (reason == AccountCharacters <==> 6 <= |account| <= 24 && strange)
        && (reason == PasswordTooShort <==> fine && |password| < 8)
        && (reason == PasswordTooLong <==> fine && |password| > 32)
        && (reason == PasswordCharacters <==> fine && 8 <= |password| <= 32 && odd)
        && (reason == NoReason <==> fine && 8 <= |password| <= 32 && !odd)
    {
      hide Fault;
      FaultWhen(account, password);
      var fault := Fault(account, password);
      reason := fault;
      if fault != NoReason {
        sent := sent + [RegisterResponse(context, false, fault)];
        return;
      }
      Enqueue(RegisterJob(context, account, password, ""));
    }

    /** A context that is online already is notified and disconnected; any other request is enqueued, one
        for an unknown account under the invalid id. */
    method OnLoginRequest(context: nat, account: string, password: string, accounts: string -> Option<(nat, string)>)
      requires Valid()
      modifies this`authJobBackgroundQueue, this`enqueued, this`sent, this`gone
      ensures Valid()
      ensures gone == if context in contextIdMap then old(gone) else old(gone) - {context}
      ensures context in contextIdMap ==>
                enqueued == old(enqueued) && sent == old(sent) + [Notify(context), DisconnectSession(context)]
      ensures context !in contextIdMap ==>
                var (id, saved) :=
                  if accounts(account).Some? then accounts(account).value else (INVALID_ID, bcrypt.unknown);
                enqueued == old(enqueued) + [LoginJob(context, id, password, saved, false)] && sent == old(sent)
    {
      if context in contextIdMap {
        sent := sent + [Notify(context), DisconnectSession(context)];
        return;
      }
      var found := accounts(account);
      if found.Some? {
        Enqueue(LoginJob(context, found.value.0, password, found.value.1, false));
      } else {
        Enqueue(LoginJob(context, INVALID_ID, password, bcrypt.unknown, false));
      }
    }

    /** Takes exactly the disconnected context and its account out of both maps.  If no login job of it is
        unanswered it is gone for good.  Otherwise such a job can put it back: once the jobs so far have been
        answered the context is online if and only if one of them logs it in. */
    method HandleSessionDisconnected(context: nat)
      requires Valid()
      modifies this`contextIdMap, this`idContextMap, this`gone
      ensures Valid() && contextIdMap == old(contextIdMap) - {context}
      ensures gone == if NoLogin(Unanswered(|answered|), context) then old(gone) + {context} else old(gone)
      ensures context in WillBeOnline(|answered|).contextId <==>
              exists k :: 0 <= k < |Unanswered(|answered|)| &&
                          ComesOnline(Online(contextIdMap, idContextMap), Unanswered(|answered|), bcrypt, context, k)
      ensures idContextMap == if context !in old(contextIdMap) then old(idContextMap)
                              else old(idContextMap) - {old(contextIdMap)[context]}
    {
      hide Settled, LoggedIn, Requests;
      gone := if NoLogin(Unanswered(|answered|), context) then gone + {context} else gone;
      if context !in contextIdMap {
        assert contextIdMap - {context} == contextIdMap;
        ComesOnlineIff(Online(contextIdMap, idContextMap), Unanswered(|answered|), bcrypt, context);
        return;
      }
      idContextMap := idContextMap - {contextIdMap[context]};
      contextIdMap := contextIdMap - {context};
      ComesOnlineIff(Online(contextIdMap, idContextMap), Unanswered(|answered|), bcrypt, context);
    }

    // ---- the background thread ----

    method BackgroundPop()
      requires Valid() && inHand.None?
      modifies this`authJobBackgroundQueue, this`inHand
      ensures Valid()
      ensures inHand == if old(authJobBackgroundQueue) == [] then None else Some(old(authJobBackgroundQueue)[0])
    {
      if authJobBackgroundQueue == [] {
        return;
      }
      ghost var before := authJobBackgroundQueue;
      inHand := Some(authJobBackgroundQueue[0]);
      authJobBackgroundQueue := authJobBackgroundQueue[1..];
      assert before == [before[0]] + before[1..];
    }

    method BackgroundPush()
      requires Valid() && inHand.Some?
      modifies this`authJobForegroundQueue, this`inHand
      ensures Valid() && inHand.None?
      ensures authJobForegroundQueue == old(authJobForegroundQueue) + [old(inHand).value.Execute(bcrypt)]
      ensures
        var (before, after) := (old(inHand).value, authJobForegroundQueue[|old(authJobForegroundQueue)|]);
        match before
        case LoginJob(context, id, requested, saved, _) =>
          after == LoginJob(context, id, requested, saved, id != INVALID_ID && bcrypt.check(requested, saved))
        case RegisterJob(context, account, password, _) =>
          after == RegisterJob(context, account, password, bcrypt.hash(password))
    {
      assert inHand.value in enqueued;
      assert Requests(authJobForegroundQueue + [inHand.value.Execute(bcrypt)])
          == Requests(authJobForegroundQueue) + [inHand.value];
      authJobForegroundQueue := authJobForegroundQueue + [inHand.value.Execute(bcrypt)];
      inHand := None;
    }

    /** Any number of moves of the background thread. */
    method Background(moves: nat)
      requires Valid()
      modifies this`authJobForegroundQueue, this`authJobBackgroundQueue, this`inHand
      ensures Valid()
    {
      for k := 0 to moves
        invariant Valid()
      {
        if inHand.None? {
          BackgroundPop();
        } else {
          BackgroundPush();
        }
      }
    }

    // ---- the actor's tick ----

    /** One round of Tick's loop: the first foreground job is answered, and a successful login puts context
        and account online together. */
    method TickOnce(create: (string, string) -> CreateAccountResult) returns (goOn: bool)
      requires Valid()
      modifies this`authJobForegroundQueue, this`contextIdMap, this`idContextMap, this`sent, this`answered, this`answers
      ensures Valid()
      ensures WillBeOnline(|answered|) == old(WillBeOnline(|answered|))
      ensures old(authJobForegroundQueue) == [] ==>
                && !goOn && sent == old(sent) && answered == old(answered) && answers == old(answers)
                && contextIdMap == old(contextIdMap) && idContextMap == old(idContextMap)
                && authJobForegroundQueue == []
      ensures old(authJobForegroundQueue) != [] ==>
                var job := old(authJobForegroundQueue)[0];
                var answer := AnswerTo(old(contextIdMap), old(idContextMap), job, create);
                && authJobForegroundQueue == old(authJobForegroundQueue)[1..]
                && answered == old(answered) + [job.Request()]
                && answers == old(answers) + [answer] && sent == old(sent) + [answer]
                && (match job
                    case LoginJob(context, id, _, _, matches) =>
                      && answer.LoginResponse? && answer.context == context
                      && (answer.result == Failure <==> !matches)
                      && (answer.result == DuplicateContext <==> matches && context in old(contextIdMap))
                      && (answer.result == DuplicateAccount <==>
                            matches && context !in old(contextIdMap) && id in old(idContextMap))
                      && (answer.result == LoginResult.Success <==>
                            matches && context !in old(contextIdMap) && id !in old(idContextMap))
                    case RegisterJob(context, account, _, hashed) =>
                      match create(account, hashed)
                      case Created => answer == RegisterResponse(context, true, NoReason)
                      case DuplicatedAccount => answer == RegisterResponse(context, false, DuplicateId)
                      case CreationFailed => answer == RegisterResponse(context, false, UnknownError))
                && (goOn <==> !Stops(answer))
                && (goOn <==> if job.LoginJob? then job.isPasswordMatch
                              else create(job.account, job.hashedPassword).Created?)
                && if answer == LoginResponse(job.context, LoginResult.Success) then
                     && contextIdMap == old(contextIdMap)[job.context := job.id]
                     && idContextMap == old(idContextMap)[job.id := job.context]
                   else contextIdMap == old(contextIdMap) && idContextMap == old(idContextMap)
    {
      hide LoggedIn, Inverse, Requests, Settled, NoLogin, A_Auth.Ordered, A_Auth.Recorded;
      if authJobForegroundQueue == [] {
        return false;
      }
      ghost var jobs := answered;
      ghost var m := Online(contextIdMap, idContextMap);
      var job := PopForeground();
      FirstSettled(m, job.Request(), Unanswered(|answered|), bcrypt);
      FirstIsNone(job.Request(), Unanswered(|answered|), gone);
      if job.RegisterJob? {
        var creation := create(job.account, job.hashedPassword);
        Respond(jobs, job, RegisterResponse(job.context, creation.Created?, ReasonOf(creation)));
        return creation.Created?;
      }
      if !job.isPasswordMatch {
        Respond(jobs, job, LoginResponse(job.context, Failure));
        return false;
      }
      Login(jobs, job);
      return true;
    }

    method PopForeground() returns (job: Job)
      requires Ordered() && authJobForegroundQueue != []
      modifies this`authJobForegroundQueue, this`answered
      ensures Ordered() && job == old(authJobForegroundQueue)[0] && job == job.Request().Execute(bcrypt)
      ensures authJobForegroundQueue == old(authJobForegroundQueue)[1..] && answered == old(answered) + [job.Request()]
      ensures |answered| <= |enqueued| && Unanswered(|old(answered)|) == [job.Request()] + Unanswered(|answered|)
    {
      RequestsCut(answered, authJobForegroundQueue, Hand(inHand), authJobBackgroundQueue);
      job := authJobForegroundQueue[0];
      authJobForegroundQueue := authJobForegroundQueue[1..];
      answered := answered + [job.Request()];
    }

    /** Sends the answer to a job. */
    method Respond(ghost jobs: seq<Job>, job: Job, answer: Outgoing)
      requires Recorded(jobs) && Answers(job.Request(), answer, bcrypt)
      modifies this`sent, this`answers
      ensures Recorded(jobs + [job.Request()])
      ensures sent == old(sent) + [answer] && answers == old(answers) + [answer]
    {
      StillLoggedIn(jobs, answers, bcrypt, job.Request(), answer);
      sent, answers := sent + [answer], answers + [answer];
    }

    /** A login with the right password. */
    method Login(ghost jobs: seq<Job>, job: Job)
      requires job.LoginJob? && job.isPasswordMatch && job == job.Request().Execute(bcrypt)
      requires Recorded(jobs) && Inverse(contextIdMap, idContextMap)
      modifies this`contextIdMap, this`idContextMap, this`sent, this`answers
      ensures Recorded(jobs + [job.Request()]) && Inverse(contextIdMap, idContextMap)
      ensures
        var outcome := LoginOutcome(old(contextIdMap), old(idContextMap), job);
        var answer := LoginResponse(job.context, outcome);
        && sent == old(sent) + [answer] && answers == old(answers) + [answer]
        && if outcome == LoginResult.Success then
             && contextIdMap == old(contextIdMap)[job.context := job.id]
             && idContextMap == old(idContextMap)[job.id := job.context]
           else contextIdMap == old(contextIdMap) && idContextMap == old(idContextMap)
    {
      var result := LoginResult.Success;
      if job.context in contextIdMap {
        result := DuplicateContext;
      } else if job.id in idContextMap {
        result := DuplicateAccount;
      }
      Respond(jobs, job, LoginResponse(job.context, result));
      if result == LoginResult.Success {
        assert IsLogin((jobs + [job.Request()])[|jobs|], answers[|jobs|], bcrypt, job.context, job.id);
        contextIdMap := contextIdMap[job.context := job.id];
        idContextMap := idContextMap[job.id := job.context];
      }
    }

    /** A tick: jobs are answered in order until the foreground queue is found empty or an answer stops the
        tick; what is left is for the next one.  `moves(k)` is how far the background thread gets before
        the k-th look at the queue, and `create(k)` is the account creation as the database does it in round k. */
    method Tick(moves: nat -> nat, create: nat -> (string, string) -> CreateAccountResult)
      requires Valid()
      modifies this`authJobForegroundQueue, this`authJobBackgroundQueue, this`inHand
      modifies this`contextIdMap, this`idContextMap, this`sent, this`answered, this`answers
      ensures Valid()
      ensures old(answered) <= answered && old(answers) <= answers
      ensures WillBeOnline(|answered|) == old(WillBeOnline(|answered|))
      ensures sent == old(sent) + answers[|old(answers)|..]
      ensures forall k :: |old(answers)| <= k < |answers| - 1 ==> !Stops(answers[k])
      ensures authJobForegroundQueue == [] || (|old(answers)| < |answers| && Stops(answers[|answers| - 1]))
    {
      hide LoggedIn, Inverse, Requests, LoginOutcome, Settled, A_Auth.WillBeOnline, A_Auth.GoneIsOffline,
           A_Auth.Ordered, A_Auth.Recorded;
      var k := 0;
      var goOn := true;
      while goOn
        invariant Valid() && WillBeOnline(|answered|) == old(WillBeOnline(|answered|))
        invariant old(answered) <= answered && old(answers) <= answers && |answered| <= |enqueued|
        invariant sent == old(sent) + answers[|old(answers)|..]
        invariant forall j :: |old(answers)| <= j < |answers| - 1 ==> !Stops(answers[j])
        invariant goOn ==> forall j :: |old(answers)| <= j < |answers| ==> !Stops(answers[j])
        invariant !goOn ==>
                    authJobForegroundQueue == [] || (|old(answers)| < |answers| && Stops(answers[|answers| - 1]))
        decreases |enqueued| - |answered|, goOn
      {
        Background(moves(k));
        goOn := TickOnce(create(k));
        k := k + 1;
      }
    }
  }

  /** Answering the first foreground job moves it to the end of the answered ones. */
  lemma RequestsCut(answered: seq<Job>, queue: seq<Job>, hand: seq<Job>, background: seq<Job>)
    requires queue != []
    ensures answered + [queue[0].Request()] + Requests(queue[1..]) + hand + background
         == answered + Requests(queue) + hand + background
  {
    assert Requests(queue) == [queue[0].Request()] + Requests(queue[1..]);
    assert answered + [queue[0].Request()] + Requests(queue[1..]) == answered + Requests(queue);
  }

  /** One more answer does not change who has logged in. */
  lemma StillLoggedIn(answered: seq<Job>, answers: seq<Outgoing>, b: Bcrypt, j: Job, o: Outgoing)
    requires |answers| == |answered|
    ensures forall c, id :: LoggedIn(answered, answers, b, c, id) ==> LoggedIn(answered + [j], answers + [o], b, c, id)
  {
    forall c, id | LoggedIn(answered, answers, b, c, id)
      ensures LoggedIn(answered + [j], answers + [o], b, c, id)
    {
      var k :| 0 <= k < |answered| && IsLogin(answered[k], answers[k], b, c, id);
      assert IsLogin((answered + [j])[k], (answers + [o])[k], b, c, id);
    }
  }
}
