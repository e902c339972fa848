/** Who a session acts for: users, and the sender of its mail, over whole runs. */
module Provenance {
  import opened Wrappers
  import opened Text
  import opened Addresses
  import opened Commands
  import opened Sasl
  import opened Protocol

  /** The database accepted a password of `u` in this session, and `u` acts as nobody else. */
  ghost predicate Vouched(logins: seq<Login>, u: User) {
    u.identity == u.username && exists l :: l in logins && ToUser(l.user) == u
  }

  /** The authorized user a state carries. */
  function HeldUser(state: State): Option<User> {
    match state
    case Ehlo(ehlo) => ehlo.authorized
    case AuthStep(_, from) => from.authorized
    case Mail(mail) => mail.authorized
    case Rcpt(rcpt) => rcpt.authorized
    case Data(data) => data.authorized
    case _ => None
  }

  /** The library's validation slot holds nothing but a user vouched for. */
  ghost predicate SlotVouched(logins: seq<Login>, auth: AuthView) {
    auth.validation.Some? ==>
      auth.validation.value.Success? && Vouched(logins, ToUser(auth.validation.value.value))
  }

  /** A SASL session in progress: unfinished, nothing left to send, and only vouched users validated. */
  ghost predicate SaslInProgress(logins: seq<Login>, auth: AuthView) {
    && !auth.isFinished
    && UserOnlyWhenFinished(auth)
    && auth.writeBuf.None?
    && SlotVouched(logins, auth)
  }

  ghost predicate UsersVouched(s: Session) {
    && (HeldUser(s.state).Some? ==> Vouched(s.logins, HeldUser(s.state).value))
    && (s.state.AuthStep? ==> SaslInProgress(s.logins, s.state.auth))
  }

  lemma VouchedLater(logins: seq<Login>, more: seq<Login>, u: User)
    requires Vouched(logins, u)
    ensures Vouched(logins + more, u)
  {
    var l :| l in logins && ToUser(l.user) == u;
    assert l in logins + more;
  }

  lemma {:induction false} LastLoginVouched(logins: seq<Login>, hostname: string, calls: seq<ValidateCall>)
    ensures var more := Logins(hostname, calls);
            more != [] ==> Vouched(logins + more, ToUser(more[|more| - 1].user))
  {
    var more := Logins(hostname, calls);
    if calls != [] && more != [] {
      if Validate(hostname, calls[|calls| - 1]).None? {
        LastLoginVouched(logins, hostname, calls[..|calls| - 1]);
      } else {
        LoginIsItself(hostname, calls[|calls| - 1]);
        assert more[|more| - 1] in logins + more;
      }
    }
  }

  /** The validation slot after the library ran still names only vouched users. */
  lemma RanVouched(logins: seq<Login>, hostname: string, auth: AuthView, ans: SaslAnswer)
    requires SlotVouched(logins, auth)
    ensures SlotVouched(logins + Logins(hostname, ans.calls), Ran(hostname, auth, ans))
  {
    LastLoginVouched(logins, hostname, ans.calls);
    if auth.validation.Some? {
      VouchedLater(logins, Logins(hostname, ans.calls), ToUser(auth.validation.value.value));
    }
  }

  /** What `Auth::new` hands out names only users vouched for by then. */
  lemma NewAuthVouched(logins: seq<Login>, hostname: string, mech: string, hasArgument: bool, start: SaslStart)
    requires NewAuth(hostname, mech, hasArgument, start).Success?
    ensures var auth := NewAuth(hostname, mech, hasArgument, start).value;
            var after := logins + NewAuthLogins(hostname, mech, hasArgument, start);
            && (auth.authorized.Some? ==> Vouched(after, ToUser(auth.authorized.value)))
            && (!auth.isFinished ==> SaslInProgress(after, auth.(writeBuf := None)))
  {
    RanVouched(logins, hostname, Fresh(PLAIN), start.first);
    RanVouched(logins, hostname, Fresh(LOGIN), start.first);
  }

  lemma InitSaslVouched(s: Session, input: string, a: Answers)
    requires UsersVouched(s) && s.state.Ehlo?
    ensures UsersVouched(Apply(s, input, InitSasl(s.hostname, s.state.ehlo, a)))
  {
    var e := InitSasl(s.hostname, s.state.ehlo, a);
    if s.state.ehlo.authorized.Some? {
      VouchedLater(s.logins, e.logins, s.state.ehlo.authorized.value);
    }
    if a.authCommand.Some? {
      var cmd := a.authCommand.value;
      if NewAuth(s.hostname, Upper(cmd.mech), cmd.hasArgument, a.saslStart).Success? {
        NewAuthVouched(s.logins, s.hostname, Upper(cmd.mech), cmd.hasArgument, a.saslStart);
      }
    }
  }

  lemma AuthStepVouched(s: Session, input: string, a: Answers)
    requires UsersVouched(s) && s.state.AuthStep?
    ensures UsersVouched(Apply(s, input, HandleAuthStep(s.hostname, s.state.auth, s.state.fromState, a)))
  {
    var e := HandleAuthStep(s.hostname, s.state.auth, s.state.fromState, a);
    if s.state.fromState.authorized.Some? {
      VouchedLater(s.logins, e.logins, s.state.fromState.authorized.value);
    }
    RanVouched(s.logins, s.hostname, s.state.auth, a.saslStep);
  }

  /** Every step keeps users vouched for. */
  lemma StepUsersVouched(s: Session, input: string, a: Answers)
    requires UsersVouched(s)
    ensures UsersVouched(Step(s, input, a))
  {
    if s.state.Ehlo? && VerbOf(input) == Some(AUTH) {
      InitSaslVouched(s, input, a);
    } else if s.state.AuthStep? {
      AuthStepVouched(s, input, a);
    } else {
      OtherStepVouched(s, input, Read(s.hostname, s.state, input, a), a);
    }
  }

  lemma OtherStepVouched(s: Session, input: string, r: Reading, a: Answers)
    requires UsersVouched(s) && !s.state.AuthStep? && !(s.state.Ehlo? && r.verb == Some(AUTH))
    ensures UsersVouched(Apply(s, input, Dispatch(s.hostname, s.state, r, a)))
  {
    OtherStepKeepsUser(s.hostname, s.state, r, a);
    assert s.logins + [] == s.logins;
  }

  /** Outside AUTH no login happens, and the user a state holds is the one it had or none. */
  lemma OtherStepKeepsUser(hostname: string, state: State, r: Reading, a: Answers)
    requires !state.AuthStep? && !(state.Ehlo? && r.verb == Some(AUTH))
    ensures var e := Dispatch(hostname, state, r, a);
            && e.logins == []
            && !e.next.AuthStep?
            && (HeldUser(e.next).Some? ==> HeldUser(e.next) == HeldUser(state))
  {
  }

  /** What an AUTH exchange that started from `from` may leave behind. */
  predicate AuthEnds(e: Effect, from: EhloState) {
    && (e.next.Ehlo? && AuthSuccessful !in e.replies ==> e.next.ehlo == from)
    && (e.next.AuthStep? ==> e.next.fromState == from)
    && (if e.ioOk then e.next.Ehlo? || e.next.AuthStep? else e.next.Cancelled?)
    && (AuthSuccessful in e.replies ==> e.next.Ehlo? && e.next.ehlo.authorized.Some?)
  }

  lemma InitSaslEnds(hostname: string, ehlo: EhloState, a: Answers)
    ensures AuthEnds(InitSasl(hostname, ehlo, a), ehlo)
  {
  }

  lemma AuthStepEnds(hostname: string, auth: AuthView, from: EhloState, a: Answers)
    ensures AuthEnds(HandleAuthStep(hostname, auth, from, a), from)
  {
  }

  // ---------- the sender ----------

  /** The first thing the client said was EHLO. */
  predicate OpenedWithEhlo(log: seq<Exchange>) {
    log != [] && VerbOf(log[0].input) == Some(EHLO)
  }

  /** Sender, its local flag, and the user of a state with a sender. */
  predicate HasSender(state: State) {
    state.Mail? || state.Rcpt? || state.Data?
  }

  function SenderOf(state: State): MailAddress
    requires HasSender(state)
  {
    match state case Mail(m) => m.sender case Rcpt(r) => r.sender case Data(d) => d.sender
  }

  function LocalSenderFlag(state: State): bool
    requires HasSender(state)
  {
    match state case Mail(m) => m.isLocalSender case Rcpt(r) => r.isLocalSender case Data(d) => d.isLocalSender
  }

  /** A local sender is the authorized user itself. */
  ghost predicate SenderIsUser(s: Session) {
    HasSender(s.state) && LocalSenderFlag(s.state) ==>
      HeldUser(s.state).Some? && HeldUser(s.state).value.identity == SenderOf(s.state).address
  }

  ghost predicate SenderChecked(s: Session) {
    && (s.state.Init? ==> s.log == [])
    && (s.log == [] ==> s.state.Init?)
    && (s.state.Helo? ==> !OpenedWithEhlo(s.log))
    && (HasSender(s.state) ==> SenderOf(s.state).isLocalMailbox == Some(LocalSenderFlag(s.state)))
    && (OpenedWithEhlo(s.log) ==> SenderIsUser(s))
  }

  /** Only a session opened with EHLO comes to hold a user. */
  ghost predicate UsersAfterEhlo(s: Session) {
    s.state.Ehlo? || s.state.AuthStep? || HeldUser(s.state).Some? ==> OpenedWithEhlo(s.log)
  }

  lemma StepUsersAfterEhlo(s: Session, input: string, a: Answers)
    requires SenderChecked(s) && UsersAfterEhlo(s)
    ensures UsersAfterEhlo(Step(s, input, a))
  {
    DispatchUsers(s.hostname, s.state, Read(s.hostname, s.state, input, a), a);
    assert s.log != [] ==> Step(s, input, a).log[0] == s.log[0];
  }

  lemma DispatchUsers(hostname: string, state: State, r: Reading, a: Answers)
    ensures var t := Dispatch(hostname, state, r, a).next;
            t.Ehlo? || t.AuthStep? || HeldUser(t).Some? ==>
              state.Ehlo? || state.AuthStep? || HeldUser(state).Some? || (state.Init? && r.verb == Some(EHLO))
  {
    if state.AuthStep? {
    } else if state.Ehlo? && r.verb == Some(AUTH) {
    } else {
      OtherStepKeepsUser(hostname, state, r, a);
    }
  }

  lemma StepSenderChecked(s: Session, input: string, a: Answers)
    requires SenderChecked(s)
    ensures SenderChecked(Step(s, input, a))
  {
    var t := Step(s, input, a);
    assert s.log != [] ==> t.log[0] == s.log[0];
    if HasSender(s.state) {
      DispatchKeepsSender(s.hostname, s.state, Read(s.hostname, s.state, input, a), a);
    } else if s.state.AuthStep? {
      AuthStepEnds(s.hostname, s.state.auth, s.state.fromState, a);
    } else if s.state.Ehlo? && VerbOf(input) == Some(AUTH) {
      InitSaslEnds(s.hostname, s.state.ehlo, a);
    } else {
      DispatchChecksSender(s.hostname, s.state, Read(s.hostname, s.state, input, a), a);
      if s.state.Helo? || s.state.Ehlo? {
        MailFromChecksSender(s.state, Read(s.hostname, s.state, input, a).line, a);
      }
    }
  }

  lemma DispatchKeepsSender(hostname: string, state: State, r: Reading, a: Answers)
    requires HasSender(state)
    ensures var t := Dispatch(hostname, state, r, a).next;
            !t.Init? && !t.Helo?
    ensures var t := Dispatch(hostname, state, r, a).next;
            HasSender(t) ==> && SenderOf(t) == SenderOf(state)
                             && LocalSenderFlag(t) == LocalSenderFlag(state)
                             && HeldUser(t) == HeldUser(state)
  {
  }

  /** The check made when the sender is accepted: the verdict of the first question is the one remembered. */
  lemma MailFromChecksSender(from: State, line: AddressLine, a: Answers)
    requires from.Helo? || from.Ehlo?
    requires line.Parsed? ==> line.address.isLocalMailbox.None?
    ensures var t := MailFrom(from, line, a).next;
            && (HasSender(t) ==> t.Mail? && t.mail.sender.isLocalMailbox == Some(t.mail.isLocalSender))
            && (t.Mail? && from.Ehlo? && t.mail.isLocalSender ==>
                  t.mail.authorized.Some? && t.mail.authorized.value.identity == t.mail.sender.address)
            && (t == from || t.Mail? || t.Cancelled?)
  {
  }

  lemma DispatchChecksSender(hostname: string, state: State, r: Reading, a: Answers)
    requires !HasSender(state) && !state.AuthStep? && !(state.Ehlo? && r.verb == Some(AUTH))
    ensures var t := Dispatch(hostname, state, r, a).next;
            && !t.Init?
            && (t.Helo? ==> state.Helo? || (state.Init? && r.verb == Some(HELO)))
            && (HasSender(t) ==> (state.Helo? || state.Ehlo?) && t == MailFrom(state, r.line, a).next)
  {
  }

  /** When a MAIL line with a good address is accepted, in terms of what the database says about it. */
  lemma MailAcceptedIff(from: State, sender: MailAddress, a: Answers)
    requires from.Helo? || from.Ehlo?
    requires sender.isLocalMailbox.None? && a.sendOk(0)
    ensures var e := MailFrom(from, Parsed(sender), a);
            && (e.next.Mail? <==>
                  from.Helo? || !a.isLocal(0)
                  || (from.ehlo.authorized.Some? && from.ehlo.authorized.value.identity == sender.address))
            && (e.next.Mail? ==>
                  e.next.mail
                  == MailFromState(sender.(isLocalMailbox := Some(a.isLocal(0))), a.isLocal(0), HeldUser(from)))
            && e.replies == (if e.next.Mail? then [Okay] else [Unauthorized])
            && (!e.next.Mail? ==> e.next == from)
  {
  }

  /** After HELO nothing stops a stranger from using a local sender: the check is on the EHLO path only. */
  lemma HeloSenderUnchecked(hostname: string, input: string, sender: MailAddress, a: Answers)
    requires VerbOf(input) == Some(MAIL) && ReadAddressLine(MAIL_KEYWORD, hostname, input) == Parsed(sender)
    requires sender.isLocalMailbox.None? && a.sendOk(0)
    ensures var e := Handle(hostname, Helo, input, a);
            e.next.Mail? && e.next.mail.isLocalSender == a.isLocal(0) && e.next.mail.authorized.None?
            && JustSaid(e.replies, Okay)
  {
    MailAcceptedIff(Helo, sender, a);
  }

  /** Such an input: the address `a@b` at the server `b`. */
  lemma HeloSenderExample()
    ensures var input := MAIL_KEYWORD + "a@b" + ADDRESS_END;
            var line := ReadAddressLine(MAIL_KEYWORD, "b", input);
            VerbOf(input) == Some(MAIL) && line.Parsed? && line.address.address == "a@b"
            && line.address.isLocalMailbox.None?
  {
    MailLine("a@b");
    assert multiset("a@b")['@'] == 1;
    AddressHasOneAt("a@b", "b");
  }

  // ---------- whole runs ----------

  ghost predicate Accountable(s: Session) {
    UsersVouched(s) && SenderChecked(s) && UsersAfterEhlo(s)
  }

  lemma {:induction false} RunAccountable(s: Session, turns: seq<Turn>)
    requires Accountable(s)
    ensures Accountable(Run(s, turns).0)
    decreases |turns|
  {
    if turns != [] {
      StepUsersVouched(s, turns[0].input, turns[0].answers);
      StepSenderChecked(s, turns[0].input, turns[0].answers);
      StepUsersAfterEhlo(s, turns[0].input, turns[0].answers);
      var next := Step(s, turns[0].input, turns[0].answers);
      RunAccountable(next, turns[1..]);
    }
  }

  /**
   In every reachable state with a sender of a session opened with EHLO: a sender flagged local is the
   authorized user, and the database accepted that user's password in this session.
   */
  lemma LocalSenderAuthenticated(hostname: string, turns: seq<Turn>)
    ensures var s := Run(Start(hostname), turns).0;
            OpenedWithEhlo(s.log) && HasSender(s.state) && LocalSenderFlag(s.state) ==>
              exists l :: l in s.logins && l.user.identity == l.user.username == SenderOf(s.state).address
                          && HeldUser(s.state) == Some(ToUser(l.user))
  {
    RunAccountable(Start(hostname), turns);
  }

  /** In every reachable AUTH state the SASL session is unfinished and its user slot empty. */
  lemma AuthStateUnfinished(hostname: string, turns: seq<Turn>)
    ensures var s := Run(Start(hostname), turns).0;
            s.state.AuthStep? ==> !s.state.auth.isFinished && s.state.auth.authorized.None?
                                  && AuthorizedUser(s.state.auth).Failure?
  {
    RunAccountable(Start(hostname), turns);
  }

  /** A failed authentication goes back to exactly the EHLO state it came from, earlier user included. */
  lemma FailedAuthRestores(hostname: string, state: State, input: string, a: Answers)
    requires state.AuthStep? || (state.Ehlo? && VerbOf(input) == Some(AUTH))
    ensures AuthEnds(Handle(hostname, state, input, a), if state.AuthStep? then state.fromState else state.ehlo)
  {
    if state.AuthStep? {
      AuthStepEnds(hostname, state.auth, state.fromState, a);
    } else {
      InitSaslEnds(hostname, state.ehlo, a);
    }
  }

  // ---------- when a run is over ----------

  lemma FailedIsOver(hostname: string, state: State, r: Reading, a: Answers)
    ensures !Dispatch(hostname, state, r, a).ioOk ==> Dispatch(hostname, state, r, a).next.Cancelled?
  {
    if state.AuthStep? {
      AuthStepEnds(hostname, state.auth, state.fromState, a);
    } else if state.Ehlo? && r.verb == Some(AUTH) {
      InitSaslEnds(hostname, state.ehlo, a);
    } else {
      OtherFailedIsOver(hostname, state, r, a);
    }
  }

  lemma OtherFailedIsOver(hostname: string, state: State, r: Reading, a: Answers)
    requires !state.AuthStep? && !(state.Ehlo? && r.verb == Some(AUTH))
    ensures !Dispatch(hostname, state, r, a).ioOk ==> Dispatch(hostname, state, r, a).next.Cancelled?
  {
  }

  predicate Ended(state: State) {
    state.Quit? || state.Cancelled?
  }

  lemma StoppedIsOver(s: Session, input: string, a: Answers)
    ensures !Ended(Step(s, input, a).state) ==> OutcomeOf(Handle(s.hostname, s.state, input, a)) == Continue
  {
    FailedIsOver(s.hostname, s.state, Read(s.hostname, s.state, input, a), a);
  }

  /** A run whose session has not ended goes on. */
  lemma {:induction false} GoesOn(s: Session, turns: seq<Turn>)
    ensures !Ended(Run(s, turns).0.state) ==> Run(s, turns).1 == Continue
    decreases |turns|
  {
    if turns != [] {
      var n := |turns| - 1;
      GoesOn(s, turns[..n]);
      LastTurn(s, turns);
      StoppedIsOver(Run(s, turns[..n]).0, turns[n].input, turns[n].answers);
    }
  }
}
