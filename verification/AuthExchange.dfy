/** What an authentication exchange leads to, told from the library's answers and the database's verdicts. */
module AuthExchange {
  import opened Wrappers
  import opened Text
  import opened Commands
  import opened Sasl
  import opened Protocol
  import opened Provenance

  // ---------- accepted logins ----------

  /** The library had these credentials validated, and the database accepted them for `u`. */
  predicate Accepts(hostname: string, call: ValidateCall, u: User) {
    var c := call.credentials;
    && call.dbAnswer == Success(true)
    && c.authId.Some? && c.password.Some? && c.password.value.Utf8?
    && (c.authzId.None? || AllSpace(c.authzId.value) || c.authzId == c.authId)
    && u == User(hostname, c.authId.value, c.authId.value)
  }

  ghost predicate NoneAccepted(hostname: string, calls: seq<ValidateCall>) {
    forall i, u | 0 <= i < |calls| :: !Accepts(hostname, calls[i], u)
  }

  /** The last of the calls that was accepted was accepted for `u`. */
  ghost predicate LastAccepted(hostname: string, calls: seq<ValidateCall>, u: User) {
    exists i :: 0 <= i < |calls| && Accepts(hostname, calls[i], u) && NoneAccepted(hostname, calls[i + 1..])
  }

  lemma AcceptsIff(hostname: string, call: ValidateCall, u: User)
    ensures Accepts(hostname, call, u) <==>
              Validate(hostname, call).Some? && ToUser(Validate(hostname, call).value.user) == u
  {
    LoginIsItself(hostname, call);
    if call.credentials.authzId.Some? {
      BlankIff(call.credentials.authzId.value);
    }
  }

  lemma NoneAcceptedSnoc(hostname: string, calls: seq<ValidateCall>, call: ValidateCall)
    requires NoneAccepted(hostname, calls) && Validate(hostname, call).None?
    ensures NoneAccepted(hostname, calls + [call])
  {
    forall i, u | 0 <= i < |calls + [call]|
      ensures !Accepts(hostname, (calls + [call])[i], u)
    {
      if i == |calls| {
        AcceptsIff(hostname, call, u);
      } else {
        assert (calls + [call])[i] == calls[i];
      }
    }
  }

  /** The login recorded last is the one accepted last. */
  lemma {:induction false} LastLogin(hostname: string, calls: seq<ValidateCall>)
    ensures var logins := Logins(hostname, calls);
            if logins == [] then NoneAccepted(hostname, calls)
            else LastAccepted(hostname, calls, ToUser(logins[|logins| - 1].user))
  {
    if calls != [] {
      var n := |calls| - 1;
      var logins := Logins(hostname, calls);
      assert calls == calls[..n] + [calls[n]];
      LastLogin(hostname, calls[..n]);
      if Validate(hostname, calls[n]).Some? {
        var u := ToUser(Validate(hostname, calls[n]).value.user);
        AcceptsIff(hostname, calls[n], u);
        assert calls[n + 1..] == [];
      } else if logins == [] {
        NoneAcceptedSnoc(hostname, calls[..n], calls[n]);
      } else {
        LastAcceptedSnoc(hostname, calls, ToUser(logins[|logins| - 1].user));
      }
    }
  }

  lemma LastAcceptedSnoc(hostname: string, calls: seq<ValidateCall>, u: User)
    requires calls != [] && Validate(hostname, calls[|calls| - 1]).None?
    requires LastAccepted(hostname, calls[..|calls| - 1], u)
    ensures LastAccepted(hostname, calls, u)
  {
    var n := |calls| - 1;
    var init := calls[..n];
    var i :| 0 <= i < n && Accepts(hostname, init[i], u) && NoneAccepted(hostname, init[i + 1..]);
    NoneAcceptedSnoc(hostname, init[i + 1..], calls[n]);
    assert calls[i + 1..] == init[i + 1..] + [calls[n]];
    assert calls[i] == init[i];
  }

  lemma {:induction false} LoginsConcat(hostname: string, a: seq<ValidateCall>, b: seq<ValidateCall>)
    ensures Logins(hostname, a + b) == Logins(hostname, a) + Logins(hostname, b)
  {
    if b == [] {
      assert a + b == a;
    } else {
      var n := |b| - 1;
      LoginsConcat(hostname, a, b[..n]);
      assert (a + b)[..|a + b| - 1] == a + b[..n];
    }
  }

  // ---------- the slot ----------

  /** The validation slot holds the login accepted last among `calls`, if there was one. */
  ghost predicate SlotHolds(hostname: string, auth: AuthView, calls: seq<ValidateCall>) {
    var logins := Logins(hostname, calls);
    auth.validation == if logins == [] then None else Some(Success(logins[|logins| - 1].user))
  }

  lemma RanHolds(hostname: string, auth: AuthView, before: seq<ValidateCall>, ans: SaslAnswer)
    requires SlotHolds(hostname, auth, before)
    ensures SlotHolds(hostname, Ran(hostname, auth, ans), before + ans.calls)
  {
    LoginsConcat(hostname, before, ans.calls);
  }

  // ---------- a step ----------

  const ACCEPTED := "235" + " " + "2.7.0 Authentication successful" + "\r\n"
  const UNAUTHORIZED := "535" + " " + "5.7.8 Unauthorized" + "\r\n"
  const BAD_MECHANISM := "535" + " " + "5.7.8 Invalid authentication mechanism" + "\r\n"

  /** What the client reads while the exchange goes on and the library wrote `writes`. */
  function Prompt(writes: seq<string>): string {
    if writes == [] then "" else "334" + " " + Flatten(writes) + "\r\n"
  }

  /** Behind the code and before the line end the client reads all that the library wrote, and nothing else. */
  lemma PromptShowsWrites(writes: seq<string>)
    requires writes != []
    ensures var w := Prompt(writes);
            |w| >= 6 && w[..4] == "334 " && w[4..|w| - 2] == Flatten(writes)
  {
  }

  /**
   The end of a step of the library, the calls of the SASL session so far being `calls`: it goes on, or it succeeds for
   the user accepted last, or it fails and the session is back where it came from.
   */
  ghost predicate StepEnds(hostname: string, from: EhloState, ans: SaslAnswer, calls: seq<ValidateCall>, e: Effect) {
    match ans.state
    case Running =>
      && e.next.AuthStep? && e.next.fromState == from && SlotHolds(hostname, e.next.auth, calls)
      && WireAll(e.replies) == Prompt(ans.writes)
    case FinishedSilent =>
      if NoneAccepted(hostname, calls) then Refused(from, e)
      else exists u :: LastAccepted(hostname, calls, u) && Granted(u, e)
    case _ => Refused(from, e)
  }

  predicate Granted(u: User, e: Effect) {
    e.next == Ehlo(EhloState(Some(u))) && WireAll(e.replies) == ACCEPTED
  }

  predicate Refused(from: EhloState, e: Effect) {
    e.next == Ehlo(from) && WireAll(e.replies) == UNAUTHORIZED
  }

  /** One input in AUTH state. */
  lemma StepOutcome(hostname: string, auth: AuthView, from: EhloState, before: seq<ValidateCall>, input: string,
                    a: Answers)
    requires Sending(a) && auth.writeBuf.None? && SlotHolds(hostname, auth, before)
    ensures StepEnds(hostname, from, a.saslStep, before + a.saslStep.calls,
                     Handle(hostname, AuthStep(auth, from), input, a))
  {
    var calls := before + a.saslStep.calls;
    RanHolds(hostname, auth, before, a.saslStep);
    LastLogin(hostname, calls);
    StepReplies(hostname, auth, from, a);
    NotBoth(hostname, calls);
  }

  lemma NotBoth(hostname: string, calls: seq<ValidateCall>)
    ensures NoneAccepted(hostname, calls) ==> forall u :: !LastAccepted(hostname, calls, u)
  {
  }

  /** The same in terms of the slot after the library ran. */
  lemma StepReplies(hostname: string, auth: AuthView, from: EhloState, a: Answers)
    requires Sending(a) && auth.writeBuf.None?
    ensures var e := HandleAuthStep(hostname, auth, from, a);
            var slot := Ran(hostname, auth, a.saslStep).validation;
            if a.saslStep.state == Running then
              && e.next.AuthStep? && e.next.fromState == from && e.next.auth.validation == slot
              && WireAll(e.replies) == Prompt(a.saslStep.writes)
            else if a.saslStep.state == FinishedSilent && slot.Some? && slot.value.Success? then
              Granted(ToUser(slot.value.value), e)
            else Refused(from, e)
  {
    WireOfOne(AuthSuccessful);
    WireOfOne(AuthUnauthorized);
    PromptOfOne(a.saslStep.writes);
  }

  lemma PromptOfOne(writes: seq<string>)
    ensures WireAll([Challenge("" + Flatten(writes))]) == "334" + " " + Flatten(writes) + "\r\n"
  {
    assert "" + Flatten(writes) == Flatten(writes);
    WireOfOne(Challenge(Flatten(writes)));
  }

  // ---------- the command ----------

  /** The command names the mechanism `name`, in any case. */
  predicate Names(a: Answers, name: string) {
    a.authCommand.Some? && SameUpToCase(a.authCommand.value.mech, name)
  }

  lemma NamesIff(a: Answers)
    requires a.authCommand.Some?
    ensures var mech := Upper(a.authCommand.value.mech);
            (mech == "PLAIN" <==> Names(a, "PLAIN")) && (mech == "LOGIN" <==> Names(a, "LOGIN"))
  {
    UpperKeyword("PLAIN");
    UpperKeyword("LOGIN");
    SameUpperIff(a.authCommand.value.mech, "PLAIN");
    SameUpperIff(a.authCommand.value.mech, "LOGIN");
  }

  /** The library starts the mechanism, and it is one of the two the server knows. */
  predicate KnownMechanism(a: Answers) {
    a.saslStart.started && (Names(a, "PLAIN") || Names(a, "LOGIN"))
  }

  /** The calls of the library while an AUTH command is handled. */
  function FirstCalls(a: Answers): seq<ValidateCall> {
    if KnownMechanism(a) && (Names(a, "LOGIN") || a.authCommand.value.hasArgument)
    then a.saslStart.first.calls else []
  }

  /** What an AUTH command leads to. */
  ghost predicate CommandEnds(hostname: string, from: EhloState, a: Answers, e: Effect) {
    if !KnownMechanism(a) then e.next == Ehlo(from) && WireAll(e.replies) == BAD_MECHANISM
    else if Names(a, "LOGIN") then
      && e.next.AuthStep? && e.next.fromState == from && SlotHolds(hostname, e.next.auth, FirstCalls(a))
      && WireAll(e.replies) == Prompt(a.saslStart.first.writes)
    else if !a.authCommand.value.hasArgument then
      e.next.AuthStep? && e.next.fromState == from && SlotHolds(hostname, e.next.auth, []) && WireAll(e.replies) == ""
    else StepEnds(hostname, from, a.saslStart.first, a.saslStart.first.calls, e)
  }

  /** One AUTH command; the library wrote nothing if it says that it finished without sending. */
  lemma CommandOutcome(hostname: string, from: EhloState, input: string, a: Answers)
    requires VerbOf(input) == Some(AUTH) && WorkingIO(a)
    ensures CommandEnds(hostname, from, a, Handle(hostname, Ehlo(from), input, a))
  {
    AuthHandled(hostname, from, input, a);
    WireOfOne(AuthBadMechanism);
    if a.authCommand.Some? {
      NamesIff(a);
    }
    if KnownMechanism(a) {
      if Names(a, "LOGIN") {
        RanHolds(hostname, Fresh(LOGIN), [], a.saslStart.first);
        assert [] + a.saslStart.first.calls == a.saslStart.first.calls;
        LoginStarts(hostname, from, a);
      } else if a.authCommand.value.hasArgument {
        PlainOutcome(hostname, from, a);
      }
    }
  }

  lemma AuthHandled(hostname: string, from: EhloState, input: string, a: Answers)
    requires VerbOf(input) == Some(AUTH)
    ensures Handle(hostname, Ehlo(from), input, a) == InitSasl(hostname, from, a)
  {
  }

  lemma LoginStarts(hostname: string, from: EhloState, a: Answers)
    requires KnownMechanism(a) && Names(a, "LOGIN") && Sending(a)
    ensures var e := InitSasl(hostname, from, a);
            && e.next == AuthStep(Ran(hostname, Fresh(LOGIN), a.saslStart.first).(writeBuf := None), from)
            && WireAll(e.replies) == Prompt(a.saslStart.first.writes)
  {
    NamesIff(a);
    PromptOfOne(a.saslStart.first.writes);
  }

  lemma PlainOutcome(hostname: string, from: EhloState, a: Answers)
    requires KnownMechanism(a) && Names(a, "PLAIN") && a.authCommand.value.hasArgument
    requires WorkingIO(a)
    ensures StepEnds(hostname, from, a.saslStart.first, a.saslStart.first.calls, InitSasl(hostname, from, a))
  {
    var first := a.saslStart.first;
    RanHolds(hostname, Fresh(PLAIN), [], first);
    assert [] + first.calls == first.calls;
    LastLogin(hostname, first.calls);
    NotBoth(hostname, first.calls);
    PlainReplies(hostname, from, a);
  }

  lemma PlainReplies(hostname: string, from: EhloState, a: Answers)
    requires KnownMechanism(a) && Names(a, "PLAIN") && a.authCommand.value.hasArgument
    requires WorkingIO(a)
    ensures var e := InitSasl(hostname, from, a);
            var first := a.saslStart.first;
            var slot := Ran(hostname, Fresh(PLAIN), first).validation;
            if first.state == Running then
              && e.next.AuthStep? && e.next.fromState == from && e.next.auth.validation == slot
              && WireAll(e.replies) == Prompt(first.writes)
            else if first.state == FinishedSilent && slot.Some? && slot.value.Success? then
              Granted(ToUser(slot.value.value), e)
            else Refused(from, e)
  {
    NamesIff(a);
    WireOfOne(AuthSuccessful);
    WireOfOne(AuthUnauthorized);
    PromptOfOne(a.saslStart.first.writes);
    assert forall r: Reply :: [] + [r] == [r];
  }

  // ---------- whole runs ----------

  /** The calls of the SASL session that is open after these turns. */
  ghost function OpenCalls(hostname: string, turns: seq<Turn>): seq<ValidateCall> {
    if turns == [] then []
    else
      var n := |turns| - 1;
      if Run(Start(hostname), turns[..n]).0.state.AuthStep?
      then OpenCalls(hostname, turns[..n]) + turns[n].answers.saslStep.calls
      else FirstCalls(turns[n].answers)
  }

  /** In a reachable AUTH state the slot holds what was accepted last since the AUTH command. */
  lemma {:induction false} SlotInRuns(hostname: string, turns: seq<Turn>)
    ensures var s := Run(Start(hostname), turns).0;
            s.state.AuthStep? ==> SlotHolds(s.hostname, s.state.auth, OpenCalls(hostname, turns))
  {
    if turns != [] {
      var n := |turns| - 1;
      var s := Run(Start(hostname), turns[..n]).0;
      SlotInRuns(hostname, turns[..n]);
      LastTurn(Start(hostname), turns);
      StoppedNotInAuth(Start(hostname), turns[..n]);
      SlotStep(s, OpenCalls(hostname, turns[..n]), turns[n].input, turns[n].answers);
    }
  }

  lemma StoppedNotInAuth(s: Session, turns: seq<Turn>)
    ensures Run(s, turns).0.state.AuthStep? ==> Run(s, turns).1 == Continue
  {
    GoesOn(s, turns);
  }

  lemma SlotStep(s: Session, before: seq<ValidateCall>, input: string, a: Answers)
    requires s.state.AuthStep? ==> SlotHolds(s.hostname, s.state.auth, before)
    ensures var t := Step(s, input, a);
            t.state.AuthStep? ==>
              SlotHolds(t.hostname, t.state.auth,
                        if s.state.AuthStep? then before + a.saslStep.calls else FirstCalls(a))
  {
    if s.state.AuthStep? {
      RanHolds(s.hostname, s.state.auth, before, a.saslStep);
      StepSlot(s.hostname, s.state.auth, s.state.fromState, a);
    } else if s.state.Ehlo? && VerbOf(input) == Some(AUTH) {
      CommandHolds(s.hostname, s.state.ehlo, input, a);
    } else {
      OtherStepKeepsUser(s.hostname, s.state, Read(s.hostname, s.state, input, a), a);
    }
  }

  lemma CommandHolds(hostname: string, from: EhloState, input: string, a: Answers)
    requires VerbOf(input) == Some(AUTH)
    ensures var t := Handle(hostname, Ehlo(from), input, a).next;
            t.AuthStep? ==> SlotHolds(hostname, t.auth, FirstCalls(a))
  {
    AuthHandled(hostname, from, input, a);
    RanHolds(hostname, Fresh(LOGIN), [], a.saslStart.first);
    RanHolds(hostname, Fresh(PLAIN), [], a.saslStart.first);
    assert [] + a.saslStart.first.calls == a.saslStart.first.calls;
    CommandSlot(hostname, from, a);
  }

  lemma StepSlot(hostname: string, auth: AuthView, from: EhloState, a: Answers)
    ensures var t := HandleAuthStep(hostname, auth, from, a).next;
            t.AuthStep? ==> t.auth.validation == Ran(hostname, auth, a.saslStep).validation
  {
  }

  lemma CommandSlot(hostname: string, from: EhloState, a: Answers)
    ensures var t := InitSasl(hostname, from, a).next;
            t.AuthStep? ==>
              && KnownMechanism(a)
              && (if Names(a, "LOGIN")
                  then t.auth.validation == Ran(hostname, Fresh(LOGIN), a.saslStart.first).validation
                  else if a.authCommand.value.hasArgument
                  then t.auth.validation == Ran(hostname, Fresh(PLAIN), a.saslStart.first).validation
                  else t.auth.validation == None)
  {
    if a.authCommand.Some? {
      NamesIff(a);
    }
  }

  /**
   In every reachable AUTH state, with working sends: if the library goes on, so does the exchange, and the client reads
   what the library wrote; if it finishes silently and some login of this SASL session was accepted, the session holds
   the user accepted last and the client is told so; in every other case the client is refused, and the session is
   back in the EHLO state the AUTH command was given in.
   */
  lemma ReachableStepOutcome(hostname: string, turns: seq<Turn>, input: string, a: Answers)
    requires Sending(a)
    ensures var s := Run(Start(hostname), turns).0;
            s.state.AuthStep? ==>
              StepEnds(s.hostname, s.state.fromState, a.saslStep, OpenCalls(hostname, turns) + a.saslStep.calls,
                       Handle(s.hostname, s.state, input, a))
  {
    var s := Run(Start(hostname), turns).0;
    if s.state.AuthStep? {
      RunAccountable(Start(hostname), turns);
      SlotInRuns(hostname, turns);
      StepOutcome(s.hostname, s.state.auth, s.state.fromState, OpenCalls(hostname, turns), input, a);
    }
  }
}
