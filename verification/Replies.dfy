/** How many replies an input gets. */
module Replies {
  import opened Wrappers
  import opened Text
  import opened Transparency
  import opened Commands
  import opened Sasl
  import opened Protocol
  import opened Provenance

  /** An AUTH exchange goes on and the library had nothing to say. */
  predicate NoChallenge(state: State, verb: Option<CommandVerb>, e: Effect, a: Answers) {
    && e.next.AuthStep?
    && if state.AuthStep? then a.saslStep.writes == []
       else (a.authCommand.Some? && ((!a.authCommand.value.hasArgument && Upper(a.authCommand.value.mech) == "PLAIN")
                                     || a.saslStart.first.writes == []))
  }

  lemma AuthReplies(hostname: string, state: State, r: Reading, a: Answers)
    requires state.AuthStep? || (state.Ehlo? && r.verb == Some(AUTH))
    requires WorkingIO(a) && (state.AuthStep? ==> state.auth.writeBuf.None?)
    ensures var e := Dispatch(hostname, state, r, a);
            && |e.replies| <= 1
            && (e.replies == [] <==> NoChallenge(state, r.verb, e, a))
  {
  }

  lemma OtherReplies(hostname: string, state: State, r: Reading, a: Answers)
    requires !state.AuthStep? && !(state.Ehlo? && r.verb == Some(AUTH))
    requires WorkingIO(a)
    ensures var e := Dispatch(hostname, state, r, a);
            && |e.replies| <= 1
            && (e.replies == [] <==> state.Data? && r.piece.MoreText?)
  {
  }

  /**
   Every input gets at most one reply, and none exactly when it is a piece of the body without a detected
   end, or an AUTH exchange that goes on with no challenge written.
   */
  lemma OneReplyPerInput(hostname: string, state: State, input: string, a: Answers)
    requires WorkingIO(a) && (state.AuthStep? ==> state.auth.writeBuf.None?)
    ensures var e := Handle(hostname, state, input, a);
            && e.ioOk
            && |e.replies| <= 1
            && (e.replies == [] <==>
                  (state.Data? && !ContainsMailEnd(input)) || NoChallenge(state, VerbOf(input), e, a))
  {
    var r := Read(hostname, state, input, a);
    if state.AuthStep? || (state.Ehlo? && r.verb == Some(AUTH)) {
      AuthReplies(hostname, state, r, a);
    } else {
      OtherReplies(hostname, state, r, a);
    }
  }

  /** The same after any run of the session, whatever went before. */
  lemma OneReplyInRuns(hostname: string, turns: seq<Turn>, input: string, a: Answers)
    requires WorkingIO(a)
    ensures var s := Run(Start(hostname), turns).0;
            var e := Handle(s.hostname, s.state, input, a);
            && e.ioOk
            && |e.replies| <= 1
            && (e.replies == [] <==>
                  (s.state.Data? && !ContainsMailEnd(input)) || NoChallenge(s.state, VerbOf(input), e, a))
  {
    RunAccountable(Start(hostname), turns);
    var s := Run(Start(hostname), turns).0;
    OneReplyPerInput(s.hostname, s.state, input, a);
  }

  /** The verbs a state can do something with; AUTH and DATA take any input. */
  predicate Expected(state: State, verb: Option<CommandVerb>) {
    match state
    case Init => verb == Some(HELO) || verb == Some(EHLO)
    case Helo => verb == Some(MAIL)
    case Ehlo(_) => verb == Some(MAIL) || verb == Some(AUTH)
    case AuthStep(_, _) => true
    case Mail(_) => verb == Some(RCPT)
    case Rcpt(_) => verb == Some(RCPT) || verb == Some(DATA)
    case Data(_) => true
    case DataComplete => verb == Some(QUIT)
    case Quit => false
    case Cancelled => false
  }

  /** A session is cut off exactly on an unexpected verb: 503 if it is a verb at all, 500 if not. */
  lemma CutOffIff(hostname: string, state: State, r: Reading, a: Answers)
    requires WorkingIO(a)
    ensures var e := Dispatch(hostname, state, r, a);
            && (e.next.Cancelled? <==> !Expected(state, r.verb))
            && (e.next.Cancelled? ==> JustSaid(e.replies, if r.verb.Some? then BadSequence else BadCommand))
            && (e.next.Quit? <==> state.DataComplete? && r.verb == Some(QUIT))
  {
    if state.AuthStep? {
      AuthStepEnds(hostname, state.auth, state.fromState, a);
      AuthIoOk(hostname, state, r, a);
    } else if state.Ehlo? && r.verb == Some(AUTH) {
      InitSaslEnds(hostname, state.ehlo, a);
      AuthIoOk(hostname, state, r, a);
    } else {
      OtherCutOff(hostname, state, r, a);
    }
  }

  lemma AuthIoOk(hostname: string, state: State, r: Reading, a: Answers)
    requires state.AuthStep? || (state.Ehlo? && r.verb == Some(AUTH))
    requires WorkingIO(a)
    ensures Dispatch(hostname, state, r, a).ioOk
  {
  }

  lemma OtherCutOff(hostname: string, state: State, r: Reading, a: Answers)
    requires !state.AuthStep? && !(state.Ehlo? && r.verb == Some(AUTH))
    requires Sending(a)
    ensures var e := Dispatch(hostname, state, r, a);
            && (e.next.Cancelled? <==> !Expected(state, r.verb))
            && (e.next.Cancelled? ==> JustSaid(e.replies, if r.verb.Some? then BadSequence else BadCommand))
            && (e.next.Quit? <==> state.DataComplete? && r.verb == Some(QUIT))
  {
  }

  /** While authentication goes on, the client is sent exactly what the library wrote. */
  lemma ChallengeIsWhatWasWritten(hostname: string, auth: AuthView, from: EhloState, a: Answers)
    requires WorkingIO(a) && auth.writeBuf.None?
    ensures var e := HandleAuthStep(hostname, auth, from, a);
            e.next.AuthStep? && a.saslStep.writes != [] ==>
              JustSaid(e.replies, Challenge(Flatten(a.saslStep.writes))) && e.next.auth.writeBuf.None?
  {
    assert "" + Flatten(a.saslStep.writes) == Flatten(a.saslStep.writes);
  }

  // ---------- failing sends ----------

  /** The same answers with working sends. */
  function Smoothly(a: Answers): Answers {
    a.(sendOk := (i: nat) => true)
  }

  /**
   `e` is `smooth` up to the first send that fails: the replies before it were sent, and the session is gone, with an
   error unless it was leaving anyway.  What was stored, queued and validated stays so.
   */
  ghost predicate CutShort(a: Answers, smooth: Effect, e: Effect) {
    && e.stored == smooth.stored && e.queued == smooth.queued && e.logins == smooth.logins
    && ((forall i | 0 <= i < |smooth.replies| :: a.sendOk(i)) ==> e == smooth)
    && forall k | 0 <= k < |smooth.replies| && !a.sendOk(k) && forall i | 0 <= i < k :: a.sendOk(i) ::
         && e.replies == smooth.replies[..k]
         && if smooth.next.Quit? then e.next == Quit && OutcomeOf(e) == Stop
            else e.next == Cancelled && OutcomeOf(e) == IoError
  }

  /** What failing sends do to any input, in any state. */
  lemma FailedSend(hostname: string, state: State, input: string, a: Answers)
    ensures CutShort(a, Handle(hostname, state, input, Smoothly(a)), Handle(hostname, state, input, a))
  {
    var r := Read(hostname, state, input, a);
    assert r == Read(hostname, state, input, Smoothly(a));
    if state.AuthStep? {
      FailedStepSend(hostname, state.auth, state.fromState, a);
    } else if state.Ehlo? && r.verb == Some(AUTH) {
      FailedAuthSend(hostname, state.ehlo, a);
    } else if r.verb == Some(MAIL) && (state.Helo? || state.Ehlo?) {
      FailedMailSend(state, r.line, a);
    } else if state.Data? {
      FailedBodySend(hostname, state.data, r.piece, a);
    } else {
      FailedOtherSend(hostname, state, r, a);
    }
  }

  lemma FailedStepSend(hostname: string, auth: AuthView, from: EhloState, a: Answers)
    ensures CutShort(a, HandleAuthStep(hostname, auth, from, Smoothly(a)), HandleAuthStep(hostname, auth, from, a))
  {
  }

  lemma FailedAuthSend(hostname: string, from: EhloState, a: Answers)
    ensures CutShort(a, InitSasl(hostname, from, Smoothly(a)), InitSasl(hostname, from, a))
  {
    if a.authCommand.Some? {
      var cmd := a.authCommand.value;
      var made := NewAuth(hostname, Upper(cmd.mech), cmd.hasArgument, a.saslStart);
      if made.Success? {
        FailedOpenSend(from, made.value, a);
      }
    }
  }

  lemma FailedOpenSend(from: EhloState, auth: AuthView, a: Answers)
    ensures CutShort(a, OpenSasl(from, auth, Smoothly(a)), OpenSasl(from, auth, a))
  {
  }

  lemma FailedMailSend(from: State, line: AddressLine, a: Answers)
    requires from.Helo? || from.Ehlo?
    ensures CutShort(a, MailFrom(from, line, Smoothly(a)), MailFrom(from, line, a))
  {
  }

  lemma FailedBodySend(hostname: string, d: DataState, piece: BodyPiece, a: Answers)
    ensures CutShort(a, ReceiveData(hostname, d, piece, Smoothly(a)), ReceiveData(hostname, d, piece, a))
  {
  }

  lemma FailedOtherSend(hostname: string, state: State, r: Reading, a: Answers)
    requires !state.AuthStep? && !state.Data? && !(state.Ehlo? && r.verb == Some(AUTH))
    requires !(r.verb == Some(MAIL) && (state.Helo? || state.Ehlo?))
    ensures CutShort(a, Dispatch(hostname, state, r, Smoothly(a)), Dispatch(hostname, state, r, a))
  {
  }
}
