/**
 What a client reads, and where the session then is, for every kind of input: stated from the text of the input and
 the answers of the world, with working sends.
 */
module OnTheWire {
  import opened Wrappers
  import opened Text
  import opened Transparency
  import opened Rejection
  import opened Addresses
  import opened Commands
  import opened Sasl
  import opened Delivery
  import opened Protocol
  import opened Provenance
  import opened RelaySafety
  import opened Replies
  import opened AuthExchange

  /** The client reads one line with this code and text, and the session is in `next`. */
  predicate Says(e: Effect, code: string, text: string, next: State) {
    e.ioOk && WireAll(e.replies) == code + " " + text + "\r\n" && e.next == next
  }

  /** The first word of the line is the name of `v`, in any case. */
  predicate IsVerb(input: string, v: CommandVerb) {
    SameUpToCase(FirstWord(input), NameOf(v))
  }

  ghost predicate NoVerb(input: string) {
    forall v :: !IsVerb(input, v)
  }

  lemma VerbRead(input: string)
    ensures forall v :: VerbOf(input) == Some(v) <==> IsVerb(input, v)
    ensures VerbOf(input) == None <==> NoVerb(input)
  {
    forall v
      ensures VerbOf(input) == Some(v) <==> IsVerb(input, v)
    {
      VerbIff(input, v);
    }
  }

  /** An effect that is one reply. */
  lemma OneReply(e: Effect, r: Reply)
    requires JustSaid(e.replies, r)
    ensures WireAll(e.replies) == r.Wire()
  {
    WireOfOne(r);
    assert e.replies == [r];
  }

  // ---------- being cut off ----------

  /** The session is ended, with 503 for a known verb and 500 for none. */
  ghost predicate CutOff(e: Effect, input: string) {
    if NoVerb(input) then Says(e, "500", "Unrecognized command", Cancelled)
    else Says(e, "503", "Bad sequence", Cancelled)
  }

  lemma CutOffReads(hostname: string, state: State, input: string, a: Answers)
    requires Sending(a) && !Expected(state, VerbOf(input))
    ensures CutOff(Handle(hostname, state, input, a), input)
  {
    VerbRead(input);
    var e := Handle(hostname, state, input, a);
    OtherCutOff(hostname, state, Read(hostname, state, input, a), a);
    if VerbOf(input).Some? {
      BadSequenceSays(e);
    } else {
      BadCommandSays(e);
    }
  }

  lemma BadSequenceSays(e: Effect)
    requires e.ioOk && JustSaid(e.replies, BadSequence)
    ensures Says(e, "503", "Bad sequence", e.next)
  {
    OneReply(e, BadSequence);
  }

  lemma BadCommandSays(e: Effect)
    requires e.ioOk && JustSaid(e.replies, BadCommand)
    ensures Says(e, "500", "Unrecognized command", e.next)
  {
    OneReply(e, BadCommand);
  }

  // ---------- greeting and farewell ----------

  lemma GreetingReads(hostname: string, input: string, a: Answers)
    requires Sending(a)
    ensures var e := Handle(hostname, Init, input, a);
            && (IsVerb(input, HELO) ==> Says(e, "250", "OK", Helo))
            && (IsVerb(input, EHLO) ==>
                  && e.next == Ehlo(EhloState(None))
                  && WireAll(e.replies) == "250-" + hostname + "\r\n" + ("250" + " " + "AUTH PLAIN LOGIN" + "\r\n"))
  {
    VerbRead(input);
    var e := Handle(hostname, Init, input, a);
    if IsVerb(input, HELO) {
      OneReply(e, Okay);
    } else if IsVerb(input, EHLO) {
      OneReply(e, EhloOkay(hostname));
    }
  }

  lemma FarewellReads(hostname: string, input: string, a: Answers)
    requires Sending(a) && IsVerb(input, QUIT)
    ensures Says(Handle(hostname, DataComplete, input, a), "221", "closing channel", Quit)
  {
    VerbRead(input);
    FarewellHandled(hostname, Read(hostname, DataComplete, input, a), a);
    FarewellSays(Handle(hostname, DataComplete, input, a));
  }

  lemma FarewellHandled(hostname: string, r: Reading, a: Answers)
    requires Sending(a) && r.verb == Some(QUIT)
    ensures var e := Dispatch(hostname, DataComplete, r, a);
            e.ioOk && JustSaid(e.replies, Closing) && e.next == Quit
  {
  }

  lemma FarewellSays(e: Effect)
    requires e.ioOk && JustSaid(e.replies, Closing)
    ensures Says(e, "221", "closing channel", e.next)
  {
    OneReply(e, Closing);
  }

  // ---------- MAIL and RCPT ----------

  /** The address `t`, as the server `hostname` sees it. */
  ghost predicate AddressFor(hostname: string, t: string, address: MailAddress) {
    && address.address == t == address.localPart + "@" + address.domain
    && '@' !in address.localPart && '@' !in address.domain
    && address.isLocalMailbox == None
    && (address.isLocalResponsibility <==> address.domain == hostname)
  }

  /** An address line holds one text only. */
  lemma LineHasOneText(keyword: string, input: string, t: string, u: string)
    requires AddressLineFor(keyword, input, t) && AddressLineFor(keyword, input, u)
    ensures t == u
  {
    AddressPattern(keyword, input, t);
    AddressPattern(keyword, input, u);
  }

  /** The three things an address line can turn out to be, told from its text. */
  ghost predicate LineIs(keyword: string, hostname: string, input: string, line: AddressLine) {
    match line
    case Malformed => forall t :: !AddressLineFor(keyword, input, t)
    case NoAddress => exists t :: AddressLineFor(keyword, input, t) && multiset(t)['@'] != 1
    case Parsed(address) =>
      && AddressLineFor(keyword, input, address.address) && multiset(address.address)['@'] == 1
      && AddressFor(hostname, address.address, address)
  }

  lemma LineReads(keyword: string, hostname: string, input: string)
    ensures LineIs(keyword, hostname, input, ReadAddressLine(keyword, hostname, input))
  {
    NoAddressLine(keyword, input);
    if ParseAddressMessage(keyword, input).Some? {
      var t := ParseAddressMessage(keyword, input).value;
      AddressPattern(keyword, input, t);
      AddressHasOneAt(t, hostname);
    }
  }

  /**
   A MAIL line.  It is malformed, or its text is not an address, or the sender is the mailbox of somebody other than the
   authorized user of an EHLO session; else it is accepted.
   */
  ghost predicate MailAnswered(hostname: string, from: State, input: string, a: Answers, e: Effect) {
    && ((forall t :: !AddressLineFor(MAIL_KEYWORD, input, t)) ==> Says(e, "500", "Unrecognized command", from))
    && forall t | AddressLineFor(MAIL_KEYWORD, input, t) ::
         if multiset(t)['@'] != 1 then Says(e, "450", "Invalid host", from)
         else exists sender :: AddressFor(hostname, t, sender) && SenderAnswered(from, sender, a, e)
  }

  predicate SenderAnswered(from: State, sender: MailAddress, a: Answers, e: Effect) {
    var user := HeldUser(from);
    if from.Ehlo? && a.isLocal(0) && !(user.Some? && user.value.identity == sender.address)
    then Says(e, "530", "5.7.0 Authentication required", from)
    else Says(e, "250", "OK", Mail(MailFromState(sender.(isLocalMailbox := Some(a.isLocal(0))), a.isLocal(0), user)))
  }

  lemma MailReads(hostname: string, from: State, input: string, a: Answers)
    requires Sending(a) && (from.Helo? || from.Ehlo?) && IsVerb(input, MAIL)
    ensures MailAnswered(hostname, from, input, a, Handle(hostname, from, input, a))
  {
    VerbRead(input);
    var line := ReadAddressLine(MAIL_KEYWORD, hostname, input);
    MailHandled(hostname, from, input, a);
    LineReads(MAIL_KEYWORD, hostname, input);
    MailFromSays(from, line, a);
    MailFromLine(hostname, from, input, a, line, MailFrom(from, line, a));
  }

  lemma MailHandled(hostname: string, from: State, input: string, a: Answers)
    requires (from.Helo? || from.Ehlo?) && VerbOf(input) == Some(MAIL)
    ensures Handle(hostname, from, input, a) == MailFrom(from, ReadAddressLine(MAIL_KEYWORD, hostname, input), a)
  {
  }

  /** The same for the line as it was read. */
  predicate MailSays(from: State, line: AddressLine, a: Answers, e: Effect) {
    match line
    case Malformed => Says(e, "500", "Unrecognized command", from)
    case NoAddress => Says(e, "450", "Invalid host", from)
    case Parsed(sender) => SenderAnswered(from, sender, a, e)
  }

  lemma MailFromSays(from: State, line: AddressLine, a: Answers)
    requires Sending(a) && (from.Helo? || from.Ehlo?)
    requires line.Parsed? ==> line.address.isLocalMailbox.None?
    ensures MailSays(from, line, a, MailFrom(from, line, a))
  {
    var e := MailFrom(from, line, a);
    if line.Parsed? {
      MailAcceptedIff(from, line.address, a);
      OneReply(e, if e.next.Mail? then Okay else Unauthorized);
    } else {
      OneReply(e, if line.Malformed? then BadCommand else InvalidHost);
    }
  }

  lemma MailFromLine(hostname: string, from: State, input: string, a: Answers, line: AddressLine, e: Effect)
    requires MailSays(from, line, a, e)
    requires LineIs(MAIL_KEYWORD, hostname, input, line)
    ensures MailAnswered(hostname, from, input, a, e)
  {
    forall t, u | AddressLineFor(MAIL_KEYWORD, input, t) && AddressLineFor(MAIL_KEYWORD, input, u)
      ensures t == u
    {
      LineHasOneText(MAIL_KEYWORD, input, t, u);
    }
  }

  /** The recipients of a MAIL state are none. */
  function BaseOf(hostname: string, state: State): RcptState
    requires state.Mail? || state.Rcpt?
  {
    if state.Mail? then NoRecipients(hostname, state.mail) else state.rcpt
  }

  /**
   An RCPT line.  It is malformed, or its text is not an address, or the address is of another domain and there is no
   authorized user; else the address is put behind the recipients.
   */
  ghost predicate RcptAnswered(hostname: string, state: State, input: string, e: Effect)
    requires state.Mail? || state.Rcpt?
  {
    && ((forall t :: !AddressLineFor(RCPT_KEYWORD, input, t)) ==> Says(e, "500", "Unrecognized command", state))
    && forall t | AddressLineFor(RCPT_KEYWORD, input, t) ::
         if multiset(t)['@'] != 1 then Says(e, "450", "Invalid mailbox", state)
         else exists address :: AddressFor(hostname, t, address) && RecipientAnswered(hostname, state, address, e)
  }

  predicate RecipientAnswered(hostname: string, state: State, address: MailAddress, e: Effect)
    requires state.Mail? || state.Rcpt?
  {
    var base := BaseOf(hostname, state);
    if address.domain != hostname && base.authorized.None?
    then Says(e, "530", "5.7.0 Authentication required", state)
    else Says(e, "250", "OK", Rcpt(base.(recipients := base.recipients + [address])))
  }

  lemma RcptReads(hostname: string, state: State, input: string, a: Answers)
    requires Sending(a) && (state.Mail? || state.Rcpt?) && IsVerb(input, RCPT)
    requires state.Rcpt? ==> state.rcpt.hostname == hostname
    ensures RcptAnswered(hostname, state, input, Handle(hostname, state, input, a))
  {
    VerbRead(input);
    var line := ReadAddressLine(RCPT_KEYWORD, hostname, input);
    RcptHandled(hostname, state, input, a);
    LineReads(RCPT_KEYWORD, hostname, input);
    AddRcptSays(hostname, state, line, a);
    AddRcptLine(hostname, state, input, line, AddRcpt(hostname, BaseOf(hostname, state), state, line, a));
  }

  lemma RcptHandled(hostname: string, state: State, input: string, a: Answers)
    requires (state.Mail? || state.Rcpt?) && VerbOf(input) == Some(RCPT)
    requires state.Rcpt? ==> state.rcpt.hostname == hostname
    ensures Handle(hostname, state, input, a)
            == AddRcpt(hostname, BaseOf(hostname, state), state, ReadAddressLine(RCPT_KEYWORD, hostname, input), a)
  {
  }

  predicate RcptSays(hostname: string, state: State, line: AddressLine, e: Effect)
    requires state.Mail? || state.Rcpt?
  {
    match line
    case Malformed => Says(e, "500", "Unrecognized command", state)
    case NoAddress => Says(e, "450", "Invalid mailbox", state)
    case Parsed(address) => RecipientAnswered(hostname, state, address, e)
  }

  lemma AddRcptSays(hostname: string, state: State, line: AddressLine, a: Answers)
    requires Sending(a) && (state.Mail? || state.Rcpt?)
    ensures RcptSays(hostname, state, line, AddRcpt(hostname, BaseOf(hostname, state), state, line, a))
  {
    var e := AddRcpt(hostname, BaseOf(hostname, state), state, line, a);
    RcptAcceptedIff(hostname, BaseOf(hostname, state), state, line, a);
    OneReply(e, match line
                case Malformed => BadCommand
                case NoAddress => InvalidMailbox
                case Parsed(_) => if e.next == state then Unauthorized else Okay);
  }

  lemma AddRcptLine(hostname: string, state: State, input: string, line: AddressLine, e: Effect)
    requires (state.Mail? || state.Rcpt?) && RcptSays(hostname, state, line, e)
    requires LineIs(RCPT_KEYWORD, hostname, input, line)
    ensures RcptAnswered(hostname, state, input, e)
  {
    forall t, u | AddressLineFor(RCPT_KEYWORD, input, t) && AddressLineFor(RCPT_KEYWORD, input, u)
      ensures t == u
    {
      LineHasOneText(RCPT_KEYWORD, input, t, u);
    }
  }

  // ---------- DATA ----------

  lemma DataReads(hostname: string, r: RcptState, input: string, a: Answers)
    requires Sending(a) && IsVerb(input, DATA)
    ensures Says(Handle(hostname, Rcpt(r), input, a), "354", "start mail input",
                 Data(DataState(r.sender, r.isLocalSender, r.recipients, r.authorized, "", false)))
  {
    VerbRead(input);
    OneReply(Handle(hostname, Rcpt(r), input, a), StartInput);
  }

  /**
   A piece of a body.  Without an end in it there is no reply; a complete body is refused for a stray dot line; else the
   mail is taken, unless a lookup or a store fails for a local recipient.
   */
  ghost predicate BodyAnswered(hostname: string, d: DataState, input: string, a: Answers, e: Effect) {
    var body := d.mailBody + input;
    if !ContainsMailEnd(input) then e.replies == [] && e.next == Data(d.(mailBody := body))
    else if HasStrayDot(Lines(body)) then
      Says(e, "500", "Syntax error: <CR><LF>.<CR><LF> at unexpected position",
           Data(d.(mailBody := "", bodyFinished := true)))
    else if Trouble(a, |LocalOf(d.recipients)|) then
      Says(e, "450", "Requested mail action not taken: mailbox unavailable",
           Rcpt(RcptState(hostname, d.sender, d.isLocalSender, d.recipients, d.authorized)))
    else Says(e, "250", "OK", DataComplete)
  }

  lemma BodyReads(hostname: string, d: DataState, input: string, a: Answers)
    requires Sending(a)
    ensures BodyAnswered(hostname, d, input, a, Handle(hostname, Data(d), input, a))
  {
    PieceReads(d, input, a);
    BodyHandled(hostname, d, input, a);
    PieceSays(hostname, d, input, a, ReadBody(d, input, a), Handle(hostname, Data(d), input, a));
  }

  /** What a piece amounts to, told from the lines of the body. */
  ghost predicate PieceIs(d: DataState, input: string, a: Answers, piece: BodyPiece) {
    var body := d.mailBody + input;
    match piece
    case MoreText(text) => !ContainsMailEnd(input) && text == body
    case Rejected(error) =>
      ContainsMailEnd(input) && HasStrayDot(Lines(body)) && error == MailEndAtUnexpectedPosition
    case Finished(h) =>
      && ContainsMailEnd(input) && !HasStrayDot(Lines(body))
      && (h.result.Failure? <==> Trouble(a, |LocalOf(d.recipients)|))
  }

  lemma PieceReads(d: DataState, input: string, a: Answers)
    ensures PieceIs(d, input, a, ReadBody(d, input, a))
  {
    var body := d.mailBody + input;
    RefusedIff(body);
    OnlyThatError(body);
    if Decoded(body).Success? {
      FailsIffTrouble(Envelope(d.sender, d.recipients, Decoded(body).value), a);
    }
  }

  /** How a piece is answered. */
  predicate PieceEffect(hostname: string, d: DataState, piece: BodyPiece, e: Effect) {
    && e.ioOk
    && match piece
       case MoreText(body) => e.replies == [] && e.next == Data(d.(mailBody := body))
       case Rejected(error) =>
         e.replies == [SyntaxReply(error)] && e.next == Data(d.(mailBody := "", bodyFinished := true))
       case Finished(h) =>
         if h.result.Success? then e.replies == [Okay] && e.next == DataComplete
         else e.replies == [MailboxUnavailable] && e.next == Rcpt(Rollback(hostname, d))
  }

  lemma PieceSays(hostname: string, d: DataState, input: string, a: Answers, piece: BodyPiece, e: Effect)
    requires PieceIs(d, input, a, piece) && PieceEffect(hostname, d, piece, e)
    ensures BodyAnswered(hostname, d, input, a, e)
  {
    match piece
    case MoreText(_) =>
    case Rejected(_) => EndSays(e);
    case Finished(h) =>
      if h.result.Success? {
        OneReply(e, Okay);
      } else {
        UnavailableSays(e);
      }
  }

  lemma EndSays(e: Effect)
    requires e.ioOk && JustSaid(e.replies, UnexpectedEnd)
    ensures Says(e, "500", "Syntax error: <CR><LF>.<CR><LF> at unexpected position", e.next)
  {
    OneReply(e, UnexpectedEnd);
  }

  lemma UnavailableSays(e: Effect)
    requires e.ioOk && JustSaid(e.replies, MailboxUnavailable)
    ensures Says(e, "450", "Requested mail action not taken: mailbox unavailable", e.next)
  {
    OneReply(e, MailboxUnavailable);
  }

  lemma OnlyThatError(body: string)
    ensures Decoded(body).Failure? ==> Decoded(body).error == MailEndAtUnexpectedPosition
  {
  }

  lemma BodyHandled(hostname: string, d: DataState, input: string, a: Answers)
    requires Sending(a)
    ensures PieceEffect(hostname, d, ReadBody(d, input, a), Handle(hostname, Data(d), input, a))
  {
  }

  // ---------- the first digit ----------

  /** The exchange is an AUTH command or a step of one, and it succeeds. */
  ghost predicate Authenticates(hostname: string, state: State, before: seq<ValidateCall>, input: string, a: Answers) {
    if state.AuthStep? then
      a.saslStep.state == FinishedSilent && !NoneAccepted(hostname, before + a.saslStep.calls)
    else
      && state.Ehlo? && IsVerb(input, AUTH) && KnownMechanism(a) && Names(a, "PLAIN") && a.authCommand.value.hasArgument
      && a.saslStart.first.state == FinishedSilent && !NoneAccepted(hostname, a.saslStart.first.calls)
  }

  /** The session got on: a new phase, one recipient more, an accepted login, a complete mail, or its end. */
  ghost predicate GotOn(hostname: string, state: State, before: seq<ValidateCall>, input: string, a: Answers,
                        next: State) {
    match state
    case Init => next.Helo? || next.Ehlo?
    case Helo => next.Mail?
    case Ehlo(_) => next.Mail? || Authenticates(hostname, state, before, input, a)
    case AuthStep(_, _) => Authenticates(hostname, state, before, input, a)
    case Mail(_) => next.Rcpt?
    case Rcpt(r) => next.Rcpt? && |next.rcpt.recipients| > |r.recipients|
    case Data(_) => next.DataComplete?
    case DataComplete => next.Quit?
    case _ => false
  }

  /** The client is to go on: with the body, or with the authentication. */
  predicate Invites(state: State, next: State) {
    next.AuthStep? || (state.Rcpt? && next.Data?)
  }

  /** `2` means that the session got on, `3` that the client is to go on, and `4` or `5` that neither is so. */
  predicate DigitIs(text: string, gotOn: bool, invites: bool) {
    text != "" ==>
      if gotOn then text[0] == '2' && !invites
      else if invites then text[0] == '3'
      else text[0] == '4' || text[0] == '5'
  }

  lemma SaysDigit(e: Effect, code: string, text: string, next: State)
    requires Says(e, code, text, next) && code != ""
    ensures WireAll(e.replies) != "" && WireAll(e.replies)[0] == code[0]
  {
  }

  /** What the first digit of what the client reads means, for every input in a reachable state. */
  lemma FirstDigit(hostname: string, turns: seq<Turn>, input: string, a: Answers)
    requires WorkingIO(a)
    ensures var s := Run(Start(hostname), turns).0;
            var e := Handle(s.hostname, s.state, input, a);
            DigitIs(WireAll(e.replies),
                    GotOn(s.hostname, s.state, OpenCalls(hostname, turns), input, a, e.next), Invites(s.state, e.next))
  {
    var s := Run(Start(hostname), turns).0;
    var calls := OpenCalls(hostname, turns);
    RunRelaySafe(Start(hostname), turns);
    ReachableStepOutcome(hostname, turns, input, a);
    VerbRead(input);
    if !Expected(s.state, VerbOf(input)) {
      DigitCutOff(s.hostname, s.state, calls, input, a);
    } else if s.state.AuthStep? {
      DigitStep(s.hostname, s.state.auth, s.state.fromState, calls, input, a);
    } else if s.state.Ehlo? && IsVerb(input, AUTH) {
      DigitCommand(s.hostname, s.state.ehlo, calls, input, a);
    } else if s.state.Init? || s.state.DataComplete? {
      DigitEnds(s.hostname, s.state, calls, input, a);
    } else if s.state.Helo? || s.state.Ehlo? {
      DigitMail(s.hostname, s.state, calls, input, a);
    } else if s.state.Data? {
      DigitBody(s.hostname, s.state.data, calls, input, a);
    } else {
      DigitRcpt(s.hostname, s.state, calls, input, a);
    }
  }

  ghost predicate Digit(hostname: string, state: State, calls: seq<ValidateCall>, input: string, a: Answers) {
    var e := Handle(hostname, state, input, a);
    DigitIs(WireAll(e.replies), GotOn(hostname, state, calls, input, a, e.next), Invites(state, e.next))
  }

  lemma DigitCutOff(hostname: string, state: State, calls: seq<ValidateCall>, input: string, a: Answers)
    requires Sending(a) && !Expected(state, VerbOf(input))
    ensures Digit(hostname, state, calls, input, a)
  {
    VerbRead(input);
    CutOffReads(hostname, state, input, a);
    CutOffDigit(Handle(hostname, state, input, a), input);
  }

  lemma CutOffDigit(e: Effect, input: string)
    requires CutOff(e, input)
    ensures WireAll(e.replies) != "" && WireAll(e.replies)[0] == '5' && e.next == Cancelled
  {
    SaysDigit(e, if NoVerb(input) then "500" else "503",
              if NoVerb(input) then "Unrecognized command" else "Bad sequence", Cancelled);
  }

  lemma DigitEnds(hostname: string, state: State, calls: seq<ValidateCall>, input: string, a: Answers)
    requires Sending(a) && Expected(state, VerbOf(input)) && (state.Init? || state.DataComplete?)
    ensures Digit(hostname, state, calls, input, a)
  {
    if state.Init? {
      GreetingReads(hostname, input, a);
    } else {
      FarewellReads(hostname, input, a);
      SaysDigit(Handle(hostname, state, input, a), "221", "closing channel", Quit);
    }
  }

  lemma DigitMail(hostname: string, from: State, calls: seq<ValidateCall>, input: string, a: Answers)
    requires Sending(a) && (from.Helo? || from.Ehlo?) && IsVerb(input, MAIL)
    ensures Digit(hostname, from, calls, input, a)
  {
    VerbRead(input);
    MailReads(hostname, from, input, a);
    MailDigit(hostname, from, input, a, Handle(hostname, from, input, a));
  }

  lemma MailDigit(hostname: string, from: State, input: string, a: Answers, e: Effect)
    requires (from.Helo? || from.Ehlo?) && MailAnswered(hostname, from, input, a, e)
    ensures DigitIs(WireAll(e.replies), e.next.Mail?, false) && !e.next.AuthStep? && !e.next.Data?
  {
    if t :| AddressLineFor(MAIL_KEYWORD, input, t) {
      if multiset(t)['@'] != 1 {
        SaysDigit(e, "450", "Invalid host", from);
      } else {
        var sender :| AddressFor(hostname, t, sender) && SenderAnswered(from, sender, a, e);
        SenderDigit(from, sender, a, e);
      }
    } else {
      SaysDigit(e, "500", "Unrecognized command", from);
    }
  }

  lemma SenderDigit(from: State, sender: MailAddress, a: Answers, e: Effect)
    requires (from.Helo? || from.Ehlo?) && SenderAnswered(from, sender, a, e)
    ensures WireAll(e.replies) != "" && (e.next == from || e.next.Mail?)
    ensures WireAll(e.replies)[0] == if e.next == from then '5' else '2'
  {
    if Says(e, "530", "5.7.0 Authentication required", from) {
      SaysDigit(e, "530", "5.7.0 Authentication required", from);
    } else {
      SaysDigit(e, "250", "OK", e.next);
    }
  }

  lemma DigitRcpt(hostname: string, state: State, calls: seq<ValidateCall>, input: string, a: Answers)
    requires Sending(a) && Expected(state, VerbOf(input)) && (state.Mail? || state.Rcpt?)
    requires state.Rcpt? ==> state.rcpt.hostname == hostname
    ensures Digit(hostname, state, calls, input, a)
  {
    if IsVerb(input, RCPT) {
      RcptReads(hostname, state, input, a);
      RcptDigit(hostname, state, input, Handle(hostname, state, input, a));
    } else {
      VerbRead(input);
      DataReads(hostname, state.rcpt, input, a);
      DataDigit(Handle(hostname, state, input, a), state.rcpt);
    }
  }

  lemma DataDigit(e: Effect, r: RcptState)
    requires Says(e, "354", "start mail input", Data(NewData(r)))
    ensures WireAll(e.replies) != "" && WireAll(e.replies)[0] == '3' && e.next.Data?
  {
    SaysDigit(e, "354", "start mail input", Data(NewData(r)));
  }

  lemma RcptDigit(hostname: string, state: State, input: string, e: Effect)
    requires (state.Mail? || state.Rcpt?) && RcptAnswered(hostname, state, input, e)
    ensures DigitIs(WireAll(e.replies),
                    e.next.Rcpt? && |e.next.rcpt.recipients| > |BaseOf(hostname, state).recipients|, false)
    ensures e.next == state || (e.next.Rcpt? && |e.next.rcpt.recipients| > |BaseOf(hostname, state).recipients|)
  {
    if t :| AddressLineFor(RCPT_KEYWORD, input, t) {
      if multiset(t)['@'] != 1 {
        SaysDigit(e, "450", "Invalid mailbox", state);
      } else {
        var address :| AddressFor(hostname, t, address) && RecipientAnswered(hostname, state, address, e);
        RecipientDigit(hostname, state, address, e);
      }
    } else {
      SaysDigit(e, "500", "Unrecognized command", state);
    }
  }

  lemma RecipientDigit(hostname: string, state: State, address: MailAddress, e: Effect)
    requires (state.Mail? || state.Rcpt?) && RecipientAnswered(hostname, state, address, e)
    ensures var more := e.next.Rcpt? && |e.next.rcpt.recipients| > |BaseOf(hostname, state).recipients|;
            && WireAll(e.replies) != "" && WireAll(e.replies)[0] == (if more then '2' else '5')
            && (more || e.next == state)
  {
    if Says(e, "530", "5.7.0 Authentication required", state) {
      SaysDigit(e, "530", "5.7.0 Authentication required", state);
    } else {
      SaysDigit(e, "250", "OK", e.next);
    }
  }

  lemma DigitBody(hostname: string, d: DataState, calls: seq<ValidateCall>, input: string, a: Answers)
    requires Sending(a)
    ensures Digit(hostname, Data(d), calls, input, a)
  {
    BodyReads(hostname, d, input, a);
    BodyDigit(hostname, d, input, a, Handle(hostname, Data(d), input, a));
  }

  lemma BodyDigit(hostname: string, d: DataState, input: string, a: Answers, e: Effect)
    requires BodyAnswered(hostname, d, input, a, e)
    ensures DigitIs(WireAll(e.replies), e.next.DataComplete?, false) && !e.next.AuthStep?
  {
  }

  lemma DigitStep(hostname: string, auth: AuthView, from: EhloState, calls: seq<ValidateCall>, input: string,
                  a: Answers)
    requires StepEnds(hostname, from, a.saslStep, calls + a.saslStep.calls,
                      Handle(hostname, AuthStep(auth, from), input, a))
    ensures Digit(hostname, AuthStep(auth, from), calls, input, a)
  {
    StepDigit(hostname, from, a.saslStep, calls + a.saslStep.calls, Handle(hostname, AuthStep(auth, from), input, a));
  }

  lemma StepDigit(hostname: string, from: EhloState, ans: SaslAnswer, calls: seq<ValidateCall>, e: Effect)
    requires StepEnds(hostname, from, ans, calls, e)
    ensures DigitIs(WireAll(e.replies), ans.state == FinishedSilent && !NoneAccepted(hostname, calls), e.next.AuthStep?)
    ensures !e.next.Mail? && !e.next.Data?
  {
  }

  lemma DigitCommand(hostname: string, from: EhloState, calls: seq<ValidateCall>, input: string, a: Answers)
    requires WorkingIO(a) && IsVerb(input, AUTH)
    ensures Digit(hostname, Ehlo(from), calls, input, a)
  {
    VerbRead(input);
    var e := Handle(hostname, Ehlo(from), input, a);
    CommandOutcome(hostname, from, input, a);
    NotBothMechanisms(a);
    if KnownMechanism(a) && Names(a, "PLAIN") && a.authCommand.value.hasArgument {
      StepDigit(hostname, from, a.saslStart.first, a.saslStart.first.calls, e);
    } else {
      CommandDigit(hostname, from, a, e);
    }
  }

  lemma NotBothMechanisms(a: Answers)
    ensures !(Names(a, "PLAIN") && Names(a, "LOGIN"))
  {
    if a.authCommand.Some? {
      NamesIff(a);
    }
  }

  lemma CommandDigit(hostname: string, from: EhloState, a: Answers, e: Effect)
    requires CommandEnds(hostname, from, a, e) && !(Names(a, "PLAIN") && Names(a, "LOGIN"))
    requires !(KnownMechanism(a) && Names(a, "PLAIN") && a.authCommand.value.hasArgument)
    ensures DigitIs(WireAll(e.replies), false, e.next.AuthStep?) && !e.next.Mail?
  {
  }

  // ---------- inputs ----------

  /** A MAIL or RCPT line is one whatever the case of its keyword. */
  lemma LineInAnyCase(v: CommandVerb, keyword: string, spelling: string, t: string)
    requires (v == MAIL && keyword == "MAIL FROM:<") || (v == RCPT && keyword == "RCPT TO:<")
    requires SameUpToCase(spelling, keyword) && t != "" && '>' !in t
    ensures var input := spelling + t + ">\r\n";
            IsVerb(input, v) && AddressLineFor(if v == MAIL then MAIL_KEYWORD else RCPT_KEYWORD, input, t)
  {
    var input := spelling + t + ADDRESS_END;
    var word, rest := spelling[..4], spelling[4..] + t + ADDRESS_END;
    KeywordWord(v, keyword, spelling);
    assert rest[0] == spelling[4];
    assert " " <= rest;
    Assoc(word, spelling[4..], t);
    Assoc(word, spelling[4..] + t, ADDRESS_END);
    assert input == word + rest;
    FirstWordIs(word, rest);
    Assoc(spelling, t, ADDRESS_END);
    assert input[..|spelling|] == spelling && input[|spelling|..] == t + ADDRESS_END;
  }

  lemma KeywordWord(v: CommandVerb, keyword: string, spelling: string)
    requires (v == MAIL && keyword == "MAIL FROM:<") || (v == RCPT && keyword == "RCPT TO:<")
    requires SameUpToCase(spelling, keyword)
    ensures var word := spelling[..4];
            && spelling[4] == ' ' && SameUpToCase(word, NameOf(v))
            && |word| == 4 && !IsSpace(word[0]) && !IsSpace(word[3]) && ' ' !in word
  {
    var word := spelling[..4];
    assert SameLetter(spelling[4], keyword[4]);
    assert forall i | 0 <= i < 4 :: word[i] == spelling[i] && keyword[i] == NameOf(v)[i];
    assert forall i | 0 <= i < 4 :: SameLetter(spelling[i], keyword[i]);
    assert forall i | 0 <= i < 4 :: word[i] != ' ' && !IsSpace(word[i]);
  }

  /** A MAIL line after EHLO that is not all capitals. */
  lemma MixedMail(a: Answers)
    requires Sending(a) && !a.isLocal(0)
    ensures var e := Handle("b", Ehlo(EhloState(None)), "MAIL From:<" + "u@c" + ">\r\n", a);
            e.next.Mail? && e.next.mail.sender.address == "u@c" && WireAll(e.replies) == "250" + " " + "OK" + "\r\n"
  {
    var input := "MAIL From:<" + "u@c" + ">\r\n";
    LineInAnyCase(MAIL, "MAIL FROM:<", "MAIL From:<", "u@c");
    MailReads("b", Ehlo(EhloState(None)), input, a);
    SenderTaken(input, a, Handle("b", Ehlo(EhloState(None)), input, a));
  }

  lemma SenderTaken(input: string, a: Answers, e: Effect)
    requires AddressLineFor(MAIL_KEYWORD, input, "u@c") && !a.isLocal(0)
    requires MailAnswered("b", Ehlo(EhloState(None)), input, a, e)
    ensures e.next.Mail? && e.next.mail.sender.address == "u@c" && WireAll(e.replies) == "250" + " " + "OK" + "\r\n"
  {
    assert multiset("u@c")['@'] == 1;
  }

  /** An RCPT line in small letters, for the server's own domain. */
  lemma SmallRcpt(m: MailFromState, a: Answers)
    requires Sending(a)
    ensures var e := Handle("b", Mail(m), "rcpt to:<" + "w@b" + ">\r\n", a);
            && e.next.Rcpt? && AddressTexts(e.next.rcpt.recipients) == ["w@b"]
            && WireAll(e.replies) == "250" + " " + "OK" + "\r\n"
  {
    var input := "rcpt to:<" + "w@b" + ">\r\n";
    LineInAnyCase(RCPT, "RCPT TO:<", "rcpt to:<", "w@b");
    RcptReads("b", Mail(m), input, a);
    RecipientTaken(m, input, Handle("b", Mail(m), input, a));
  }

  lemma RecipientTaken(m: MailFromState, input: string, e: Effect)
    requires AddressLineFor(RCPT_KEYWORD, input, "w@b") && RcptAnswered("b", Mail(m), input, e)
    ensures e.next.Rcpt? && AddressTexts(e.next.rcpt.recipients) == ["w@b"]
    ensures WireAll(e.replies) == "250" + " " + "OK" + "\r\n"
  {
    assert multiset("w@b")['@'] == 1;
    var address :| AddressFor("b", "w@b", address) && RecipientAnswered("b", Mail(m), address, e);
    DomainIsB(address);
    OneTaken(m, address, e);
  }

  lemma DomainIsB(address: MailAddress)
    requires AddressFor("b", "w@b", address)
    ensures address.domain == "b"
  {
    var t, n := "w@b", |address.localPart|;
    assert t[n] == '@';
    assert n == 1;
    assert t[2..] == address.domain;
  }

  lemma OneTaken(m: MailFromState, address: MailAddress, e: Effect)
    requires address.domain == "b" && RecipientAnswered("b", Mail(m), address, e)
    ensures e.next.Rcpt? && AddressTexts(e.next.rcpt.recipients) == [address.address]
    ensures WireAll(e.replies) == "250" + " " + "OK" + "\r\n"
  {
    assert [] + [address] == [address];
  }

  /** HELO in small letters. */
  lemma SmallHelo(a: Answers)
    requires Sending(a)
    ensures Says(Handle("b", Init, "helo" + " test.org\r\n", a), "250", "OK", Helo)
  {
    FirstWordIs("helo", " test.org\r\n");
    GreetingReads("b", "helo" + " test.org\r\n", a);
  }
}
