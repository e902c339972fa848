/**
 One SMTP session as a state machine: what `SmtpServer::handle` (src/smtp/server.rs) does to a session for
 one input, given what the outside world answers during that call.
 */
module Protocol {
  import opened Wrappers
  import opened Text
  import opened Transparency
  import opened Addresses
  import opened Commands
  import opened Sasl
  import opened Delivery

  // ---------- replies ----------

  /** A reply of one line. */
  function ReplyLine(code: string, text: string): string {
    code + " " + text + CRLF
  }

  datatype Reply =
    | Okay
    | EhloOkay(hostname: string)
    | StartInput
    | Closing
    | AuthSuccessful
    | AuthBadMechanism
    | AuthUnauthorized
    | Challenge(text: string)
    | InvalidMailbox
    | InvalidHost
    | MailboxUnavailable
    | BadCommand
    | Unauthorized
    | NoNewlineEnd
    | UnexpectedEnd
    | BadSequence
  {
    /** The text sent to the client. */
    function Wire(): string {
      match this
      case Okay => ReplyLine("250", "OK")
      case EhloOkay(h) => "250-" + h + CRLF + ReplyLine("250", "AUTH PLAIN LOGIN")
      case StartInput => ReplyLine("354", "start mail input")
      case Closing => ReplyLine("221", "closing channel")
      case AuthSuccessful => ReplyLine("235", "2.7.0 Authentication successful")
      case AuthBadMechanism => ReplyLine("535", "5.7.8 Invalid authentication mechanism")
      case AuthUnauthorized => ReplyLine("535", "5.7.8 Unauthorized")
      case Challenge(text) => ReplyLine("334", text)
      case InvalidMailbox => ReplyLine("450", "Invalid mailbox")
      case InvalidHost => ReplyLine("450", "Invalid host")
      case MailboxUnavailable => ReplyLine("450", "Requested mail action not taken: mailbox unavailable")
      case BadCommand => ReplyLine("500", "Unrecognized command")
      case Unauthorized => ReplyLine("530", "5.7.0 Authentication required")
      case NoNewlineEnd => ReplyLine("500", "Syntax error: Invalid mail body terminator: <CR><LF>.")
      case UnexpectedEnd => ReplyLine("500", "Syntax error: <CR><LF>.<CR><LF> at unexpected position")
      case BadSequence => ReplyLine("503", "Bad sequence")
    }
  }

  /** What the client reads when these replies were sent. */
  function WireAll(replies: seq<Reply>): string {
    if replies == [] then "" else replies[0].Wire() + WireAll(replies[1..])
  }

  lemma WireOfOne(r: Reply)
    ensures WireAll([r]) == r.Wire()
  {
    assert [r][1..] == [];
    assert r.Wire() + "" == r.Wire();
  }

  /** Exactly the one reply `r` was sent. */
  predicate JustSaid(replies: seq<Reply>, r: Reply) {
    |replies| == 1 && replies[0] == r
  }

  // ---------- states ----------

  datatype EhloState = EhloState(authorized: Option<User>)
  datatype MailFromState = MailFromState(sender: MailAddress, isLocalSender: bool, authorized: Option<User>)
  datatype RcptState = RcptState(
    hostname: string,
    sender: MailAddress,
    isLocalSender: bool,
    recipients: seq<MailAddress>,
    authorized: Option<User>)
  datatype DataState = DataState(
    sender: MailAddress,
    isLocalSender: bool,
    recipients: seq<MailAddress>,
    authorized: Option<User>,
    mailBody: string,
    bodyFinished: bool)

  /** `A` stands for the SASL wrapper: the object itself in the server, its view here. */
  datatype SmtpState<+A> =
    | Init
    | Helo
    | Ehlo(ehlo: EhloState)
    | AuthStep(auth: A, fromState: EhloState)
    | Mail(mail: MailFromState)
    | Rcpt(rcpt: RcptState)
    | Data(data: DataState)
    | DataComplete
    | Quit
    | Cancelled

  type State = SmtpState<AuthView>

  // ---------- the outside world ----------

  datatype AuthCommand = AuthCommand(mech: string, hasArgument: bool)

  /** Everything the outside world answers while one input is handled. */
  datatype Answers = Answers(
    /** Whether the i-th send succeeds. */
    sendOk: nat -> bool,
    /** The user database's i-th verdict on whether an address is a local mailbox. */
    isLocal: nat -> bool,
    /** The answer to the i-th mailbox lookup. */
    mailboxHome: nat -> Option<string>,
    /** Whether the i-th store succeeds. */
    storeOk: nat -> bool,
    /** What the AUTH pattern captures from the input. */
    authCommand: Option<AuthCommand>,
    /** How the SASL library reacts to a proposed mechanism. */
    saslStart: SaslStart,
    /** How the SASL library reacts to a client message. */
    saslStep: SaslAnswer)

  /** Every send succeeds. */
  ghost predicate Sending(a: Answers) {
    forall i: nat :: a.sendOk(i)
  }

  /** And the SASL library wrote nothing when it says it finished without sending. */
  ghost predicate WorkingIO(a: Answers) {
    Sending(a) && (a.saslStart.first.state == FinishedSilent ==> a.saslStart.first.writes == [])
  }

  /**
   The effect of one call.  When a send fails the call returns the I/O error and the session object is
   gone; the model then leaves `next` at Cancelled, with `ioOk` false.
   */
  datatype Effect = Effect(
    next: State,
    replies: seq<Reply>,
    stored: seq<Stored>,
    queued: seq<QueueAdd>,
    logins: seq<Login>,
    ioOk: bool)

  /** Send `r` after the replies `before`, then be in `next`; or fail. */
  function Say(a: Answers, before: seq<Reply>, r: Reply, next: State): Effect {
    if a.sendOk(|before|) then Effect(next, before + [r], [], [], [], true)
    else Effect(Cancelled, before, [], [], [], false)
  }

  // ---------- AUTH ----------

  datatype AuthResult<+A> =
    | Unfinished(auth: A, fromState: EhloState)
    | Authorized(fromState: EhloState, user: User)
    | BadMechanism(fromState: EhloState)
    | BadCredentials(fromState: EhloState)

  /** `AuthResult::respond` followed by `transition_auth_result`. */
  function Conclude(a: Answers, before: seq<Reply>, r: AuthResult<AuthView>): Effect {
    match r
    case Unfinished(auth, from) => Effect(AuthStep(auth, from), before, [], [], [], true)
    case Authorized(_, user) => Say(a, before, AuthSuccessful, Ehlo(EhloState(Some(user))))
    case BadMechanism(from) => Say(a, before, AuthBadMechanism, Ehlo(from))
    case BadCredentials(from) => Say(a, before, AuthUnauthorized, Ehlo(from))
  }

  /** The replies once the write buffer was flushed, if the send did not fail. */
  function Flushed(a: Answers, buf: Option<string>): Option<seq<Reply>> {
    match buf
    case None => Some([])
    case Some(text) => if a.sendOk(0) then Some([Challenge(text)]) else None
  }

  function Lost(): Effect { Effect(Cancelled, [], [], [], [], false) }

  /** The end of `init_sasl`: what the library wrote is sent, and the exchange goes on unless it is over already. */
  function OpenSasl(ehlo: EhloState, auth: AuthView, a: Answers): Effect {
    match Flushed(a, auth.writeBuf)
    case None => Lost()
    case Some(sent) =>
      match AuthorizedUser(auth)
      case Success(Some(user)) => Conclude(a, sent, AuthResult.Authorized(ehlo, user))
      case Success(None) => Conclude(a, sent, BadCredentials(ehlo))
      case Failure(_) => Conclude(a, sent, Unfinished(auth.(writeBuf := None), ehlo))
  }

  /** `init_sasl` from the mechanism on. */
  function StartSasl(hostname: string, ehlo: EhloState, mech: string, hasArgument: bool, a: Answers): Effect {
    var e :=
      match NewAuth(hostname, mech, hasArgument, a.saslStart)
      case Failure(InvalidMechanism) => Conclude(a, [], BadMechanism(ehlo))
      case Failure(AuthUnsuccessful) => Conclude(a, [], BadCredentials(ehlo))
      case Success(auth) => OpenSasl(ehlo, auth, a);
    e.(logins := NewAuthLogins(hostname, mech, hasArgument, a.saslStart))
  }

  /** `AuthState::init_sasl`. */
  function InitSasl(hostname: string, ehlo: EhloState, a: Answers): Effect {
    match a.authCommand
    case None => Conclude(a, [], BadMechanism(ehlo))
    case Some(cmd) => StartSasl(hostname, ehlo, Upper(cmd.mech), cmd.hasArgument, a)
  }

  /** `AuthState::handle_auth_step`. */
  function HandleAuthStep(hostname: string, auth: AuthView, from: EhloState, a: Answers): Effect {
    var (stepped, r) := StepAuth(hostname, auth, a.saslStep);
    var e :=
      match r
      case Success(None) =>
        (match Flushed(a, stepped.writeBuf)
         case None => Lost()
         case Some(sent) => Conclude(a, sent, Unfinished(stepped.(writeBuf := None), from)))
      case Success(Some(user)) => Conclude(a, [], AuthResult.Authorized(from, user))
      case Failure(_) => Conclude(a, [], BadCredentials(from));
    e.(logins := Logins(hostname, a.saslStep.calls))
  }

  // ---------- MAIL and RCPT ----------

  /** `MailFromState::has_permission`, with the sender's cache filled. */
  function SenderPermission(authorized: Option<User>, sender: MailAddress, answer: bool): (MailAddress, bool) {
    var (asked, local) := CachedIsLocal(sender, answer);
    (asked, local ==> authorized.Some? && authorized.value.identity == asked.address)
  }

  /** The end of `mail_from`, once the sender may be used; `k` verdicts were already asked for. */
  function AcceptSender(sender: MailAddress, authorized: Option<User>, a: Answers, k: nat): Effect {
    var (asked, local) := CachedIsLocal(sender, a.isLocal(k));
    Say(a, [], Okay, Mail(MailFromState(asked, local, authorized)))
  }

  /** What the address of a MAIL or RCPT line turns out to be. */
  datatype AddressLine = Malformed | NoAddress | Parsed(address: MailAddress)

  /** `parse_address_message_by_re` followed by `MailAddress::new`. */
  function ReadAddressLine(keyword: string, hostname: string, input: string): AddressLine {
    match ParseAddressMessage(keyword, input)
    case None => Malformed
    case Some(text) => match NewAddress(text, hostname) case None => NoAddress case Some(a) => Parsed(a)
  }

  /** `MailFromState::mail_from`; `from` is Helo or an Ehlo state. */
  function MailFrom(from: State, line: AddressLine, a: Answers): Effect {
    match line
    case Malformed => Say(a, [], BadCommand, from)
    case NoAddress => Say(a, [], InvalidHost, from)
    case Parsed(sender) =>
      if from.Ehlo? then
        var (asked, allowed) := SenderPermission(from.ehlo.authorized, sender, a.isLocal(0));
        if !allowed then Say(a, [], Unauthorized, from)
        else AcceptSender(asked, from.ehlo.authorized, a, 1)
      else AcceptSender(sender, None, a, 0)
  }

  datatype RcptError = RcptBadCommand | RcptInvalidMailbox | RcptUnauthorized

  function RcptErrorReply(e: RcptError): Reply {
    match e
    case RcptBadCommand => BadCommand
    case RcptInvalidMailbox => InvalidMailbox
    case RcptUnauthorized => Unauthorized
  }

  /** `RcptState::has_permission`. */
  predicate RecipientPermission(hostname: string, authorized: Option<User>, rcpt: MailAddress) {
    hostname == rcpt.domain || authorized.Some?
  }

  /** The recipient an RCPT line adds: `add_rcpt` up to the push. */
  function NewRecipient(hostname: string, rcpt: RcptState, line: AddressLine): Result<MailAddress, RcptError> {
    match line
    case Malformed => Failure(RcptBadCommand)
    case NoAddress => Failure(RcptInvalidMailbox)
    case Parsed(recipient) =>
      if RecipientPermission(hostname, rcpt.authorized, recipient) then Success(recipient)
      else Failure(RcptUnauthorized)
  }

  /** `RcptState::add_rcpt` with its error reply; on an error the session is in `back`. */
  function AddRcpt(hostname: string, rcpt: RcptState, back: State, line: AddressLine, a: Answers): Effect {
    match NewRecipient(hostname, rcpt, line)
    case Failure(e) => Say(a, [], RcptErrorReply(e), back)
    case Success(r) => Say(a, [], Okay, Rcpt(rcpt.(recipients := rcpt.recipients + [r])))
  }

  /** The recipient-less state `RcptState::new` starts from. */
  function NoRecipients(hostname: string, m: MailFromState): RcptState {
    RcptState(hostname, m.sender, m.isLocalSender, [], m.authorized)
  }

  // ---------- DATA ----------

  function NewData(r: RcptState): DataState {
    DataState(r.sender, r.isLocalSender, r.recipients, r.authorized, "", false)
  }

  /** `RcptState::from`: the state a failed delivery rolls back to. */
  function Rollback(hostname: string, d: DataState): RcptState {
    RcptState(hostname, d.sender, d.isLocalSender, d.recipients, d.authorized)
  }

  function SyntaxReply(e: TransparencySyntaxError): Reply {
    match e
    case NoNewlineMailEnd => NoNewlineEnd
    case MailEndAtUnexpectedPosition => UnexpectedEnd
  }

  /** A mailbox lookup or a store fails for one of the first `n` local recipients. */
  ghost predicate Trouble(a: Answers, n: nat) {
    exists i: nat :: i < n && TroubleAt(a, i)
  }

  predicate TroubleAt(a: Answers, i: nat) {
    a.mailboxHome(i).None? || !a.storeOk(i)
  }

  lemma FailsIffTrouble(mail: Envelope, a: Answers)
    ensures DeliverMail(mail, a.mailboxHome, a.storeOk).result.Failure? <==> Trouble(a, |LocalOf(mail.recipients)|)
  {
    LocalDeliveryIsPrefix(mail, a.mailboxHome, a.storeOk);
    var n := |LocalOf(mail.recipients)|;
    if DeliverMail(mail, a.mailboxHome, a.storeOk).result.Failure? {
      var i :| 0 <= i < n && !(a.mailboxHome(i).Some? && a.storeOk(i));
      assert TroubleAt(a, i);
    }
    if i: nat :| i < n && TroubleAt(a, i) {
      assert !(a.mailboxHome(i).Some? && a.storeOk(i));
    }
  }

  /** What a piece of the body amounts to: more text, a rejected body, or a mail that was handed over. */
  datatype BodyPiece = MoreText(body: string) | Rejected(error: TransparencySyntaxError) | Finished(handed: Handed)

  /** What the complete body amounts to. */
  function WholeBody(d: DataState, body: string, a: Answers): BodyPiece {
    match Decoded(body)
    case Failure(e) => Rejected(e)
    case Success(text) => Finished(DeliverMail(Envelope(d.sender, d.recipients, text), a.mailboxHome, a.storeOk))
  }

  function ReadBody(d: DataState, input: string, a: Answers): BodyPiece {
    if ContainsMailEnd(input) then WholeBody(d, d.mailBody + input, a) else MoreText(d.mailBody + input)
  }

  /** `DataState::receive_data`. */
  function ReceiveData(hostname: string, d: DataState, piece: BodyPiece, a: Answers): Effect {
    match piece
    case MoreText(body) => Effect(Data(d.(mailBody := body)), [], [], [], [], true)
    case Rejected(e) => Say(a, [], SyntaxReply(e), Data(d.(mailBody := "", bodyFinished := true)))
    case Finished(handed) =>
      var e :=
        if handed.result.Success? then Say(a, [], Okay, DataComplete)
        else Say(a, [], MailboxUnavailable, Rcpt(Rollback(hostname, d)));
      e.(stored := handed.stored, queued := handed.queued)
  }

  // ---------- handle ----------

  /** All that is read from an input: its verb, its address, and its part in the body. */
  datatype Reading = Reading(verb: Option<CommandVerb>, line: AddressLine, piece: BodyPiece)

  function Read(hostname: string, state: State, input: string, a: Answers): Reading {
    var verb := VerbOf(input);
    Reading(
      verb,
      if verb == Some(RCPT)
      then ReadAddressLine(RCPT_KEYWORD, if state.Rcpt? then state.rcpt.hostname else hostname, input)
      else ReadAddressLine(MAIL_KEYWORD, hostname, input),
      if state.Data? then ReadBody(state.data, input, a) else MoreText(""))
  }

  /** The two last arms of `handle`. */
  function Refuse(verb: Option<CommandVerb>, a: Answers): Effect {
    Say(a, [], if verb.Some? then BadSequence else BadCommand, Cancelled)
  }

  /** The match of `SmtpServer::handle`. */
  function Dispatch(hostname: string, state: State, r: Reading, a: Answers): Effect {
    match state
    case Init =>
      if r.verb == Some(HELO) then Say(a, [], Okay, Helo)
      else if r.verb == Some(EHLO) then Say(a, [], EhloOkay(hostname), Ehlo(EhloState(None)))
      else Refuse(r.verb, a)
    case Ehlo(ehlo) =>
      if r.verb == Some(AUTH) then InitSasl(hostname, ehlo, a)
      else if r.verb == Some(MAIL) then MailFrom(state, r.line, a)
      else Refuse(r.verb, a)
    case AuthStep(auth, from) => HandleAuthStep(hostname, auth, from, a)
    case Helo => if r.verb == Some(MAIL) then MailFrom(state, r.line, a) else Refuse(r.verb, a)
    case Mail(mail) =>
      if r.verb == Some(RCPT) then AddRcpt(hostname, NoRecipients(hostname, mail), state, r.line, a)
      else Refuse(r.verb, a)
    case Rcpt(rcpt) =>
      if r.verb == Some(RCPT) then AddRcpt(hostname, rcpt, state, r.line, a)
      else if r.verb == Some(DATA) then Say(a, [], StartInput, Data(NewData(rcpt)))
      else Refuse(r.verb, a)
    case Data(data) => ReceiveData(hostname, data, r.piece, a)
    case DataComplete =>
      if r.verb == Some(QUIT) then Effect(Quit, if a.sendOk(0) then [Closing] else [], [], [], [], true)
      else Refuse(r.verb, a)
    case Quit => Refuse(r.verb, a)
    case Cancelled => Refuse(r.verb, a)
  }

  /** `SmtpServer::handle`. */
  function Handle(hostname: string, state: State, input: string, a: Answers): Effect {
    Dispatch(hostname, state, Read(hostname, state, input, a), a)
  }

  // ---------- runs ----------

  datatype Outcome = Continue | Stop | IoError

  datatype Exchange = Exchange(input: string, replies: seq<Reply>)

  /** A session with the record of all it did. */
  datatype Session = Session(
    hostname: string,
    state: State,
    log: seq<Exchange>,
    stored: seq<Stored>,
    queued: seq<QueueAdd>,
    logins: seq<Login>)

  function Start(hostname: string): Session {
    Session(hostname, Init, [], [], [], [])
  }

  function OutcomeOf(e: Effect): Outcome {
    if !e.ioOk then IoError else if e.next.Quit? || e.next.Cancelled? then Stop else Continue
  }

  function Apply(s: Session, input: string, e: Effect): Session {
    Session(s.hostname, e.next, s.log + [Exchange(input, e.replies)], s.stored + e.stored, s.queued + e.queued,
            s.logins + e.logins)
  }

  function Step(s: Session, input: string, a: Answers): Session {
    Apply(s, input, Handle(s.hostname, s.state, input, a))
  }

  datatype Turn = Turn(input: string, answers: Answers)

  /** `socket_loop`: inputs are handled until a call does not say to continue, or none is left. */
  function Run(s: Session, turns: seq<Turn>): (Session, Outcome)
    decreases |turns|
  {
    if turns == [] then (s, Continue)
    else
      var e := Handle(s.hostname, s.state, turns[0].input, turns[0].answers);
      var next := Apply(s, turns[0].input, e);
      if OutcomeOf(e) == Continue then Run(next, turns[1..]) else (next, OutcomeOf(e))
  }

  /** A run over `a` and `b` is a run over `a`, and if that goes on, over `b`. */
  lemma {:induction false} RunSplit(s: Session, a: seq<Turn>, b: seq<Turn>)
    ensures Run(s, a + b) == if Run(s, a).1 == Continue then Run(Run(s, a).0, b) else Run(s, a)
    decreases |a|
  {
    if a == [] {
      assert a + b == b;
    } else {
      assert (a + b)[0] == a[0] && (a + b)[1..] == a[1..] + b;
      var e := Handle(s.hostname, s.state, a[0].input, a[0].answers);
      if OutcomeOf(e) == Continue {
        RunSplit(Apply(s, a[0].input, e), a[1..], b);
      }
    }
  }

  /** One more turn at the end of a run that is still going on. */
  lemma RunSnoc(s: Session, turns: seq<Turn>, t: Turn)
    requires Run(s, turns).1 == Continue
    ensures var m := Run(s, turns).0;
            Run(s, turns + [t])
            == (Step(m, t.input, t.answers), OutcomeOf(Handle(m.hostname, m.state, t.input, t.answers)))
  {
    RunSplit(s, turns, [t]);
    RunOne(Run(s, turns).0, t);
  }

  lemma RunOne(s: Session, t: Turn)
    ensures Run(s, [t]) == (Step(s, t.input, t.answers), OutcomeOf(Handle(s.hostname, s.state, t.input, t.answers)))
  {
    var e := Handle(s.hostname, s.state, t.input, t.answers);
    assert [t][1..] == [];
    assert Run(Apply(s, t.input, e), []) == (Apply(s, t.input, e), Continue);
  }

  /** The last turn of a run was a step from where the others had led, or came too late. */
  lemma LastTurn(s: Session, turns: seq<Turn>)
    requires turns != []
    ensures var n := |turns| - 1;
            var (m, outcome) := Run(s, turns[..n]);
            if outcome == Continue
            then && Run(s, turns).0 == Step(m, turns[n].input, turns[n].answers)
                 && Run(s, turns).1 == OutcomeOf(Handle(m.hostname, m.state, turns[n].input, turns[n].answers))
            else Run(s, turns) == (m, outcome)
  {
    var n := |turns| - 1;
    assert turns == turns[..n] + [turns[n]];
    if Run(s, turns[..n]).1 == Continue {
      RunSnoc(s, turns[..n], turns[n]);
    } else {
      RunSplit(s, turns[..n], [turns[n]]);
    }
  }

  /** A run that is over stays over. */
  lemma StoppedStays(s: Session, turns: seq<Turn>, n: nat, j: nat)
    requires n <= j <= |turns| && Run(s, turns[..n]).1 != Continue
    ensures Run(s, turns[..j]).1 != Continue
  {
    assert turns[..j] == turns[..n] + turns[n..j];
    RunSplit(s, turns[..n], turns[n..j]);
  }

  /** What session `s` writes to its log for turn `t`. */
  function Logged(s: Session, t: Turn): Exchange {
    Exchange(t.input, Handle(s.hostname, s.state, t.input, t.answers).replies)
  }
}
