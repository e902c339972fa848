/** A whole session in which a mail is queued twice: authentication, a local and a remote recipient, a failing store. */
module RetryRun {
  import opened Wrappers
  import opened Text
  import opened DotStuffing
  import opened Addresses
  import opened Commands
  import opened Sasl
  import opened Delivery
  import opened Protocol
  import opened RelaySafety
  import opened Completion

  const HOST := "b"
  const SENDER := "u@b"
  const LOCAL := "v@b"
  const REMOTE := "w@c"

  function Credential(): ValidateCall {
    ValidateCall(Credentials(None, Some("u"), Some(Utf8("p"))), Success(true))
  }

  function TheUser(): User { User(HOST, "u", "u") }

  /** A world in which the login succeeds, everybody has a mailbox, and stores succeed or not. */
  function World(stores: bool): Answers {
    Answers(_ => true, _ => false, _ => Some("home"), _ => stores, Some(AuthCommand("PLAIN", true)),
            SaslStart(true, SaslAnswer(FinishedSilent, [], [Credential()])), SaslAnswer(Running, [], []))
  }

  function AuthTurn(): Turn { Turn("AUTH" + " PLAIN AHUAcA==\r\n", World(true)) }
  function EhloTurn(): Turn { Turn("EHLO " + "c" + CRLF, World(true)) }
  function MailTurn(): Turn { Turn(MAIL_KEYWORD + SENDER + ADDRESS_END, World(true)) }
  function RcptTurn(address: string): Turn { Turn(RCPT_KEYWORD + address + ADDRESS_END, World(true)) }
  function DataTurn(): Turn { Turn("DATA" + CRLF, World(true)) }
  function BodyTurn(stores: bool): Turn { Turn(Render(WireLines(["hi"])), World(stores)) }

  function LocalAddress(address: string, user: string): MailAddress {
    MailAddress(address, user, HOST, None, true)
  }

  function SenderHere(): MailAddress { LocalAddress(SENDER, "u").(isLocalMailbox := Some(false)) }
  function FirstRcpt(): MailAddress { LocalAddress(LOCAL, "v") }
  function SecondRcpt(): MailAddress { MailAddress(REMOTE, "w", "c", None, false) }

  function InMail(): MailFromState { MailFromState(SenderHere(), false, Some(TheUser())) }
  function WithRcpts(rs: seq<MailAddress>): RcptState { RcptState(HOST, SenderHere(), false, rs, Some(TheUser())) }

  /** Session `s` has come to `state` and queued nothing so far. */
  predicate At(s: Session, state: State) {
    s.hostname == HOST && s.state == state && s.queued == []
  }

  /** From `state` the turn leads to `next`, and queues nothing. */
  ghost predicate Leads(state: State, t: Turn, next: State) {
    var e := Handle(HOST, state, t.input, t.answers);
    e.next == next && e.queued == [] && OutcomeOf(e) == Continue
  }

  lemma Onward(turns: seq<Turn>, state: State, t: Turn, next: State)
    requires Run(Start(HOST), turns).1 == Continue && At(Run(Start(HOST), turns).0, state) && Leads(state, t, next)
    ensures Run(Start(HOST), turns + [t]).1 == Continue && At(Run(Start(HOST), turns + [t]).0, next)
  {
    RunSnoc(Start(HOST), turns, t);
  }

  // ---------- the steps ----------

  lemma EhloStep()
    ensures Leads(Init, EhloTurn(), Ehlo(EhloState(None)))
  {
    EhloLineVerb("c");
  }

  lemma LoginAccepted()
    ensures Logins(HOST, [Credential()]) == [Login.Login(Sasl.Authorized.Authorized(HOST, "u", "u"), "p")]
  {
    assert [Credential()][..0] == [];
  }

  /** The library finishes at once, with a user the database accepted. */
  lemma AuthMade()
    ensures NewAuth(HOST, "PLAIN", true, World(true).saslStart)
         == Success(AuthView(PLAIN, true, Some(Sasl.Authorized.Authorized(HOST, "u", "u")), None, None))
  {
    LoginAccepted();
  }

  lemma AuthSettled()
    ensures var e := InitSasl(HOST, EhloState(None), World(true));
            e.next == Ehlo(EhloState(Some(TheUser()))) && e.queued == [] && OutcomeOf(e) == Continue
  {
    UpperKeyword("PLAIN");
    AuthMade();
  }

  lemma AuthVerb()
    ensures VerbOf(AuthTurn().input) == Some(AUTH)
  {
    VerbOfLine("AUTH", " PLAIN AHUAcA==\r\n");
  }

  lemma AuthStepLeads()
    ensures Leads(Ehlo(EhloState(None)), AuthTurn(), Ehlo(EhloState(Some(TheUser()))))
  {
    AuthVerb();
    AuthSettled();
    AuthDispatched(HOST, EhloState(None), AuthTurn().input, World(true));
  }

  lemma AuthDispatched(hostname: string, ehlo: EhloState, input: string, a: Answers)
    requires VerbOf(input) == Some(AUTH)
    ensures Handle(hostname, Ehlo(ehlo), input, a) == InitSasl(hostname, ehlo, a)
  {
  }

  /** A short address is its two parts. */
  lemma ShortAddress(user: string, domain: string)
    requires '@' !in user && '@' !in domain
    ensures NewAddress(user + "@" + domain, HOST)
         == Some(MailAddress(user + "@" + domain, user, domain, None, domain == HOST))
  {
    SplitConcat(user, domain, "@");
    NoAtOnePart(user);
    NoAtOnePart(domain);
  }

  lemma {:induction false} NoAtOnePart(w: string)
    requires '@' !in w
    ensures Split(w, "@") == [w]
  {
    if w != "" {
      NoAtOnePart(w[1..]);
      assert w == [w[0]] + w[1..];
      assert !("@" <= w);
    }
  }

  lemma MailStep()
    ensures Leads(Ehlo(EhloState(Some(TheUser()))), MailTurn(), Mail(InMail()))
  {
    MailLine(SENDER);
    ShortAddress("u", HOST);
    assert "u" + "@" + HOST == SENDER;
  }

  lemma RcptReads(address: string, recipient: MailAddress, state: State)
    requires address != "" && '>' !in address && NewAddress(address, HOST) == Some(recipient)
    requires state.Rcpt? ==> state.rcpt.hostname == HOST
    ensures var r := Read(HOST, state, RcptTurn(address).input, World(true));
            r.verb == Some(RCPT) && r.line == Parsed(recipient)
  {
    RcptLine(address);
  }

  /** With an authorized user any recipient is accepted. */
  lemma RcptStep(address: string, recipient: MailAddress, state: State, rs: seq<MailAddress>)
    requires address != "" && '>' !in address && NewAddress(address, HOST) == Some(recipient)
    requires (rs == [] && state == Mail(InMail())) || state == Rcpt(WithRcpts(rs))
    ensures Leads(state, RcptTurn(address), Rcpt(WithRcpts(rs + [recipient])))
  {
    RcptReads(address, recipient, state);
    RcptAcceptedIff(HOST, WithRcpts(rs), state, Parsed(recipient), World(true));
  }

  // ---------- the session ----------

  function Opening(): seq<Turn> {
    [] + [EhloTurn()] + [AuthTurn()] + [MailTurn()] + [RcptTurn(LOCAL)] + [RcptTurn(REMOTE)]
  }

  function Both(): seq<MailAddress> { [FirstRcpt(), SecondRcpt()] }

  lemma OpeningLeads()
    ensures Run(Start(HOST), Opening()).1 == Continue
    ensures At(Run(Start(HOST), Opening()).0, Rcpt(WithRcpts(Both())))
  {
    EhloStep();
    Onward([], Init, EhloTurn(), Ehlo(EhloState(None)));
    AuthStepLeads();
    Onward([] + [EhloTurn()], Ehlo(EhloState(None)), AuthTurn(), Ehlo(EhloState(Some(TheUser()))));
    MailStep();
    Onward([] + [EhloTurn()] + [AuthTurn()], Ehlo(EhloState(Some(TheUser()))), MailTurn(), Mail(InMail()));
    Recipients([] + [EhloTurn()] + [AuthTurn()] + [MailTurn()]);
  }

  lemma Recipients(turns: seq<Turn>)
    requires Run(Start(HOST), turns).1 == Continue && At(Run(Start(HOST), turns).0, Mail(InMail()))
    ensures var all := turns + [RcptTurn(LOCAL)] + [RcptTurn(REMOTE)];
            Run(Start(HOST), all).1 == Continue && At(Run(Start(HOST), all).0, Rcpt(WithRcpts(Both())))
  {
    LocalRcptLeads();
    Onward(turns, Mail(InMail()), RcptTurn(LOCAL), Rcpt(WithRcpts([FirstRcpt()])));
    RemoteRcptLeads();
    Onward(turns + [RcptTurn(LOCAL)], Rcpt(WithRcpts([FirstRcpt()])), RcptTurn(REMOTE), Rcpt(WithRcpts(Both())));
  }

  lemma LocalRcptLeads()
    ensures Leads(Mail(InMail()), RcptTurn(LOCAL), Rcpt(WithRcpts([FirstRcpt()])))
  {
    ShortAddress("v", HOST);
    assert "v" + "@" + HOST == LOCAL;
    RcptStep(LOCAL, FirstRcpt(), Mail(InMail()), []);
    assert [] + [FirstRcpt()] == [FirstRcpt()];
  }

  lemma RemoteRcptLeads()
    ensures Leads(Rcpt(WithRcpts([FirstRcpt()])), RcptTurn(REMOTE), Rcpt(WithRcpts(Both())))
  {
    ShortAddress("w", "c");
    assert "w" + "@" + "c" == REMOTE;
    RcptStep(REMOTE, SecondRcpt(), Rcpt(WithRcpts([FirstRcpt()])), [FirstRcpt()]);
    assert [FirstRcpt()] + [SecondRcpt()] == Both();
  }

  lemma BodySends(stores: bool)
    ensures Sends(DataTurn(), BodyTurn(stores), PlainBody(["hi"]))
  {
    DataLineVerb();
    RoundTrip(["hi"]);
    StuffedLines(["hi"]);
    assert WireLines(["hi"])[1] == ".";
    DetectsDotLine(WireLines(["hi"]));
  }

  lemma BothDivided()
    ensures LocalOf(Both()) == [FirstRcpt()] && GroupByDomain(RemoteOf(Both())) != map[]
  {
    assert Both() == [FirstRcpt()] + [SecondRcpt()];
    FilterSnoc([FirstRcpt()], SecondRcpt(), IsLocal());
    FilterSnoc([], FirstRcpt(), IsLocal());
    assert [] + [FirstRcpt()] == [FirstRcpt()];
    RemoteGroupsExist(Both());
    assert SecondRcpt() in Both();
  }

  /** The store for the local recipient fails once; in the end the remote recipient is in the queue twice. */
  lemma QueuedTwice()
    ensures var turns := Opening() + ([DataTurn(), BodyTurn(false)] + [DataTurn(), BodyTurn(true)]);
            var q := RemoteAdd(WithRcpts(Both()), PlainBody(["hi"]));
            Run(Start(HOST), turns).0.queued == [q, q] && "c" in q.groups
  {
    var r, text := WithRcpts(Both()), PlainBody(["hi"]);
    OpeningLeads();
    BodySends(false);
    BodySends(true);
    BothDivided();
    var s := Run(Start(HOST), Opening()).0;
    RunSplit(Start(HOST), Opening(), [DataTurn(), BodyTurn(false)] + [DataTurn(), BodyTurn(true)]);
    RetryQueuesAgainIff(s, r, DataTurn(), BodyTurn(false), text, DataTurn(), BodyTurn(true), text);
    assert TroubleAt(World(false), 0);
    var q := RemoteAdd(r, text);
    assert [] + [q, q] == [q, q];
    RemoteDomain();
  }

  lemma RemoteDomain()
    ensures "c" in GroupByDomain(RemoteOf(Both()))
  {
    assert SecondRcpt() in Both();
    FilterKeeps(Both(), IsRemote(), SecondRcpt());
  }
}
