/** A whole AUTH LOGIN: the prompts are shown, and the right password leaves the session with a user. */
module LoginRun {
  import opened Wrappers
  import opened Text
  import opened Commands
  import opened Sasl
  import opened Protocol
  import opened AuthExchange
  import opened RetryRun

  function LoginWorld(answer: SaslAnswer): Answers {
    Answers(_ => true, _ => false, _ => Some("home"), _ => true, Some(AuthCommand("login", false)),
            SaslStart(true, SaslAnswer(Running, ["VXNlcm5hbWU6"], [])), answer)
  }

  const NOTHING := SaslAnswer(Running, [], [])

  function AskTurn(): Turn { Turn("AUTH" + " login\r\n", LoginWorld(NOTHING)) }
  function NameTurn(): Turn { Turn("dQ==\r\n", LoginWorld(SaslAnswer(Running, ["UGFzc3dvcmQ6"], []))) }

  /** The password is sent; the library finishes, and the database takes it for the right one or not. */
  function PasswordTurn(right: bool): Turn {
    var call := ValidateCall(Credentials(None, Some("u"), Some(Utf8("p"))), Success(right));
    Turn("cA==\r\n", LoginWorld(SaslAnswer(FinishedSilent, [], [call])))
  }

  /** From `state` the turn leads to `next`, and the client reads `text`. */
  ghost predicate Reads(state: State, t: Turn, next: State, text: string) {
    Leads(state, t, next) && WireAll(Handle(HOST, state, t.input, t.answers).replies) == text
  }

  /** The wrapper while LOGIN waits for the client. */
  const WAITING := AuthView(LOGIN, false, None, None, None)

  function Asked(): State { AuthStep(WAITING, EhloState(None)) }

  lemma AskReads()
    ensures Reads(Ehlo(EhloState(None)), AskTurn(), Asked(), ReplyLine("334", "VXNlcm5hbWU6"))
  {
    VerbOfLine("AUTH", " login\r\n");
    var a := AskTurn().answers;
    FlattenOne("VXNlcm5hbWU6");
    assert Upper("login") == "LOGIN";
    AuthHandled(HOST, EhloState(None), AskTurn().input, a);
    NamesIff(a);
    LoginStarts(HOST, EhloState(None), a);
    InitSaslQuiet(HOST, EhloState(None), a);
  }

  lemma InitSaslQuiet(hostname: string, from: EhloState, a: Answers)
    requires Sending(a)
    ensures InitSasl(hostname, from, a).queued == [] && InitSasl(hostname, from, a).ioOk
  {
  }

  lemma NameReads()
    ensures Reads(Asked(), NameTurn(), Asked(), ReplyLine("334", "UGFzc3dvcmQ6"))
  {
    FlattenOne("UGFzc3dvcmQ6");
    StepReplies(HOST, WAITING, EhloState(None), NameTurn().answers);
  }

  lemma PasswordReads(right: bool)
    ensures Reads(Asked(), PasswordTurn(right), Ehlo(EhloState(if right then Some(TheUser()) else None)),
                  if right then ACCEPTED else UNAUTHORIZED)
  {
    var a := PasswordTurn(right).answers;
    assert a.saslStep.calls[..0] == [];
    StepReplies(HOST, WAITING, EhloState(None), a);
  }

  function LoginTurns(right: bool): seq<Turn> {
    [] + [EhloTurn()] + [AskTurn()] + [NameTurn()] + [PasswordTurn(right)]
  }

  /** The session holds the user exactly if the password was the right one. */
  lemma LoginLeads(right: bool)
    ensures Run(Start(HOST), LoginTurns(right)).1 == Continue
    ensures At(Run(Start(HOST), LoginTurns(right)).0, Ehlo(EhloState(if right then Some(TheUser()) else None)))
  {
    EhloStep();
    Onward([], Init, EhloTurn(), Ehlo(EhloState(None)));
    AskReads();
    Onward([] + [EhloTurn()], Ehlo(EhloState(None)), AskTurn(), Asked());
    NameReads();
    Onward([] + [EhloTurn()] + [AskTurn()], Asked(), NameTurn(), Asked());
    PasswordReads(right);
    Onward([] + [EhloTurn()] + [AskTurn()] + [NameTurn()], Asked(), PasswordTurn(right),
           Ehlo(EhloState(if right then Some(TheUser()) else None)));
  }
}
