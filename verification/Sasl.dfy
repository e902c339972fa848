/**
 The wrapper around the SASL library (src/auth.rs).  The library itself is an oracle: each step of it
 answers with a `SaslAnswer`, which says how the step ended, what it wrote for the client, and with which
 credentials it called back to have them validated.
 */
module Sasl {
  import opened Wrappers
  import opened Text

  datatype AuthError = AuthUnsuccessful | InvalidMechanism
  datatype NotFinishedError = NotFinishedError
  datatype AuthMech = PLAIN | LOGIN

  datatype Authorized = Authorized(hostname: string, identity: string, username: string)
  datatype User = User(hostname: string, identity: string, username: string)

  function ToUser(a: Authorized): User {
    User(a.hostname, a.identity, a.username)
  }

  // ---------- credentials ----------

  datatype Password = Utf8(text: string) | NotUtf8
  datatype Credentials = Credentials(
    authzId: Option<string>,
    authId: Option<string>,
    password: Option<Password>)

  /** `Authorized::new`: the user to authenticate and the password to try. */
  function NewAuthorized(hostname: string, c: Credentials): Result<(Authorized, string), AuthError> {
    if c.authId.None? || c.password.None? || c.password.value.NotUtf8? then Failure(AuthUnsuccessful)
    else
      var username := c.authId.value;
      var password := c.password.value.text;
      match c.authzId
      case None => Success((Authorized(hostname, username, username), password))
      case Some(identity) =>
        if Trim(identity) == "" then Success((Authorized(hostname, username, username), password))
        else if identity == username then Success((Authorized(hostname, identity, username), password))
        else Failure(AuthUnsuccessful)
  }

  // ---------- the callback ----------

  datatype DbError = DbError
  /** One call of the library to `Callback::validate`, and the database's answer should it be asked. */
  datatype ValidateCall = ValidateCall(credentials: Credentials, dbAnswer: Result<bool, DbError>)
  /** A password the database accepted. */
  datatype Login = Login(user: Authorized, password: string)

  /** `Callback::validate`: the login it finalises, if any. */
  function Validate(hostname: string, call: ValidateCall): Option<Login> {
    match NewAuthorized(hostname, call.credentials)
    case Failure(_) => None
    case Success((user, password)) =>
      if call.dbAnswer == Success(true) then Some(Login(user, password)) else None
  }

  function Logins(hostname: string, calls: seq<ValidateCall>): seq<Login> {
    if calls == [] then []
    else
      var rest := Logins(hostname, calls[..|calls| - 1]);
      match Validate(hostname, calls[|calls| - 1])
      case None => rest
      case Some(login) => rest + [login]
  }

  // ---------- the session ----------

  datatype SaslState = FinishedSilent | FinishedSending | Running | SaslError
  datatype SaslAnswer = SaslAnswer(state: SaslState, writes: seq<string>, calls: seq<ValidateCall>)

  /** The fields of `Auth`, with the library's slot for the validation value. */
  datatype AuthView = AuthView(
    mechname: AuthMech,
    isFinished: bool,
    authorized: Option<Authorized>,
    writeBuf: Option<string>,
    validation: Option<Result<Authorized, AuthError>>)

  /** What the write buffer holds after the library wrote `writes`. */
  function Buffered(buf: Option<string>, writes: seq<string>): Option<string> {
    if writes == [] then buf
    else Some((match buf case None => "" case Some(b) => b) + Flatten(writes))
  }

  /** The library ran: it wrote, and it may have had credentials validated. */
  function Ran(hostname: string, a: AuthView, ans: SaslAnswer): AuthView {
    var logins := Logins(hostname, ans.calls);
    a.(writeBuf := Buffered(a.writeBuf, ans.writes),
       validation := if logins == [] then a.validation else Some(Success(logins[|logins| - 1].user)))
  }

  /** `Auth::step`. */
  function StepAuth(hostname: string, a: AuthView, ans: SaslAnswer): (AuthView, Result<Option<User>, AuthError>) {
    var b := Ran(hostname, a, ans);
    match ans.state
    case Running => (b, Success(None))
    case SaslError => (b, Failure(AuthUnsuccessful))
    case FinishedSending => (b.(isFinished := true), Failure(AuthUnsuccessful))
    case FinishedSilent =>
      var c := b.(isFinished := true, validation := None);
      match b.validation
      case Some(Success(user)) => (c.(authorized := Some(user)), Success(Some(ToUser(user))))
      case Some(Failure(_)) => (c, Failure(AuthUnsuccessful))
      case None => (c, Failure(AuthUnsuccessful))
  }

  /** What the library says when a mechanism is proposed: whether it starts, and its first step. */
  datatype SaslStart = SaslStart(started: bool, first: SaslAnswer)

  function Fresh(mech: AuthMech): AuthView {
    AuthView(mech, false, None, None, None)
  }

  /** `Auth::new`, for an upper-case mechanism name. */
  function NewAuth(hostname: string, selected: string, hasInitial: bool, start: SaslStart)
    : Result<AuthView, AuthError>
  {
    if !start.started then Failure(InvalidMechanism)
    else if selected == "PLAIN" then
      if !hasInitial then Success(Fresh(PLAIN))
      else
        var (a, r) := StepAuth(hostname, Fresh(PLAIN), start.first);
        if r.Failure? then Failure(r.error) else Success(a)
    else if selected == "LOGIN" then Success(Ran(hostname, Fresh(LOGIN), start.first))
    else Failure(InvalidMechanism)
  }

  /** The logins the database accepted while `Auth::new` ran. */
  function NewAuthLogins(hostname: string, selected: string, hasInitial: bool, start: SaslStart): seq<Login> {
    if start.started && ((selected == "PLAIN" && hasInitial) || selected == "LOGIN")
    then Logins(hostname, start.first.calls)
    else []
  }

  /** `Auth::authorized`. */
  function AuthorizedUser(a: AuthView): Result<Option<User>, NotFinishedError> {
    if !a.isFinished then Failure(NotFinishedError)
    else match a.authorized case None => Success(None) case Some(u) => Success(Some(ToUser(u)))
  }

  lemma BufferedSnoc(buf: Option<string>, writes: seq<string>, w: string)
    ensures Buffered(Buffered(buf, writes), [w]) == Buffered(buf, writes + [w])
  {
    FlattenSnoc(writes, w);
    FlattenOne(w);
    Assoc(match buf case None => "" case Some(b) => b, Flatten(writes), w);
  }

  // ---------- the object ----------

  class Auth {
    const mechname: AuthMech
    var isFinished: bool
    var authorized: Option<Authorized>
    /** The buffer of `Writer`. */
    var writeBuf: Option<string>
    /** The library's slot for the validation value. */
    var validation: Option<Result<Authorized, AuthError>>

    function View(): AuthView
      reads this
    {
      AuthView(mechname, isFinished, authorized, writeBuf, validation)
    }

    constructor (mech: AuthMech)
      ensures View() == Fresh(mech)
    {
      mechname := mech;
      isFinished, authorized, writeBuf, validation := false, None, None, None;
    }

    static method New(hostname: string, selected: string, hasInitial: bool, start: SaslStart)
      returns (r: Result<Auth, AuthError>, logins: seq<Login>)
      ensures r.Success? ==> fresh(r.value) && NewAuth(hostname, selected, hasInitial, start) == Success(r.value.View())
      ensures r.Failure? ==> NewAuth(hostname, selected, hasInitial, start) == Failure(r.error)
      ensures logins == NewAuthLogins(hostname, selected, hasInitial, start)
    {
      logins := [];
      if !start.started {
        return Failure(InvalidMechanism), [];
      }
      if selected == "PLAIN" {
        var auth := new Auth(PLAIN);
        if hasInitial {
          var stepped;
          stepped, logins := auth.Step(hostname, start.first);
          if stepped.Failure? {
            return Failure(stepped.error), logins;
          }
        }
        return Success(auth), logins;
      } else if selected == "LOGIN" {
        var auth := new Auth(LOGIN);
        logins := auth.Run(hostname, start.first);
        return Success(auth), logins;
      } else {
        return Failure(InvalidMechanism), [];
      }
    }

    /** `Writer::write`. */
    method Write(s: string)
      modifies this
      ensures View() == old(View()).(writeBuf := Buffered(old(writeBuf), [s]))
    {
      FlattenOne(s);
      assert "" + s == s;
      match writeBuf
      case Some(b) => writeBuf := Some(b + s);
      case None => writeBuf := Some(s);
    }

    /** The library runs one step: it writes to the buffer and calls `Callback::validate`. */
    method Run(hostname: string, ans: SaslAnswer) returns (logins: seq<Login>)
      modifies this
      ensures View() == Ran(hostname, old(View()), ans)
      ensures logins == Logins(hostname, ans.calls)
    {
      for i := 0 to |ans.writes|
        invariant View() == old(View()).(writeBuf := Buffered(old(writeBuf), ans.writes[..i]))
      {
        Write(ans.writes[i]);
        BufferedSnoc(old(writeBuf), ans.writes[..i], ans.writes[i]);
        assert ans.writes[..i + 1] == ans.writes[..i] + [ans.writes[i]];
      }
      assert ans.writes[..|ans.writes|] == ans.writes;
      logins := [];
      for i := 0 to |ans.calls|
        invariant logins == Logins(hostname, ans.calls[..i])
        invariant View() == old(View()).(
                    writeBuf := Buffered(old(writeBuf), ans.writes),
                    validation := if logins == [] then old(validation) else Some(Success(logins[|logins| - 1].user)))
      {
        assert ans.calls[..i + 1][..i] == ans.calls[..i];
        match Validate(hostname, ans.calls[i])
        case Some(login) =>
          validation := Some(Success(login.user));
          logins := logins + [login];
        case None =>
      }
      assert ans.calls[..|ans.calls|] == ans.calls;
    }

    method Step(hostname: string, ans: SaslAnswer) returns (r: Result<Option<User>, AuthError>, logins: seq<Login>)
      modifies this
      ensures (View(), r) == StepAuth(hostname, old(View()), ans)
      ensures logins == Logins(hostname, ans.calls)
    {
      logins := Run(hostname, ans);
      match ans.state {
        case FinishedSilent =>
          isFinished := true;
        case FinishedSending =>
          isFinished := true;
          return Failure(AuthUnsuccessful), logins;
        case Running =>
          return Success(None), logins;
        case SaslError =>
          return Failure(AuthUnsuccessful), logins;
      }
      var value := validation;
      validation := None;
      match value {
        case Some(Success(user)) =>
          authorized := Some(user);
          r := Success(Some(ToUser(user)));
        case Some(Failure(_)) =>
          r := Failure(AuthUnsuccessful);
        case None =>
          r := Failure(AuthUnsuccessful);
      }
    }

    /** Takes what is buffered for the client, as `Writer::flush_to_connwriter` does before sending it. */
    method TakeBuffer() returns (text: Option<string>)
      modifies this
      ensures text == old(writeBuf)
      ensures View() == old(View()).(writeBuf := None)
    {
      text := writeBuf;
      writeBuf := None;
    }

    function AuthorizedNow(): Result<Option<User>, NotFinishedError>
      reads this
    {
      AuthorizedUser(View())
    }
  }

  // ---------- properties ----------

  /** Identity and username of a validated user never differ. */
  lemma LoginIsItself(hostname: string, call: ValidateCall)
    ensures Validate(hostname, call).Some? <==>
              && call.dbAnswer == Success(true)
              && call.credentials.authId.Some?
              && call.credentials.password.Some? && call.credentials.password.value.Utf8?
              && (call.credentials.authzId.None?
                  || Trim(call.credentials.authzId.value) == ""
                  || call.credentials.authzId == call.credentials.authId)
    ensures Validate(hostname, call).Some? ==>
              var user := Validate(hostname, call).value.user;
              user == Authorized(hostname, call.credentials.authId.value, call.credentials.authId.value)
  {
  }

  /** A user stands in the session only once it finished. */
  predicate UserOnlyWhenFinished(a: AuthView) {
    a.authorized.Some? ==> a.isFinished
  }

  lemma StepKeepsUserOnlyWhenFinished(hostname: string, a: AuthView, ans: SaslAnswer)
    requires UserOnlyWhenFinished(a)
    ensures UserOnlyWhenFinished(StepAuth(hostname, a, ans).0)
    ensures StepAuth(hostname, a, ans).1 == Success(None) ==>
              StepAuth(hostname, a, ans).0.isFinished == a.isFinished && ans.state == Running
  {
  }

  /** A session `Auth::new` hands out is unfinished, or finished with a user the database accepted in it. */
  lemma NewAuthFinishedHasUser(hostname: string, selected: string, hasInitial: bool, start: SaslStart)
    requires NewAuth(hostname, selected, hasInitial, start).Success?
    ensures var a := NewAuth(hostname, selected, hasInitial, start).value;
            && UserOnlyWhenFinished(a)
            && AuthorizedUser(a) != Success(None)
            && (a.isFinished ==> exists l :: l in NewAuthLogins(hostname, selected, hasInitial, start)
                                          && Some(l.user) == a.authorized)
  {
    var logins := NewAuthLogins(hostname, selected, hasInitial, start);
    if logins != [] {
      assert logins[|logins| - 1] in logins;
    }
  }
}
