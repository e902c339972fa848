/** The server object of src/smtp/server.rs and the loop of src/net.rs that drives it. */
module Server {
  import opened Wrappers
  import opened Text
  import opened Transparency
  import opened Addresses
  import opened Commands
  import opened Sasl
  import opened Delivery
  import opened OutgoingQueue
  import opened Protocol

  /** Mail storage, as the log of the mails it wrote (src/maildir.rs). */
  class Storage {
    var log: seq<Stored>

    constructor ()
      ensures log == []
    {
      log := [];
    }

    /** `Storage::store`; `ok` is whether the file system obliges. */
    method Store(envelope: Envelope, rcpt: MailAddress, home: string, ok: bool) returns (r: bool)
      modifies this
      ensures r == ok
      ensures log == old(log) + if ok then [Stored(envelope, rcpt, home)] else []
    {
      if ok {
        log := log + [Stored(envelope, rcpt, home)];
      }
      r := ok;
    }
  }

  class SmtpServer {
    const hostname: string
    const storage: Storage
    const queue: Queue
    var state: SmtpState<Auth>
    /** The replies sent while the current input is handled. */
    var sent: seq<Reply>
    ghost var log: seq<Exchange>
    ghost var queued: seq<QueueAdd>
    ghost var logins: seq<Login>

    /** The SASL wrapper, while there is one. */
    function AuthObjects(): set<object>
      reads `state
    {
      if state.AuthStep? then {state.auth} else {}
    }

    function StateView(): State
      reads `state, AuthObjects()
    {
      match state
      case AuthStep(auth, from) => AuthStep(auth.View(), from)
      case Init => Init
      case Helo => Helo
      case Ehlo(ehlo) => Ehlo(ehlo)
      case Mail(mail) => Mail(mail)
      case Rcpt(rcpt) => Rcpt(rcpt)
      case Data(data) => Data(data)
      case DataComplete => DataComplete
      case Quit => Quit
      case Cancelled => Cancelled
    }

    ghost function View(): Session
      reads this, AuthObjects(), storage
    {
      Session(hostname, StateView(), log, storage.log, queued, logins)
    }

    /** What the current call did so far is `e`. */
    twostate predicate Did(e: Effect)
      reads this, AuthObjects(), storage
    {
      && StateView() == e.next
      && sent == e.replies
      && storage.log == old(storage.log) + e.stored
      && queued == old(queued) + e.queued
      && logins == old(logins) + e.logins
      && log == old(log)
      && fresh(AuthObjects() - old(AuthObjects()))
    }

    /** The shared queue got exactly the mails `adds`. */
    twostate predicate QueueTook(adds: seq<QueueAdd>)
      reads queue
    {
      queue.Valid() && Grew(old(queue.View()), queue.View(), adds)
    }

    /** `SmtpServer::build`, after the greeting was sent. */
    constructor (hostname: string, queue: Queue)
      ensures this.hostname == hostname && this.queue == queue && fresh(storage)
      ensures View() == Start(hostname) && AuthObjects() == {}
    {
      this.hostname := hostname;
      this.queue := queue;
      storage := new Storage();
      state, sent, log, queued, logins := Init, [], [], [], [];
    }

    // ---------- sending ----------

    /** `ConnectionWriter::send`. */
    method Send(r: Reply, a: Answers) returns (ok: bool)
      modifies this`sent
      ensures ok == a.sendOk(|old(sent)|)
      ensures sent == if ok then old(sent) + [r] else old(sent)
    {
      ok := a.sendOk(|sent|);
      if ok {
        sent := sent + [r];
      }
    }

    /** Sends a reply and moves on; on an I/O error the session is over. */
    method Answer(r: Reply, next: SmtpState<Auth>, a: Answers) returns (ok: bool)
      requires !next.AuthStep?
      modifies this`sent, this`state
      ensures (StateView(), sent, ok) == (var e := Say(a, old(sent), r, Plain(next)); (e.next, e.replies, e.ioOk))
      ensures AuthObjects() == {}
    {
      ok := Send(r, a);
      state := if ok then next else Cancelled;
    }

    /** A state without a SASL session is its own view. */
    static function Plain(s: SmtpState<Auth>): State
      requires !s.AuthStep?
    {
      match s
      case Init => Init
      case Helo => Helo
      case Ehlo(ehlo) => Ehlo(ehlo)
      case Mail(mail) => Mail(mail)
      case Rcpt(rcpt) => Rcpt(rcpt)
      case Data(data) => Data(data)
      case DataComplete => DataComplete
      case Quit => Quit
      case Cancelled => Cancelled
    }

    // ---------- AUTH ----------

    /** `AuthResult::respond` and `transition_auth_result`. */
    method ConcludeAuth(r: AuthResult<Auth>, a: Answers) returns (ok: bool)
      modifies this`sent, this`state
      ensures r.Unfinished? ==> ok && sent == old(sent) && state == AuthStep(r.auth, r.fromState)
      ensures !r.Unfinished? ==>
                var e := Conclude(a, old(sent), match r
                                                case Authorized(f, u) => AuthResult.Authorized(f, u)
                                                case BadMechanism(f) => BadMechanism(f)
                                                case BadCredentials(f) => BadCredentials(f));
                && AuthObjects() == {} && StateView() == e.next && sent == e.replies && ok == e.ioOk
    {
      match r
      case Unfinished(auth, from) =>
        state := AuthStep(auth, from);
        ok := true;
      case Authorized(_, user) => ok := Answer(AuthSuccessful, Ehlo(EhloState(Some(user))), a);
      case BadMechanism(from) => ok := Answer(AuthBadMechanism, Ehlo(from), a);
      case BadCredentials(from) => ok := Answer(AuthUnauthorized, Ehlo(from), a);
    }

    /** `AuthState::auth_flush`. */
    method FlushAuth(auth: Auth, a: Answers) returns (ok: bool)
      requires sent == []
      modifies this`sent, auth
      ensures auth.View() == old(auth.View()).(writeBuf := None)
      ensures ok == Flushed(a, old(auth.writeBuf)).Some?
      ensures sent == if ok then Flushed(a, old(auth.writeBuf)).value else []
    {
      var text := auth.TakeBuffer();
      ok := true;
      if text.Some? {
        ok := Send(Challenge(text.value), a);
      }
    }

    /** `AuthState::init_sasl`. */
    method BeginAuth(ehlo: EhloState, a: Answers) returns (ok: bool)
      requires state == Ehlo(ehlo) && sent == []
      modifies this`sent, this`state, this`logins
      ensures Did(InitSasl(hostname, ehlo, a)) && ok == InitSasl(hostname, ehlo, a).ioOk
    {
      if a.authCommand.None? {
        ok := ConcludeAuth(BadMechanism(ehlo), a);
        return;
      }
      ok := StartAuth(ehlo, Upper(a.authCommand.value.mech), a.authCommand.value.hasArgument, a);
    }

    /** `init_sasl` from the mechanism on. */
    method StartAuth(ehlo: EhloState, mech: string, hasArgument: bool, a: Answers) returns (ok: bool)
      requires state == Ehlo(ehlo) && sent == []
      modifies this`sent, this`state, this`logins
      ensures Did(StartSasl(hostname, ehlo, mech, hasArgument, a))
      ensures ok == StartSasl(hostname, ehlo, mech, hasArgument, a).ioOk
    {
      var made, accepted := Auth.New(hostname, mech, hasArgument, a.saslStart);
      logins := logins + accepted;
      if made.Failure? {
        ok := ConcludeAuth(if made.error.InvalidMechanism? then BadMechanism(ehlo) else BadCredentials(ehlo), a);
        return;
      }
      ok := OpenAuth(made.value, ehlo, a);
    }

    /** The end of `init_sasl`. */
    method OpenAuth(auth: Auth, ehlo: EhloState, a: Answers) returns (ok: bool)
      requires sent == []
      modifies this`sent, this`state, auth
      ensures var e := OpenSasl(ehlo, old(auth.View()), a);
              StateView() == e.next && sent == e.replies && ok == e.ioOk
      ensures AuthObjects() <= {auth}
    {
      ok := FlushAuth(auth, a);
      if !ok {
        state := Cancelled;
        return;
      }
      match auth.AuthorizedNow()
      case Success(Some(user)) => ok := ConcludeAuth(AuthResult.Authorized(ehlo, user), a);
      case Success(None) => ok := ConcludeAuth(BadCredentials(ehlo), a);
      case Failure(_) => ok := ConcludeAuth(Unfinished(auth, ehlo), a);
    }

    /** `AuthState::handle_auth_step`. */
    method ContinueAuth(auth: Auth, from: EhloState, a: Answers) returns (ok: bool)
      requires state == AuthStep(auth, from) && sent == []
      modifies this`sent, this`state, this`logins, auth
      ensures Did(HandleAuthStep(hostname, old(auth.View()), from, a))
      ensures ok == HandleAuthStep(hostname, old(auth.View()), from, a).ioOk
    {
      var r, accepted := auth.Step(hostname, a.saslStep);
      logins := logins + accepted;
      match r
      case Success(None) =>
        ok := FlushAuth(auth, a);
        if ok {
          ok := ConcludeAuth(Unfinished(auth, from), a);
        } else {
          state := Cancelled;
        }
      case Success(Some(user)) => ok := ConcludeAuth(AuthResult.Authorized(from, user), a);
      case Failure(_) => ok := ConcludeAuth(BadCredentials(from), a);
    }

    // ---------- MAIL and RCPT ----------

    /** `MailFromState::mail_from`. */
    method TakeMail(input: string, a: Answers) returns (ok: bool)
      requires (state.Helo? || state.Ehlo?) && sent == []
      modifies this`sent, this`state
      ensures var e := MailFrom(old(StateView()), ReadAddressLine(MAIL_KEYWORD, hostname, input), a);
              Did(e) && ok == e.ioOk
    {
      var text := ParseAddressMessage(MAIL_KEYWORD, input);
      if text.None? {
        ok := Answer(BadCommand, state, a);
        return;
      }
      var parsed := NewAddress(text.value, hostname);
      if parsed.None? {
        ok := Answer(InvalidHost, state, a);
        return;
      }
      var sender := parsed.value;
      var authorized: Option<User> := None;
      var asked := 0;
      if state.Ehlo? {
        var (checked, allowed) := SenderPermission(state.ehlo.authorized, sender, a.isLocal(asked));
        sender, asked := checked, asked + 1;
        if !allowed {
          ok := Answer(Unauthorized, state, a);
          return;
        }
        authorized := state.ehlo.authorized;
      }
      ok := Send(Okay, a);
      if !ok {
        state := Cancelled;
        return;
      }
      var (cached, isLocalSender) := CachedIsLocal(sender, a.isLocal(asked));
      state := Mail(MailFromState(cached, isLocalSender, authorized));
    }

    /** `RcptState::new` for the first recipient. */
    method TakeFirstRcpt(input: string, a: Answers) returns (ok: bool)
      requires state.Mail? && sent == []
      modifies this`sent, this`state
      ensures var mail := old(state).mail;
              var e := AddRcpt(hostname, NoRecipients(hostname, mail), Mail(mail),
                               ReadAddressLine(RCPT_KEYWORD, hostname, input), a);
              Did(e) && ok == e.ioOk
    {
      var mail := state.mail;
      state := Rcpt(RcptState(hostname, mail.sender, mail.isLocalSender, [], mail.authorized));
      var err;
      ok, err := PushRcpt(input, a);
      if ok && err.Some? {
        ok := Answer(RcptErrorReply(err.value), Mail(mail), a);
      }
    }

    /** `RcptState::add_rcpt`: pushes the recipient and says so, or returns why not. */
    method PushRcpt(input: string, a: Answers) returns (ok: bool, err: Option<RcptError>)
      requires state.Rcpt? && sent == []
      modifies this`sent, this`state
      ensures AuthObjects() == {}
      ensures var rcpt := old(state).rcpt;
              match NewRecipient(hostname, rcpt, ReadAddressLine(RCPT_KEYWORD, rcpt.hostname, input))
              case Failure(e) => ok && err == Some(e) && state == old(state) && sent == []
              case Success(r) =>
                && err == None
                && var e := Say(a, [], Okay, Rcpt(rcpt.(recipients := rcpt.recipients + [r])));
                   StateView() == e.next && sent == e.replies && ok == e.ioOk
    {
      var text := ParseAddressMessage(RCPT_KEYWORD, input);
      if text.None? {
        return true, Some(RcptBadCommand);
      }
      var parsed := NewAddress(text.value, state.rcpt.hostname);
      if parsed.None? {
        return true, Some(RcptInvalidMailbox);
      }
      if !RecipientPermission(hostname, state.rcpt.authorized, parsed.value) {
        return true, Some(RcptUnauthorized);
      }
      state := state.(rcpt := state.rcpt.(recipients := state.rcpt.recipients + [parsed.value]));
      ok := Send(Okay, a);
      err := None;
      if !ok {
        state := Cancelled;
      }
    }

    /** RCPT in RCPT state. */
    method TakeRcpt(input: string, a: Answers) returns (ok: bool)
      requires state.Rcpt? && sent == []
      modifies this`sent, this`state
      ensures var rcpt := old(state).rcpt;
              var e := AddRcpt(hostname, rcpt, Rcpt(rcpt), ReadAddressLine(RCPT_KEYWORD, rcpt.hostname, input), a);
              Did(e) && ok == e.ioOk
    {
      var err;
      ok, err := PushRcpt(input, a);
      if ok && err.Some? {
        ok := Answer(RcptErrorReply(err.value), state, a);
      }
    }

    // ---------- DATA ----------

    /** `DataState::deliver_local_mail`. */
    method DeliverLocalMail(envelope: Envelope, recipients: seq<MailAddress>, a: Answers)
      returns (r: Result<(), MailboxDeliveryError>)
      modifies storage
      ensures var (stored, result) := DeliverLocal(envelope, recipients, a.mailboxHome, a.storeOk);
              storage.log == old(storage.log) + stored && r == result
    {
      var mailboxes: seq<(MailAddress, string)> := [];
      for i := 0 to |recipients|
        invariant |mailboxes| == i
        invariant forall k | 0 <= k < i ::
                    a.mailboxHome(k).Some? && mailboxes[k] == (recipients[k], a.mailboxHome(k).value)
      {
        match a.mailboxHome(i) {
          case None =>
            FirstMissingAt(a.mailboxHome, i, |recipients|);
            return Failure(NoSuchUser(recipients[i].address));
          case Some(home) =>
            mailboxes := mailboxes + [(recipients[i], home)];
        }
      }
      for i := 0 to |mailboxes|
        invariant forall k | 0 <= k < i :: a.storeOk(k)
        invariant storage.log == old(storage.log) + Stores(envelope, recipients, a.mailboxHome, i)
      {
        var ok := storage.Store(envelope, mailboxes[i].0, mailboxes[i].1, a.storeOk(i));
        if !ok {
          FirstRefusedAt(a.storeOk, i, |recipients|);
          return Failure(MailboxIO);
        }
      }
      return Success(());
    }

    /** `DataState::deliver_mail`; `h` is what was handed over. */
    method DeliverToAll(envelope: Envelope, a: Answers) returns (r: Result<(), MailboxDeliveryError>, ghost h: Handed)
      requires queue.Valid()
      modifies storage, queue, this`queued
      ensures h == DeliverMail(envelope, a.mailboxHome, a.storeOk)
      ensures storage.log == old(storage.log) + h.stored
      ensures queued == old(queued) + h.queued && QueueTook(h.queued)
      ensures r == h.result
    {
      h := DeliverMail(envelope, a.mailboxHome, a.storeOk);
      var local, remote := Partition(envelope.recipients);
      if remote != map[] {
        GroupsAreGrouped(RemoteOf(envelope.recipients));
        queue.Add(envelope, remote);
        queued := queued + [QueueAdd(envelope, remote)];
      }
      r := Success(());
      if local != [] {
        r := DeliverLocalMail(envelope, local, a);
      }
    }

    /** The first loop of `deliver_mail`. */
    static method Partition(recipients: seq<MailAddress>) returns (local: seq<MailAddress>, remote: Multimap)
      ensures local == LocalOf(recipients)
      ensures remote == GroupByDomain(RemoteOf(recipients))
    {
      local := [];
      remote := map[];
      NoGroups();
      for i := 0 to |recipients|
        invariant local == LocalOf(recipients[..i])
        invariant remote == GroupByDomain(RemoteOf(recipients[..i]))
      {
        var rcpt := recipients[i];
        assert recipients[..i + 1] == recipients[..i] + [rcpt];
        PartitionStep(recipients[..i], rcpt);
        if rcpt.isLocalResponsibility {
          local := local + [rcpt];
        } else {
          remote := Insert(remote, rcpt.domain, rcpt);
        }
      }
      assert recipients[..|recipients|] == recipients;
    }

    /** `DataState::receive_data`. */
    method TakeBody(input: string, a: Answers) returns (ok: bool)
      requires state.Data? && sent == [] && queue.Valid()
      modifies this`sent, this`state, this`queued, storage, queue
      ensures var e := ReceiveData(hostname, old(state).data, ReadBody(old(state).data, input, a), a);
              Did(e) && ok == e.ioOk && QueueTook(e.queued)
    {
      if !ContainsMailEnd(input) {
        state := state.(data := state.data.(mailBody := state.data.mailBody + input));
        return true;
      }
      state := state.(data := state.data.(mailBody := state.data.mailBody + input));
      state := state.(data := state.data.(bodyFinished := true));
      TakenBody(hostname, old(state).data, input, a);
      ok := FinishBody(a);
    }

    /** The body is complete: it is decoded, and handed over or thrown away. */
    method FinishBody(a: Answers) returns (ok: bool)
      requires state.Data? && state.data.bodyFinished && sent == [] && queue.Valid()
      modifies this`sent, this`state, this`queued, storage, queue
      ensures var data := old(state).data;
              var e := ReceiveData(hostname, data, WholeBody(data, data.mailBody, a), a);
              Did(e) && ok == e.ioOk && QueueTook(e.queued)
    {
      var decoded := DecodeTransparency(state.data.mailBody);
      if decoded.Failure? {
        ok := RejectBody(decoded.error, a);
      } else {
        ghost var h;
        ok, h := HandOver(decoded.value, a);
      }
    }

    /** A body that could not be decoded is thrown away. */
    method RejectBody(error: TransparencySyntaxError, a: Answers) returns (ok: bool)
      requires state.Data? && sent == []
      modifies this`sent, this`state
      ensures var e := Say(a, [], SyntaxReply(error), Data(old(state).data.(mailBody := "")));
              Did(e) && ok == e.ioOk
    {
      state := state.(data := state.data.(mailBody := ""));
      ok := Answer(SyntaxReply(error), state, a);
    }

    /** The end of `receive_data`, once the body was decoded. */
    method HandOver(text: string, a: Answers) returns (ok: bool, ghost h: Handed)
      requires state.Data? && sent == [] && queue.Valid()
      modifies this`sent, this`state, this`queued, storage, queue
      ensures var data := old(state).data;
              h == DeliverMail(Envelope(data.sender, data.recipients, text), a.mailboxHome, a.storeOk)
      ensures Did(ReceiveData(hostname, old(state).data, Finished(h), a)) && QueueTook(h.queued)
      ensures ok == ReceiveData(hostname, old(state).data, Finished(h), a).ioOk
    {
      var data := state.data;
      var delivered;
      delivered, h := DeliverToAll(Envelope(data.sender, data.recipients, text), a);
      HandedEffect(hostname, data, h, a);
      ok := Answer(if delivered.Success? then Okay else MailboxUnavailable,
                   if delivered.Success? then DataComplete else Rcpt(Rollback(hostname, data)), a);
    }

    // ---------- handle ----------

    /** The match of `SmtpServer::handle`. */
    method Act(input: string, a: Answers, ghost e: Effect) returns (ok: bool)
      requires sent == [] && queue.Valid() && e == Handle(hostname, StateView(), input, a)
      modifies this`sent, this`state, this`queued, this`logins, storage, queue, AuthObjects()
      ensures Did(e) && ok == e.ioOk && QueueTook(e.queued)
    {
      if state.Init? || state.Helo? || state.Ehlo? || state.AuthStep? {
        ok := ActOnOpening(input, a, e);
      } else if state.Data? {
        HandleBody(hostname, state.data, input, a);
        ok := TakeBody(input, a);
      } else {
        ok := ActOnMail(input, a, e);
      }
    }

    /** The arms before a sender is known. */
    method ActOnOpening(input: string, a: Answers, ghost e: Effect) returns (ok: bool)
      requires state.Init? || state.Helo? || state.Ehlo? || state.AuthStep?
      requires sent == [] && e == Handle(hostname, StateView(), input, a)
      modifies this`sent, this`state, this`logins, AuthObjects()
      ensures Did(e) && ok == e.ioOk && e.queued == []
    {
      var verb := VerbOf(input);
      if state.AuthStep? {
        ok := ContinueAuth(state.auth, state.fromState, a);
      } else if state.Init? && verb == Some(HELO) {
        ok := Answer(Okay, Helo, a);
      } else if state.Init? && verb == Some(EHLO) {
        ok := Answer(EhloOkay(hostname), Ehlo(EhloState(None)), a);
      } else if state.Ehlo? && verb == Some(AUTH) {
        ok := BeginAuth(state.ehlo, a);
      } else if (state.Helo? || state.Ehlo?) && verb == Some(MAIL) {
        ok := TakeMail(input, a);
      } else {
        ok := TurnAway(verb, a);
      }
    }

    /** The other arms. */
    method ActOnMail(input: string, a: Answers, ghost e: Effect) returns (ok: bool)
      requires !state.Init? && !state.Helo? && !state.Ehlo? && !state.AuthStep? && !state.Data?
      requires sent == [] && e == Handle(hostname, StateView(), input, a)
      modifies this`sent, this`state
      ensures Did(e) && ok == e.ioOk && e.queued == []
    {
      var verb := VerbOf(input);
      if state.Mail? && verb == Some(RCPT) {
        ok := TakeFirstRcpt(input, a);
      } else if state.Rcpt? && verb == Some(RCPT) {
        ok := TakeRcpt(input, a);
      } else if state.Rcpt? && verb == Some(DATA) {
        var rcpt := state.rcpt;
        ok := Answer(StartInput,
                     Data(DataState(rcpt.sender, rcpt.isLocalSender, rcpt.recipients, rcpt.authorized, "", false)), a);
      } else if state.DataComplete? && verb == Some(QUIT) {
        var _ := Send(Closing, a);
        state := Quit;
        ok := true;
      } else {
        ok := TurnAway(verb, a);
      }
    }

    method TurnAway(verb: Option<CommandVerb>, a: Answers) returns (ok: bool)
      requires sent == []
      modifies this`sent, this`state
      ensures Did(Refuse(verb, a)) && ok == Refuse(verb, a).ioOk
    {
      ok := Answer(if verb.Some? then BadSequence else BadCommand, Cancelled, a);
    }

    /** `SmtpServer::handle`, with its effect for the record. */
    method HandleInput(input: string, a: Answers) returns (outcome: Outcome, ghost e: Effect)
      requires queue.Valid()
      modifies this, storage, queue, AuthObjects()
      ensures e == Handle(hostname, old(StateView()), input, a)
      ensures View() == Apply(old(View()), input, e)
      ensures outcome == OutcomeOf(e)
      ensures QueueTook(e.queued)
      ensures fresh(AuthObjects() - old(AuthObjects()))
    {
      ghost var before := View();
      e := Handle(hostname, StateView(), input, a);
      sent := [];
      var ok := Act(input, a, e);
      outcome := Record(input, ok);
      SameSession(View(), before, input, e);
    }

    /**
     `ConnectionHandler::socket_loop`: `closed` says whether the client closed or reading failed in the end;
     `adds` is what the session handed to the queue.
     */
    method SocketLoop(turns: seq<Turn>, closed: bool) returns (ok: bool, ghost adds: seq<QueueAdd>)
      requires queue.Valid()
      modifies this, storage, queue, AuthObjects()
      ensures View() == Run(old(View()), turns).0
      ensures ok == (match Run(old(View()), turns).1 case Continue => closed case Stop => true case IoError => false)
      ensures queued == old(queued) + adds && QueueTook(adds)
    {
      adds := [];
      for i := 0 to |turns|
        invariant QueueTook(adds) && queued == old(queued) + adds
        invariant Run(old(View()), turns) == Run(View(), turns[i..])
        invariant fresh(AuthObjects() - old(AuthObjects()))
      {
        ghost var before := queue.View();
        var outcome;
        ghost var more;
        outcome, more := TakeTurn(turns, i);
        GrewMore(old(queue.View()), before, queue.View(), adds, more);
        Assoc(old(queued), adds, more);
        adds := adds + more;
        if outcome == Stop {
          return true, adds;
        } else if outcome == Outcome.IoError {
          return false, adds;
        }
      }
      ok := closed;
    }

    /** One round of the loop, and what is left of the run after it. */
    method TakeTurn(turns: seq<Turn>, i: nat) returns (outcome: Outcome, ghost adds: seq<QueueAdd>)
      requires queue.Valid() && i < |turns|
      modifies this, storage, queue, AuthObjects()
      ensures Run(old(View()), turns[i..])
           == if outcome == Continue then Run(View(), turns[i + 1..]) else (View(), outcome)
      ensures queued == old(queued) + adds && QueueTook(adds)
      ensures fresh(AuthObjects() - old(AuthObjects()))
    {
      ghost var s := View();
      ghost var e;
      outcome, e := HandleInput(turns[i].input, turns[i].answers);
      RunFrom(s, turns, i, e);
      adds := e.queued;
    }

    /** The end of `handle`: whether the connection goes on. */
    method Record(input: string, ok: bool) returns (outcome: Outcome)
      modifies this`log
      ensures log == old(log) + [Exchange(input, sent)]
      ensures StateView() == old(StateView()) && AuthObjects() == old(AuthObjects())
      ensures outcome == if !ok then Outcome.IoError
                         else if StateView().Quit? || StateView().Cancelled? then Stop else Continue
    {
      log := log + [Exchange(input, sent)];
      outcome := if !ok then Outcome.IoError else if state.Quit? || state.Cancelled? then Stop else Continue;
    }
  }

  lemma HandleBody(hostname: string, data: DataState, input: string, a: Answers)
    ensures Handle(hostname, Data(data), input, a) == ReceiveData(hostname, data, ReadBody(data, input, a), a)
  {
  }

  /** For the outcome of a body it makes no difference that the session has taken its last piece already. */
  lemma TakenBody(hostname: string, data: DataState, input: string, a: Answers)
    requires ContainsMailEnd(input)
    ensures var taken := data.(mailBody := data.mailBody + input, bodyFinished := true);
            ReceiveData(hostname, taken, WholeBody(taken, taken.mailBody, a), a)
            == ReceiveData(hostname, data, ReadBody(data, input, a), a)
  {
  }

  lemma HandedEffect(hostname: string, data: DataState, h: Handed, a: Answers)
    ensures ReceiveData(hostname, data, Finished(h), a)
         == Say(a, [], if h.result.Success? then Okay else MailboxUnavailable,
                if h.result.Success? then DataComplete else Rcpt(Rollback(hostname, data)))
            .(stored := h.stored, queued := h.queued)
  {
  }

  lemma RunFrom(s: Session, turns: seq<Turn>, i: nat, e: Effect)
    requires i < |turns| && e == Handle(s.hostname, s.state, turns[i].input, turns[i].answers)
    ensures Run(s, turns[i..])
         == if OutcomeOf(e) == Continue then Run(Apply(s, turns[i].input, e), turns[i + 1..])
            else (Apply(s, turns[i].input, e), OutcomeOf(e))
  {
    assert turns[i..][0] == turns[i] && turns[i..][1..] == turns[i + 1..];
  }

  lemma SameSession(after: Session, before: Session, input: string, e: Effect)
    requires after.hostname == before.hostname && after.state == e.next
    requires after.log == before.log + [Exchange(input, e.replies)]
    requires after.stored == before.stored + e.stored && after.queued == before.queued + e.queued
    requires after.logins == before.logins + e.logins
    ensures after == Apply(before, input, e)
  {
  }

  lemma {:induction false} FirstMissingAt(home: nat -> Option<string>, i: nat, n: nat)
    requires i < n && home(i).None? && forall k | 0 <= k < i :: home(k).Some?
    ensures FirstMissing(home, n) == i
  {
    var k := FirstMissing(home, n);
    if n > i + 1 {
      FirstMissingAt(home, i, n - 1);
    }
  }

  lemma {:induction false} FirstRefusedAt(storeOk: nat -> bool, i: nat, n: nat)
    requires i < n && !storeOk(i) && forall k | 0 <= k < i :: storeOk(k)
    ensures FirstRefused(storeOk, n) == i
  {
    var k := FirstRefused(storeOk, n);
    if n > i + 1 {
      FirstRefusedAt(storeOk, i, n - 1);
    }
  }
}
