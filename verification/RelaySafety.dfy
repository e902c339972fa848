/** Whom a session takes mail for, and what it hands to storage and to the outgoing queue. */
module RelaySafety {
  import opened Wrappers
  import opened Addresses
  import opened Commands
  import opened Sasl
  import opened Delivery
  import opened Protocol
  import opened Provenance

  function RecipientsOf(state: State): seq<MailAddress> {
    match state
    case Rcpt(rcpt) => rcpt.recipients
    case Data(data) => data.recipients
    case _ => []
  }

  /** A recipient this server may take: its own domain, or any domain for an authorized user. */
  predicate Permitted(hostname: string, authorized: Option<User>, r: MailAddress) {
    && (r.isLocalResponsibility <==> r.domain == hostname)
    && (r.domain == hostname || authorized.Some?)
  }

  /** A mail queued for other domains only. */
  ghost predicate QueuedRightly(hostname: string, q: QueueAdd) {
    && RemotePart(q.groups, q.envelope.recipients)
    && q.groups != map[]
    && hostname !in q.groups
  }

  predicate StoredRightly(hostname: string, st: Stored) {
    st.recipient in st.envelope.recipients && st.recipient.domain == hostname
  }

  ghost predicate RelaySafe(s: Session) {
    && (s.state.Rcpt? ==> s.state.rcpt.hostname == s.hostname)
    && (forall r | r in RecipientsOf(s.state) :: Permitted(s.hostname, HeldUser(s.state), r))
    && (forall q | q in s.queued :: QueuedRightly(s.hostname, q))
    && (forall st | st in s.stored :: StoredRightly(s.hostname, st))
  }

  /** Which RCPT lines are accepted, what the others are told, and that those change nothing. */
  lemma RcptAcceptedIff(hostname: string, rcpt: RcptState, back: State, line: AddressLine, a: Answers)
    requires a.sendOk(0) && (back == Rcpt(rcpt) || back.Mail?)
    ensures var e := AddRcpt(hostname, rcpt, back, line, a);
            var accepted := line.Parsed? && (line.address.domain == hostname || rcpt.authorized.Some?);
            && JustSaid(e.replies, match line
                                   case Malformed => BadCommand
                                   case NoAddress => InvalidMailbox
                                   case Parsed(_) => if accepted then Okay else Unauthorized)
            && (accepted ==> e.next.Rcpt? && RecipientsOf(e.next) == rcpt.recipients + [line.address]
                             && e.next.rcpt.(recipients := rcpt.recipients) == rcpt)
            && (!accepted ==> e.next == back)
  {
  }

  /** What a delivered mail leaves in storage and queue when its recipients are all permitted. */
  lemma HandedRightly(hostname: string, envelope: Envelope, authorized: Option<User>, a: Answers)
    requires forall r | r in envelope.recipients :: Permitted(hostname, authorized, r)
    ensures var h := DeliverMail(envelope, a.mailboxHome, a.storeOk);
            && (forall q | q in h.queued :: QueuedRightly(hostname, q) && q.envelope == envelope && authorized.Some?)
            && (forall st | st in h.stored :: StoredRightly(hostname, st))
  {
    QueuedIffRemote(envelope, a.mailboxHome, a.storeOk);
    LocalDeliveryIsPrefix(envelope, a.mailboxHome, a.storeOk);
    FilterIn(envelope.recipients, IsLocal());
    var h := DeliverMail(envelope, a.mailboxHome, a.storeOk);
    forall q | q in h.queued
      ensures QueuedRightly(hostname, q)
    {
      if hostname in q.groups {
        HeadIn(q.groups[hostname]);
      }
    }
    forall st | st in h.stored
      ensures StoredRightly(hostname, st)
    {
      var i :| 0 <= i < |h.stored| && h.stored[i] == st;
      assert st.recipient == LocalOf(envelope.recipients)[i];
    }
  }

  /** The recipients after one input: as before, with one permitted recipient more, or none. */
  lemma DispatchRecipients(hostname: string, state: State, r: Reading, a: Answers)
    requires !state.AuthStep? && !(state.Ehlo? && r.verb == Some(AUTH))
    requires state.Rcpt? ==> state.rcpt.hostname == hostname
    requires r.line.Parsed? ==> (r.line.address.isLocalResponsibility <==> r.line.address.domain == hostname)
    ensures var e := Dispatch(hostname, state, r, a);
            && (e.next.Rcpt? ==> e.next.rcpt.hostname == hostname)
            && (forall x | x in RecipientsOf(e.next) ::
                  (x in RecipientsOf(state) && HeldUser(e.next) == HeldUser(state))
                  || Permitted(hostname, HeldUser(e.next), x))
            && (e.queued != [] || e.stored != [] ==>
                  && state.Data? && r.piece.Finished?
                  && e.queued == r.piece.handed.queued && e.stored == r.piece.handed.stored)
  {
  }

  lemma ReadLine(hostname: string, state: State, input: string, a: Answers)
    requires state.Rcpt? ==> state.rcpt.hostname == hostname
    ensures var line := Read(hostname, state, input, a).line;
            line.Parsed? ==> (line.address.isLocalResponsibility <==> line.address.domain == hostname)
  {
  }

  lemma StepRelaySafe(s: Session, input: string, a: Answers)
    requires RelaySafe(s)
    ensures RelaySafe(Step(s, input, a))
  {
    if s.state.AuthStep? {
      AuthStepEnds(s.hostname, s.state.auth, s.state.fromState, a);
      AuthStepHandsNothing(s.hostname, s.state.auth, s.state.fromState, a);
    } else if s.state.Ehlo? && VerbOf(input) == Some(AUTH) {
      InitSaslEnds(s.hostname, s.state.ehlo, a);
      InitSaslHandsNothing(s.hostname, s.state.ehlo, a);
    } else {
      ReadLine(s.hostname, s.state, input, a);
      DispatchRecipients(s.hostname, s.state, Read(s.hostname, s.state, input, a), a);
      if s.state.Data? {
        DataHandsRightly(s, input, a);
      }
    }
  }

  lemma AuthStepHandsNothing(hostname: string, auth: AuthView, from: EhloState, a: Answers)
    ensures HandleAuthStep(hostname, auth, from, a).queued == []
    ensures HandleAuthStep(hostname, auth, from, a).stored == []
  {
  }

  lemma InitSaslHandsNothing(hostname: string, ehlo: EhloState, a: Answers)
    ensures InitSasl(hostname, ehlo, a).queued == [] && InitSasl(hostname, ehlo, a).stored == []
  {
  }

  lemma DataHandsRightly(s: Session, input: string, a: Answers)
    requires RelaySafe(s) && s.state.Data?
    ensures var d := s.state.data;
            var piece := ReadBody(d, input, a);
            piece.Finished? ==>
              && (forall q | q in piece.handed.queued :: OfTransaction(s.hostname, d, q))
              && (forall st | st in piece.handed.stored :: StoredRightly(s.hostname, st))
  {
    var d := s.state.data;
    var piece := ReadBody(d, input, a);
    if piece.Finished? {
      var text :| piece.handed == DeliverMail(Envelope(d.sender, d.recipients, text), a.mailboxHome, a.storeOk);
      assert RecipientsOf(s.state) == d.recipients && HeldUser(s.state) == d.authorized;
      HandedRightly(s.hostname, Envelope(d.sender, d.recipients, text), d.authorized, a);
    }
  }

  /** A mail of transaction `d`, which has an authorized user. */
  ghost predicate OfTransaction(hostname: string, d: DataState, q: QueueAdd) {
    && QueuedRightly(hostname, q)
    && q.envelope.sender == d.sender && q.envelope.recipients == d.recipients
    && d.authorized.Some?
  }

  lemma {:induction false} RunRelaySafe(s: Session, turns: seq<Turn>)
    requires RelaySafe(s)
    ensures RelaySafe(Run(s, turns).0) && Run(s, turns).0.hostname == s.hostname
    decreases |turns|
  {
    if turns != [] {
      StepRelaySafe(s, turns[0].input, turns[0].answers);
      RunRelaySafe(Step(s, turns[0].input, turns[0].answers), turns[1..]);
    }
  }

  // ---------- who queued it ----------

  /**
   Session `s` is about to queue `q` for the authorized user `u`, whose password the database accepted in this
   session; a sender with a local mailbox is that user.
   */
  ghost predicate QueuedFor(s: Session, q: QueueAdd, u: User) {
    && s.state.Data? && OfTransaction(s.hostname, s.state.data, q)
    && HeldUser(s.state) == Some(u)
    && Vouched(s.logins, u)
    && (q.envelope.sender.isLocalMailbox == Some(true) ==> q.envelope.sender.address == u.identity)
  }

  /** Whatever an input makes a session queue, it queues for a user it holds at that moment. */
  lemma StepQueuesFor(s: Session, input: string, a: Answers, q: QueueAdd)
    requires RelaySafe(s) && Accountable(s)
    requires q in Handle(s.hostname, s.state, input, a).queued
    ensures HeldUser(s.state).Some? && QueuedFor(s, q, HeldUser(s.state).value)
  {
    OnlyDataQueues(s.hostname, s.state, Read(s.hostname, s.state, input, a), a);
    DataHandsRightly(s, input, a);
  }

  lemma OnlyDataQueues(hostname: string, state: State, r: Reading, a: Answers)
    ensures Dispatch(hostname, state, r, a).queued != [] ==>
              state.Data? && r.piece.Finished? && Dispatch(hostname, state, r, a).queued == r.piece.handed.queued
  {
    if state.AuthStep? {
      AuthStepHandsNothing(hostname, state.auth, state.fromState, a);
    } else if state.Ehlo? {
      InitSaslHandsNothing(hostname, state.ehlo, a);
    }
  }

  /** Turn `k` of the run queued `q` for user `u`. */
  ghost predicate QueuedAt(hostname: string, turns: seq<Turn>, k: nat, q: QueueAdd, u: User) {
    && k < |turns|
    && var (s, outcome) := Run(Start(hostname), turns[..k]);
       && outcome == Continue
       && q in Handle(s.hostname, s.state, turns[k].input, turns[k].answers).queued
       && QueuedFor(s, q, u)
  }

  ghost predicate QueuedInRun(hostname: string, turns: seq<Turn>, q: QueueAdd) {
    exists k: nat, u: User :: QueuedAt(hostname, turns, k, q, u)
  }

  /** Every mail a run queued was queued by one of its turns, for the user the session held at that turn. */
  lemma {:induction false} QueuedOnlyForUsers(hostname: string, turns: seq<Turn>)
    ensures forall q | q in Run(Start(hostname), turns).0.queued :: QueuedInRun(hostname, turns, q)
  {
    if turns != [] {
      var n := |turns| - 1;
      var (m, outcome) := Run(Start(hostname), turns[..n]);
      QueuedOnlyForUsers(hostname, turns[..n]);
      LastTurn(Start(hostname), turns);
      RunRelaySafe(Start(hostname), turns[..n]);
      RunAccountable(Start(hostname), turns[..n]);
      forall q | q in Run(Start(hostname), turns).0.queued
        ensures QueuedInRun(hostname, turns, q)
      {
        if q in m.queued {
          QueuedEarlier(hostname, turns, q);
        } else {
          StepQueuesFor(m, turns[n].input, turns[n].answers, q);
          assert QueuedAt(hostname, turns, n, q, HeldUser(m.state).value);
        }
      }
    }
  }

  lemma QueuedEarlier(hostname: string, turns: seq<Turn>, q: QueueAdd)
    requires turns != [] && QueuedInRun(hostname, turns[..|turns| - 1], q)
    ensures QueuedInRun(hostname, turns, q)
  {
    var init := turns[..|turns| - 1];
    var k: nat, u: User :| QueuedAt(hostname, init, k, q, u);
    assert init[..k] == turns[..k];
    assert QueuedAt(hostname, turns, k, q, u);
  }

  /**
   In every reachable session each recipient is in the server's own domain or the session has an authorized
   user; whatever was queued has foreign-domain recipients only, and was queued for a user the session held then;
   whatever was stored is for the server's own domain.
   */
  lemma RelayOnlyForUsers(hostname: string, turns: seq<Turn>)
    ensures var s := Run(Start(hostname), turns).0;
            && (forall r | r in RecipientsOf(s.state) :: r.domain == hostname || HeldUser(s.state).Some?)
            && (forall q | q in s.queued :: QueuedInRun(hostname, turns, q) && hostname !in q.groups
                                            && forall d, r | d in q.groups && r in q.groups[d] ::
                                                 r.domain == d != hostname)
            && (forall st | st in s.stored :: st.recipient.domain == hostname)
  {
    RunRelaySafe(Start(hostname), turns);
    QueuedOnlyForUsers(hostname, turns);
  }
}
