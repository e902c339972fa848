/** The client of one server talking to another server: a mail handed over is a mail stored. */
module EndToEnd {
  import opened Wrappers
  import opened Text
  import opened Transparency
  import opened DotStuffing
  import opened Rejection
  import opened Relaying
  import opened Addresses
  import opened Commands
  import opened Delivery
  import opened Protocol
  import opened Bodies
  import opened MxHosts
  import opened Client

  /** What the client reads after the server handled its message: the replies to it, if there were any. */
  function ReadBack(replies: seq<Reply>): Incoming {
    if replies == [] then NoAnswer else Line(WireAll(replies))
  }

  /** A server session as the client's peer; `world(i)` answers during its i-th input. */
  function ServerPeer(world: nat -> Answers): React<Session> {
    (s: Session, msg: string) =>
      var e := Handle(s.hostname, s.state, msg, world(|s.log|));
      (Apply(s, msg, e), ReadBack(e.replies))
  }

  /** `peer` behaves as a server session. */
  ghost predicate IsServer(peer: React<Session>, world: nat -> Answers) {
    forall s: Session, msg: string, e: Effect {:trigger Apply(s, msg, e)} ::
      e == Handle(s.hostname, s.state, msg, world(|s.log|)) ==>
        peer(s, msg) == (Apply(s, msg, e), ReadBack(e.replies))
  }

  lemma ServerPeerIsServer(world: nat -> Answers)
    ensures IsServer(ServerPeer(world), world)
  {
  }

  // ---------- one exchange ----------

  /** A message the server answers with the reply `r`, moving on to `next`. */
  ghost predicate RepliesWith(s: Session, msg: string, a: Answers, r: Reply, next: State) {
    var e := Handle(s.hostname, s.state, msg, a);
    JustSaid(e.replies, r) && e.next == next && e.stored == [] && e.queued == []
  }

  /** The session after an exchange that stored and queued nothing. */
  predicate Advanced(s: Session, t: Session, next: State) {
    && t.hostname == s.hostname
    && t.state == next
    && t.stored == s.stored && t.queued == s.queued
    && |t.log| == |s.log| + 1
  }

  /** One message and what the server makes of it. */
  lemma OneExchange(peer: React<Session>, world: nat -> Answers, sendOk: nat -> bool, s: Session, msg: string,
                    prefix: string, e: Effect, n: nat)
    requires IsServer(peer, world) && e == Handle(s.hostname, s.state, msg, world(|s.log|)) && sendOk(n)
    ensures Converse(peer, sendOk, [(msg, prefix)], s, n)
         == Talk(Judge(ReadBack(e.replies), prefix), Apply(s, msg, e), n + 1)
  {
    var next := Apply(s, msg, e);
    assert peer(s, msg) == (next, ReadBack(e.replies));
    assert [(msg, prefix)][1..] == [];
  }

  lemma OneLine(peer: React<Session>, world: nat -> Answers, sendOk: nat -> bool, s: Session, msg: string,
                prefix: string, r: Reply, next: State, n: nat)
    requires IsServer(peer, world) && RepliesWith(s, msg, world(|s.log|), r, next) && prefix <= r.Wire() && sendOk(n)
    ensures var t := Converse(peer, sendOk, [(msg, prefix)], s, n);
            t.result == Success(()) && t.sent == n + 1 && Advanced(s, t.peer, next)
  {
    var e := Handle(s.hostname, s.state, msg, world(|s.log|));
    WireOne(e.replies, r);
    OneExchange(peer, world, sendOk, s, msg, prefix, e, n);
    QuietApply(s, msg, e);
  }

  lemma QuietApply(s: Session, msg: string, e: Effect)
    requires e.stored == [] && e.queued == []
    ensures Advanced(s, Apply(s, msg, e), e.next)
  {
    assert s.stored + [] == s.stored && s.queued + [] == s.queued;
  }

  lemma WireOne(replies: seq<Reply>, r: Reply)
    requires JustSaid(replies, r)
    ensures ReadBack(replies) == Line(r.Wire())
  {
    var w := r.Wire();
    assert replies[1..] == [];
    assert WireAll(replies) == w + WireAll(replies[1..]) == w;
  }

  // ---------- the steps of the delivery ----------

  /** An address the server `hostname` reads back, if it gets the line with it in one read. */
  predicate Sendable(a: MailAddress, hostname: string) {
    && a.address != "" && '>' !in a.address
    && NewAddress(a.address, hostname).Some?
  }

  /** The address the server `hostname` makes of it. */
  function Received(a: MailAddress, hostname: string): MailAddress
    requires Sendable(a, hostname)
  {
    NewAddress(a.address, hostname).value
  }

  /** The one-line script `line`, answered as expected, takes session `s` to state `next`. */
  ghost predicate Played(peer: React<Session>, sendOk: nat -> bool, s: Session, line: (string, string), n: nat,
                         next: State)
  {
    var t := Converse(peer, sendOk, [line], s, n);
    t.result == Success(()) && t.sent == n + 1 && Advanced(s, t.peer, next)
  }

  function EhloLine(name: string): (string, string) { ("EHLO " + name + CRLF, "250") }
  function SenderLine(sender: MailAddress): (string, string) { (MAIL_KEYWORD + sender.address + ADDRESS_END, "250") }
  function RcptToLine(rcpt: MailAddress): (string, string) { (RCPT_KEYWORD + rcpt.address + ADDRESS_END, "250") }
  function DataLine(): (string, string) { ("DATA" + CRLF, "354") }

  lemma EhloPlayed(peer: React<Session>, world: nat -> Answers, sendOk: nat -> bool, s: Session, name: string, n: nat)
    requires IsServer(peer, world) && AllWilling(world, sendOk) && s.state == Init
    ensures Played(peer, sendOk, s, EhloLine(name), n, Ehlo(EhloState(None)))
  {
    EhloLineVerb(name);
    OneLine(peer, world, sendOk, s, EhloLine(name).0, "250", EhloOkay(s.hostname), Ehlo(EhloState(None)), n);
  }

  function SenderState(sender: MailAddress, hostname: string): MailFromState
    requires Sendable(sender, hostname)
  {
    MailFromState(Received(sender, hostname).(isLocalMailbox := Some(false)), false, None)
  }

  lemma MailPlayed(peer: React<Session>, world: nat -> Answers, sendOk: nat -> bool, s: Session, sender: MailAddress,
                   n: nat)
    requires IsServer(peer, world) && AllWilling(world, sendOk)
    requires s.state == Ehlo(EhloState(None)) && Sendable(sender, s.hostname)
    ensures Played(peer, sendOk, s, SenderLine(sender), n, Mail(SenderState(sender, s.hostname)))
  {
    MailLine(sender.address);
    OneLine(peer, world, sendOk, s, SenderLine(sender).0, "250", Okay, Mail(SenderState(sender, s.hostname)), n);
  }

  lemma RcptPlayed(peer: React<Session>, world: nat -> Answers, sendOk: nat -> bool, s: Session, base: RcptState,
                   rcpt: MailAddress, n: nat)
    requires IsServer(peer, world) && AllWilling(world, sendOk)
    requires s.state == Rcpt(base) || (s.state.Mail? && base == NoRecipients(s.hostname, s.state.mail))
    requires base.hostname == s.hostname
    requires Sendable(rcpt, s.hostname) && Received(rcpt, s.hostname).domain == s.hostname
    ensures Played(peer, sendOk, s, RcptToLine(rcpt), n,
                   Rcpt(base.(recipients := base.recipients + [Received(rcpt, s.hostname)])))
  {
    RcptLine(rcpt.address);
    OneLine(peer, world, sendOk, s, RcptToLine(rcpt).0, "250", Okay,
            Rcpt(base.(recipients := base.recipients + [Received(rcpt, s.hostname)])), n);
  }

  lemma DataPlayed(peer: React<Session>, world: nat -> Answers, sendOk: nat -> bool, s: Session, r: RcptState, n: nat)
    requires IsServer(peer, world) && AllWilling(world, sendOk) && s.state == Rcpt(r)
    ensures Played(peer, sendOk, s, DataLine(), n, Data(NewData(r)))
  {
    DataLineVerb();
    OneLine(peer, world, sendOk, s, DataLine().0, "354", StartInput, Data(NewData(r)), n);
  }

  // ---------- recipients ----------

  function ReceivedAll(rs: seq<MailAddress>, hostname: string): (r: seq<MailAddress>)
    requires forall i | 0 <= i < |rs| :: Sendable(rs[i], hostname)
    ensures |r| == |rs|
    ensures forall i | 0 <= i < |r| :: r[i] == Received(rs[i], hostname)
  {
    seq(|rs|, i requires 0 <= i < |rs| => Received(rs[i], hostname))
  }

  ghost predicate AllLocal(rs: seq<MailAddress>, hostname: string) {
    forall i | 0 <= i < |rs| :: Sendable(rs[i], hostname) && Received(rs[i], hostname).domain == hostname
  }

  /** The world lets the dialogue come to its end: sends succeed, and the sender is nobody's mailbox here. */
  ghost predicate Willing(a: Answers) {
    (forall i: nat :: a.sendOk(i)) && forall i: nat :: !a.isLocal(i)
  }

  ghost predicate AllWilling(world: nat -> Answers, sendOk: nat -> bool) {
    (forall i: nat :: Willing(world(i))) && forall i: nat :: sendOk(i)
  }

  /** It lets everything through: lookups and stores too. */
  ghost predicate Smooth(a: Answers) {
    && Willing(a)
    && (forall i: nat :: a.mailboxHome(i).Some?)
    && (forall i: nat :: a.storeOk(i))
  }

  ghost predicate AllSmooth(world: nat -> Answers, sendOk: nat -> bool) {
    (forall i: nat :: Smooth(world(i))) && forall i: nat :: sendOk(i)
  }

  lemma SmoothIsWilling(world: nat -> Answers, sendOk: nat -> bool)
    requires AllSmooth(world, sendOk)
    ensures AllWilling(world, sendOk) && forall i: nat, n: nat :: !Trouble(world(i), n)
  {
    forall i: nat, n: nat
      ensures !Trouble(world(i), n)
    {
      assert Smooth(world(i));
    }
  }

  lemma {:induction false} RcptsAnswered(peer: React<Session>, world: nat -> Answers, sendOk: nat -> bool, s: Session,
                                         base: RcptState, rs: seq<MailAddress>, n: nat)
    requires IsServer(peer, world) && AllWilling(world, sendOk) && AllLocal(rs, s.hostname) && rs != []
    requires s.state == Rcpt(base) || (s.state.Mail? && base == NoRecipients(s.hostname, s.state.mail))
    requires base.hostname == s.hostname
    ensures RcptsPlayed(Converse(peer, sendOk, RcptScript(rs), s, n), s, base, rs)
    decreases |rs|
  {
    var head, rest := rs[0], rs[1..];
    var more := base.(recipients := base.recipients + [Received(head, s.hostname)]);
    RcptPlayed(peer, world, sendOk, s, base, head, n);
    ConverseConcat(peer, sendOk, [RcptToLine(head)], RcptScript(rest), s, n);
    var t := Converse(peer, sendOk, [RcptToLine(head)], s, n);
    assert RcptScript(rs) == [RcptToLine(head)] + RcptScript(rest);
    if rest == [] {
      assert ReceivedAll(rs, s.hostname) == [Received(head, s.hostname)];
    } else {
      RcptsAnswered(peer, world, sendOk, t.peer, more, rest, t.sent);
      MoreReceived(base, rs, s.hostname);
    }
  }

  /** The session after all recipients `rs` were accepted on top of `base`. */
  ghost predicate RcptsPlayed(t: Talk<Session>, s: Session, base: RcptState, rs: seq<MailAddress>) {
    && AllLocal(rs, s.hostname)
    && t.result == Success(())
    && t.peer.hostname == s.hostname && t.peer.stored == s.stored && t.peer.queued == s.queued
    && |t.peer.log| == |s.log| + |rs|
    && t.peer.state == Rcpt(base.(recipients := base.recipients + ReceivedAll(rs, s.hostname)))
  }

  lemma MoreReceived(base: RcptState, rs: seq<MailAddress>, hostname: string)
    requires rs != [] && AllLocal(rs, hostname)
    ensures var more := base.(recipients := base.recipients + [Received(rs[0], hostname)]);
            more.(recipients := more.recipients + ReceivedAll(rs[1..], hostname))
            == base.(recipients := base.recipients + ReceivedAll(rs, hostname))
  {
    assert ReceivedAll(rs, hostname) == [Received(rs[0], hostname)] + ReceivedAll(rs[1..], hostname);
    Assoc(base.recipients, [Received(rs[0], hostname)], ReceivedAll(rs[1..], hostname));
  }

  // ---------- the body ----------

  lemma {:induction false} AllAreLocal(rs: seq<MailAddress>)
    requires forall i | 0 <= i < |rs| :: rs[i].isLocalResponsibility
    ensures LocalOf(rs) == rs && RemoteOf(rs) == []
  {
    if rs != [] {
      AllAreLocal(rs[..|rs| - 1]);
    }
  }

  /** A mail for local recipients only is queued for nobody, and stored for some first of them, or for all. */
  lemma LocalMailStored(envelope: Envelope, a: Answers)
    requires forall i | 0 <= i < |envelope.recipients| :: envelope.recipients[i].isLocalResponsibility
    ensures var h := DeliverMail(envelope, a.mailboxHome, a.storeOk);
            && h.queued == [] && CopiesOf(h.stored, envelope)
            && (h.result.Success? <==> |h.stored| == |envelope.recipients|)
            && (h.result.Success? <==> !Trouble(a, |envelope.recipients|))
  {
    AllAreLocal(envelope.recipients);
    NoGroups();
    LocalDeliveryIsPrefix(envelope, a.mailboxHome, a.storeOk);
    FailsIffTrouble(envelope, a);
  }

  /** Copies of the mail for its first recipients, in order. */
  predicate CopiesOf(stored: seq<Stored>, mail: Envelope) {
    && |stored| <= |mail.recipients|
    && forall i | 0 <= i < |stored| :: stored[i].envelope == mail && stored[i].recipient == mail.recipients[i]
  }

  /** The dialogue is over with an error, and the other server has nothing to show for it. */
  predicate LeftUndone(t: Talk<Session>, e: ClientError) {
    t.result == Failure(e) && t.peer.state.Data? && t.peer.stored == [] && t.peer.queued == []
  }

  const NOT_TAKEN := "450" + " " + "Requested mail action not taken: mailbox unavailable" + "\r\n"

  /** The client was told that the mail was not taken; some of the first recipients have it all the same. */
  predicate LeftHalfDone(t: Talk<Session>, mail: Envelope) {
    && t.result == Failure(SmtpError(NOT_TAKEN))
    && t.peer.state.Rcpt? && t.peer.queued == []
    && |t.peer.stored| < |mail.recipients| && CopiesOf(t.peer.stored, mail)
  }

  /**
   How a dialogue ends, for any body: in silence if no end is seen in it, with the reply to a body that is refused, with
   an error if a lookup or a store fails, or with the decoded mail stored once per recipient.
   */
  ghost predicate EndsFor(t: Talk<Session>, sender: MailAddress, recipients: seq<MailAddress>, body: string, a: Answers)
  {
    if !ContainsMailEnd(body) then LeftUndone(t, Timeout)
    else match Decoded(body)
      case Failure(e) => LeftUndone(t, SmtpError(SyntaxReply(e).Wire()))
      case Success(text) =>
        var mail := Envelope(sender, recipients, text);
        if Trouble(a, |recipients|) then LeftHalfDone(t, mail) else DeliveredAs(t, mail, |recipients|)
  }

  /** The last message of the delivery: the body in one piece. */
  lemma BodyAnswered(peer: React<Session>, world: nat -> Answers, sendOk: nat -> bool, s: Session, d: DataState,
                     body: string, n: nat)
    requires IsServer(peer, world) && AllWilling(world, sendOk) && s.state == Data(d) && d.mailBody == ""
    requires s.stored == [] && s.queued == []
    requires forall i | 0 <= i < |d.recipients| :: d.recipients[i].isLocalResponsibility
    ensures EndsFor(Converse(peer, sendOk, [(body, "250")], s, n), d.sender, d.recipients, body, world(|s.log|))
  {
    var a := world(|s.log|);
    var e := Handle(s.hostname, s.state, body, a);
    OneExchange(peer, world, sendOk, s, body, "250", e, n);
    if !ContainsMailEnd(body) {
      BodyWaits(s, d, body, a, e, n);
    } else if Decoded(body).Failure? {
      BodyRefused(s, d, body, a, e, n);
    } else {
      BodyTaken(s, d, body, Decoded(body).value, a, e, n);
    }
  }

  lemma BodyWaits(s: Session, d: DataState, body: string, a: Answers, e: Effect, n: nat)
    requires e == Handle(s.hostname, s.state, body, a) && s.state == Data(d) && !ContainsMailEnd(body)
    requires s.stored == [] && s.queued == []
    ensures LeftUndone(Talk(Judge(ReadBack(e.replies), "250"), Apply(s, body, e), n + 1), Timeout)
  {
  }

  lemma BodyRefused(s: Session, d: DataState, body: string, a: Answers, e: Effect, n: nat)
    requires e == Handle(s.hostname, s.state, body, a) && s.state == Data(d) && d.mailBody == "" && a.sendOk(0)
    requires ContainsMailEnd(body) && Decoded(body).Failure?
    requires s.stored == [] && s.queued == []
    ensures LeftUndone(Talk(Judge(ReadBack(e.replies), "250"), Apply(s, body, e), n + 1),
                       SmtpError(SyntaxReply(Decoded(body).error).Wire()))
  {
    assert "" + body == body;
    RejectedBodyRestarts(s.hostname, d, body, a);
    NoGo(s, body, e, Decoded(body).error, n);
  }

  lemma NoGo(s: Session, body: string, e: Effect, error: TransparencySyntaxError, n: nat)
    requires e.next.Data? && JustSaid(e.replies, SyntaxReply(error)) && e.stored == [] && e.queued == []
    requires s.stored == [] && s.queued == []
    ensures LeftUndone(Talk(Judge(ReadBack(e.replies), "250"), Apply(s, body, e), n + 1),
                       SmtpError(SyntaxReply(error).Wire()))
  {
    WireOne(e.replies, SyntaxReply(error));
    SyntaxIsNot250(error);
  }

  lemma SyntaxIsNot250(error: TransparencySyntaxError)
    ensures !("250" <= SyntaxReply(error).Wire())
  {
    assert SyntaxReply(error).Wire()[0] == "500"[0] != "250"[0];
  }

  lemma BodyTaken(s: Session, d: DataState, body: string, text: string, a: Answers, e: Effect, n: nat)
    requires e == Handle(s.hostname, s.state, body, a) && s.state == Data(d) && d.mailBody == "" && a.sendOk(0)
    requires s.stored == [] && s.queued == []
    requires forall i | 0 <= i < |d.recipients| :: d.recipients[i].isLocalResponsibility
    requires ContainsMailEnd(body) && Decoded(body) == Success(text)
    ensures var t := Talk(Judge(ReadBack(e.replies), "250"), Apply(s, body, e), n + 1);
            var mail := Envelope(d.sender, d.recipients, text);
            if Trouble(a, |d.recipients|) then LeftHalfDone(t, mail) else DeliveredAs(t, mail, |d.recipients|)
  {
    var mail := Envelope(d.sender, d.recipients, text);
    var h := DeliverMail(mail, a.mailboxHome, a.storeOk);
    LocalMailStored(mail, a);
    BodyRead(d, body, text, a);
    BodyEffect(s.hostname, d, body, a, h);
    TakenTalk(s, body, e, h, mail, n);
  }

  lemma TakenTalk(s: Session, body: string, e: Effect, h: Handed, mail: Envelope, n: nat)
    requires s.stored == [] && s.queued == []
    requires e.stored == h.stored && e.queued == h.queued == [] && CopiesOf(h.stored, mail)
    requires h.result.Success? <==> |h.stored| == |mail.recipients|
    requires if h.result.Success? then e.next == DataComplete && JustSaid(e.replies, Okay)
             else e.next.Rcpt? && JustSaid(e.replies, MailboxUnavailable)
    ensures var t := Talk(Judge(ReadBack(e.replies), "250"), Apply(s, body, e), n + 1);
            if h.result.Success? then DeliveredAs(t, mail, |mail.recipients|) else LeftHalfDone(t, mail)
  {
    WireOne(e.replies, if h.result.Success? then Okay else MailboxUnavailable);
    assert [] + e.stored == e.stored;
    assert NOT_TAKEN[0] == "450"[0] != "250"[0];
  }

  lemma BodyRead(d: DataState, body: string, text: string, a: Answers)
    requires d.mailBody == "" && ContainsMailEnd(body) && Decoded(body) == Success(text)
    ensures ReadBody(d, body, a)
         == Finished(DeliverMail(Envelope(d.sender, d.recipients, text), a.mailboxHome, a.storeOk))
  {
    assert "" + body == body;
  }

  lemma BodyEffect(hostname: string, d: DataState, body: string, a: Answers, h: Handed)
    requires ReadBody(d, body, a) == Finished(h) && a.sendOk(0)
    ensures var e := Handle(hostname, Data(d), body, a);
            && e.stored == h.stored && e.queued == h.queued
            && if h.result.Success? then e.next == DataComplete && JustSaid(e.replies, Okay)
               else e.next.Rcpt? && JustSaid(e.replies, MailboxUnavailable)
  {
  }

  // ---------- the theorem ----------

  /** The mail the other server ends up with. */
  function Arrived(envelope: Envelope, recipients: seq<MailAddress>, hostname: string, text: string): Envelope
    requires Sendable(envelope.sender, hostname)
    requires forall i | 0 <= i < |recipients| :: Sendable(recipients[i], hostname)
  {
    Envelope(SenderState(envelope.sender, hostname).sender, ReceivedAll(recipients, hostname), text)
  }

  /** What is left at the other server when the dialogue is over. */
  ghost predicate DeliveredAs(t: Talk<Session>, mail: Envelope, count: nat) {
    && t.result == Success(())
    && t.peer.state == DataComplete
    && t.peer.queued == []
    && |t.peer.stored| == count == |mail.recipients|
    && forall i | 0 <= i < count ::
         t.peer.stored[i].envelope == mail && t.peer.stored[i].recipient == mail.recipients[i]
  }

  /** The greeting and the sender. */
  lemma Opened(peer: React<Session>, world: nat -> Answers, sendOk: nat -> bool, name: string, s: Session,
               sender: MailAddress)
    requires IsServer(peer, world) && AllWilling(world, sendOk)
    requires s == Start(s.hostname) && Sendable(sender, s.hostname)
    ensures var t := Converse(peer, sendOk, [EhloLine(name), SenderLine(sender)], s, 0);
            && t.result == Success(()) && t.sent == 2
            && t.peer.hostname == s.hostname && t.peer.stored == [] && t.peer.queued == [] && |t.peer.log| == 2
            && t.peer.state == Mail(SenderState(sender, s.hostname))
  {
    EhloPlayed(peer, world, sendOk, s, name, 0);
    var t := Converse(peer, sendOk, [EhloLine(name)], s, 0);
    MailPlayed(peer, world, sendOk, t.peer, sender, 1);
    ConverseConcat(peer, sendOk, [EhloLine(name)], [SenderLine(sender)], s, 0);
    assert [EhloLine(name)] + [SenderLine(sender)] == [EhloLine(name), SenderLine(sender)];
  }

  /** The greeting, the sender and the recipients. */
  lemma Addressed(peer: React<Session>, world: nat -> Answers, sendOk: nat -> bool, name: string, s: Session,
                  sender: MailAddress, rs: seq<MailAddress>)
    requires IsServer(peer, world) && AllWilling(world, sendOk) && s == Start(s.hostname)
    requires Sendable(sender, s.hostname) && rs != [] && AllLocal(rs, s.hostname)
    ensures var t := Converse(peer, sendOk, [EhloLine(name), SenderLine(sender)] + RcptScript(rs), s, 0);
            && t.result == Success(()) && |t.peer.log| == |rs| + 2
            && t.peer.stored == [] && t.peer.queued == [] && t.peer.state.Rcpt?
            && t.peer.state.rcpt.sender == SenderState(sender, s.hostname).sender
            && t.peer.state.rcpt.recipients == ReceivedAll(rs, s.hostname)
  {
    var opening := [EhloLine(name), SenderLine(sender)];
    Opened(peer, world, sendOk, name, s, sender);
    var t := Converse(peer, sendOk, opening, s, 0);
    RcptsAnswered(peer, world, sendOk, t.peer, NoRecipients(s.hostname, t.peer.state.mail), rs, 2);
    ConverseConcat(peer, sendOk, opening, RcptScript(rs), s, 0);
    assert [] + ReceivedAll(rs, s.hostname) == ReceivedAll(rs, s.hostname);
  }

  /** DATA and the body. */
  lemma Closed(peer: React<Session>, world: nat -> Answers, sendOk: nat -> bool, s: Session, r: RcptState, body: string,
               n: nat)
    requires IsServer(peer, world) && AllWilling(world, sendOk) && s.state == Rcpt(r)
    requires s.stored == [] && s.queued == []
    requires forall i | 0 <= i < |r.recipients| :: r.recipients[i].isLocalResponsibility
    ensures EndsFor(Converse(peer, sendOk, [DataLine(), (body, "250")], s, n), r.sender, r.recipients, body,
                    world(|s.log| + 1))
  {
    DataPlayed(peer, world, sendOk, s, r, n);
    var t := Converse(peer, sendOk, [DataLine()], s, n);
    BodyAnswered(peer, world, sendOk, t.peer, NewData(r), body, t.sent);
    ConverseConcat(peer, sendOk, [DataLine()], [(body, "250")], s, n);
    assert [DataLine()] + [(body, "250")] == [DataLine(), (body, "250")];
  }

  /**
   The whole dialogue with a server session, for any body: all recipients are accepted, and it ends as the body and the
   other server's lookups and stores demand.
   */
  lemma DialogueWithServer(peer: React<Session>, world: nat -> Answers, sendOk: nat -> bool, name: string,
                           hostname: string, envelope: Envelope, recipients: seq<MailAddress>)
    requires IsServer(peer, world) && AllWilling(world, sendOk)
    requires Sendable(envelope.sender, hostname)
    requires recipients != [] && AllLocal(recipients, hostname)
    ensures EndsFor(Converse(peer, sendOk, DeliveryScript(name, envelope, recipients), Start(hostname), 0),
                    SenderState(envelope.sender, hostname).sender, ReceivedAll(recipients, hostname), envelope.body,
                    world(|recipients| + 3))
  {
    var s := Start(hostname);
    var opening := [EhloLine(name), SenderLine(envelope.sender)] + RcptScript(recipients);
    var closing := [DataLine(), (envelope.body, "250")];
    Addressed(peer, world, sendOk, name, s, envelope.sender, recipients);
    var t := Converse(peer, sendOk, opening, s, 0);
    Closed(peer, world, sendOk, t.peer, t.peer.state.rcpt, envelope.body, t.sent);
    ConverseConcat(peer, sendOk, opening, closing, s, 0);
  }

  /**
   Client against server.  A mail for at least one recipient of the other server's own domain, from a sender
   without a mailbox there, with a body that arrives in one piece, is complete and decodes: the client's
   dialogue succeeds, and the other server stores the mail once for each recipient, in order, with the same
   sender, the same recipients and the decoded body, and queues nothing.
   */
  lemma Delivered(world: nat -> Answers, sendOk: nat -> bool, name: string, hostname: string, envelope: Envelope,
                  recipients: seq<MailAddress>, text: string)
    requires AllSmooth(world, sendOk)
    requires Sendable(envelope.sender, hostname)
    requires recipients != [] && AllLocal(recipients, hostname)
    requires ContainsMailEnd(envelope.body) && Decoded(envelope.body) == Success(text)
    ensures var script := DeliveryScript(name, envelope, recipients);
            var t := Converse(ServerPeer(world), sendOk, script, Start(hostname), 0);
            var mail := Arrived(envelope, recipients, hostname, text);
            && DeliveredAs(t, mail, |recipients|)
            && mail.sender.address == envelope.sender.address
            && AddressTexts(mail.recipients) == AddressTexts(recipients)
            && mail.body == text
  {
    ServerPeerIsServer(world);
    SmoothIsWilling(world, sendOk);
    DialogueWithServer(ServerPeer(world), world, sendOk, name, hostname, envelope, recipients);
  }

  /**
   The same for a message given by its lines: what the author wrote, dot-stuffed by a conforming sender, is
   what the other server stores.
   */
  lemma LinesDelivered(world: nat -> Answers, sendOk: nat -> bool, name: string, hostname: string, envelope: Envelope,
                       recipients: seq<MailAddress>, lines: seq<string>)
    requires AllSmooth(world, sendOk)
    requires Sendable(envelope.sender, hostname)
    requires recipients != [] && AllLocal(recipients, hostname)
    requires lines != [] && AllNoCrlf(lines) && envelope.body == Render(WireLines(lines))
    ensures var script := DeliveryScript(name, envelope, recipients);
            var t := Converse(ServerPeer(world), sendOk, script, Start(hostname), 0);
            DeliveredAs(t, Arrived(envelope, recipients, hostname, PlainBody(lines)), |recipients|)
  {
    RoundTrip(lines);
    StuffedLines(lines);
    assert WireLines(lines)[|lines|] == ".";
    DetectsDotLine(WireLines(lines));
    Delivered(world, sendOk, name, hostname, envelope, recipients, PlainBody(lines));
  }

  /**
   How a dialogue ends for any body, told from its lines: in silence without a dot line, or with only one line; with
   the reply 500 for a stray dot line; and else with the mail stored once per recipient, its lines stripped once more.
   The mail arrives as it was sent exactly if its end is all that begins with a dot.
   */
  ghost predicate RelayEnds(t: Talk<Session>, envelope: Envelope, recipients: seq<MailAddress>, hostname: string)
    requires Sendable(envelope.sender, hostname) && AllLocal(recipients, hostname)
  {
    var lines := Lines(envelope.body);
    && (if |lines| < 2 || "." !in lines then LeftUndone(t, Timeout)
        else if HasStrayDot(lines) then LeftUndone(t, SmtpError(UnexpectedEnd.Wire()))
        else DeliveredAs(t, Arrived(envelope, recipients, hostname, RelayedText(lines)), |recipients|))
    && (DeliveredAs(t, Arrived(envelope, recipients, hostname, envelope.body), |recipients|) <==> SurvivesRelay(lines))
  }

  lemma EndsByLines(t: Talk<Session>, envelope: Envelope, recipients: seq<MailAddress>, hostname: string, a: Answers)
    requires Sendable(envelope.sender, hostname) && AllLocal(recipients, hostname) && recipients != [] && Smooth(a)
    requires EndsFor(t, SenderState(envelope.sender, hostname).sender, ReceivedAll(recipients, hostname), envelope.body,
                     a)
    ensures RelayEnds(t, envelope, recipients, hostname)
  {
    EndSeenInText(envelope.body);
    UnchangedIff(envelope.body);
    if ContainsMailEnd(envelope.body) {
      BodyDecoded(envelope.body);
      if Decoded(envelope.body).Success? {
        OneMailArrives(t, envelope, recipients, hostname, Decoded(envelope.body).value);
      }
    }
  }

  /** A dialogue leaves one mail, so it is the mail sent only if the texts are the same. */
  lemma OneMailArrives(t: Talk<Session>, envelope: Envelope, recipients: seq<MailAddress>, hostname: string,
                       text: string)
    requires Sendable(envelope.sender, hostname) && AllLocal(recipients, hostname) && recipients != []
    requires DeliveredAs(t, Arrived(envelope, recipients, hostname, text), |recipients|)
    ensures DeliveredAs(t, Arrived(envelope, recipients, hostname, envelope.body), |recipients|)
            <==> text == envelope.body
  {
    assert t.peer.stored[0].envelope.body == text;
  }

  /** The second hop: any body sent on as it is, in a dialogue with a server session. */
  lemma RelayedBody(world: nat -> Answers, sendOk: nat -> bool, name: string, hostname: string, envelope: Envelope,
                    recipients: seq<MailAddress>)
    requires AllSmooth(world, sendOk)
    requires Sendable(envelope.sender, hostname)
    requires recipients != [] && AllLocal(recipients, hostname)
    ensures var script := DeliveryScript(name, envelope, recipients);
            RelayEnds(Converse(ServerPeer(world), sendOk, script, Start(hostname), 0), envelope, recipients, hostname)
  {
    ServerPeerIsServer(world);
    SmoothIsWilling(world, sendOk);
    DialogueWithServer(ServerPeer(world), world, sendOk, name, hostname, envelope, recipients);
    EndsByLines(Converse(ServerPeer(world), sendOk, DeliveryScript(name, envelope, recipients), Start(hostname), 0),
                envelope, recipients, hostname, world(|recipients| + 3));
  }

  // ---------- the client object ----------

  /** The farewell ends the session, and changes nothing that was stored or queued. */
  lemma FarewellKeeps(peer: React<Session>, world: nat -> Answers, s: Session)
    requires IsServer(peer, world) && s.state == DataComplete
    ensures var t := peer(s, QUIT_LINE).0;
            t.state == Quit && t.stored == s.stored && t.queued == s.queued
  {
    var e := Handle(s.hostname, s.state, QUIT_LINE, world(|s.log|));
    var next := Apply(s, QUIT_LINE, e);
    assert peer(s, QUIT_LINE) == (next, ReadBack(e.replies));
    FarewellEffect(s.hostname, world(|s.log|));
    assert s.stored + [] == s.stored && s.queued + [] == s.queued;
  }

  lemma FarewellEffect(hostname: string, a: Answers)
    ensures var e := Handle(hostname, DataComplete, QUIT_LINE, a);
            e.next == Quit && e.stored == [] && e.queued == []
  {
    QuitLineVerb();
  }

  /** `SmtpClient::run` against the other server, farewell included. */
  method RelayMail(world: nat -> Answers, sendOk: nat -> bool, name: string, hostname: string, envelope: Envelope,
                   recipients: seq<MailAddress>, ghost text: string)
    returns (r: Result<(), ClientError>, conn: Connection<Session>)
    requires AllSmooth(world, sendOk)
    requires Sendable(envelope.sender, hostname)
    requires recipients != [] && AllLocal(recipients, hostname)
    requires ContainsMailEnd(envelope.body) && Decoded(envelope.body) == Success(text)
    ensures r == Success(())
    ensures var mail := Arrived(envelope, recipients, hostname, text);
            && conn.peer.state == Quit && conn.peer.queued == [] && |conn.peer.stored| == |recipients|
            && forall i | 0 <= i < |recipients| ::
                 conn.peer.stored[i].envelope == mail && conn.peer.stored[i].recipient == mail.recipients[i]
  {
    conn := new Connection(ServerPeer(world), sendOk, Start(hostname));
    ServerPeerIsServer(world);
    SmoothIsWilling(world, sendOk);
    DialogueWithServer(ServerPeer(world), world, sendOk, name, hostname, envelope, recipients);
    ghost var t := Converse(conn.react, sendOk, DeliveryScript(name, envelope, recipients), Start(hostname), 0);
    FarewellKeeps(conn.react, world, t.peer);
    r := RunClient(conn, name, envelope, recipients);
  }
}
