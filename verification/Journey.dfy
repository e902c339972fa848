/**
 The whole way of a mail: submitted in a session, queued, fired, and brought by the client to the server of the
 recipients' domain.
 */
module Journey {
  import opened Wrappers
  import opened Text
  import opened Transparency
  import opened DotStuffing
  import opened Segmentation
  import opened Rejection
  import opened Relaying
  import opened Addresses
  import opened AddressLines
  import opened Delivery
  import opened OutgoingQueue
  import opened Protocol
  import opened RelaySafety
  import opened Bodies
  import opened Completion
  import opened MxHosts
  import opened EndToEnd
  import C = Client
  import P = Process

  lemma RecognizedIsSendable(a: MailAddress, hostname: string)
    requires Recognized(a)
    ensures Sendable(a, hostname) && Received(a, hostname).domain == a.domain
  {
  }

  // ---------- from the queue to the peer ----------

  /** The search for a mail exchanger of `domain` ends at a server of that name, which lets everything through. */
  ghost predicate LeadsToServer(net: C.Network<Session>, domain: string, world: nat -> Answers) {
    && Found(net.lookup(domain), net.connect).Success?
    && net.session(Found(net.lookup(domain), net.connect).value) == Start(domain)
    && IsServer(net.react, world)
    && AllSmooth(world, net.sendOk)
  }

  /** The dialogue for the group of domain `there` of a queued mail, with the server of that domain. */
  lemma GroupReachesPeer(here: string, q: QueueAdd, there: string, net: C.Network<Session>, world: nat -> Answers)
    requires QueuedRightly(here, q) && there in q.groups
    requires Recognized(q.envelope.sender) && forall r | r in q.envelope.recipients :: Recognized(r)
    requires LeadsToServer(net, there, world)
    ensures q.groups[there] != [] && Sendable(q.envelope.sender, there) && AllLocal(q.groups[there], there)
    ensures var d := C.Dialogue(net, here, q.envelope, q.groups[there]);
            d.Success? && RelayEnds(d.value, q.envelope, q.groups[there], there)
  {
    var group := q.groups[there];
    RecognizedIsSendable(q.envelope.sender, there);
    forall i | 0 <= i < |group|
      ensures Sendable(group[i], there) && Received(group[i], there).domain == there
    {
      assert group[i] in group;
      RecognizedIsSendable(group[i], there);
    }
    assert group[0] in group;
    SmoothIsWilling(world, net.sendOk);
    DialogueWithServer(net.react, world, net.sendOk, here, there, q.envelope, group);
    EndsByLines(C.Dialogue(net, here, q.envelope, group).value, q.envelope, group, there,
                world(|group| + 3));
  }

  /**
   Every delivery the process ever attempts, after any sequence of clients: if the search for an exchanger leads to
   the server of the recipients' domain, that server takes sender and recipients, and the dialogue ends as the lines
   of the stored body demand: in silence, with a refusal, or with the mail stored once for each recipient.
   */
  lemma AttemptReachesPeer<V>(here: string, visits: seq<P.Visit<V>>, h: History, t: Attempt, net: C.Network<Session>,
                              world: nat -> Answers)
    requires P.QueueTraced(here, visits, h) && t in h.attempts
    requires t.recipients != [] && LeadsToServer(net, t.recipients[0].domain, world)
    ensures var there := t.recipients[0].domain;
            && Sendable(t.envelope.sender, there) && AllLocal(t.recipients, there)
            && var d := C.Dialogue(net, here, t.envelope, t.recipients);
               d.Success? && RelayEnds(d.value, t.envelope, t.recipients, there)
  {
    P.AttemptsAreAuthorized(here, visits, h, t);
    var c, k: nat, q, u :| c in visits && P.AttemptFor(here, c, k, q, u, t);
    assert QueuedInRun(here, c.turns, q);
    QueuedIsRecognized(here, c.turns, q);
    GroupReachesPeer(here, q, t.recipients[0].domain, net, world);
  }

  /** What the queue learns of a delivery, by the lines of the body: a timeout, the refusal as read, or success. */
  ghost predicate Reported(r: Result<(), RemoteDeliveryError>, lines: seq<string>) {
    if |lines| < 2 || "." !in lines then r == Failure(RemoteDeliveryError.Timeout)
    else if HasStrayDot(lines) then r == Failure(RemoteDeliveryError.SmtpError(UnexpectedEnd.Wire()))
    else r == Success(())
  }

  lemma RelayReported(t: C.Talk<Session>, envelope: Envelope, group: seq<MailAddress>, there: string)
    requires Sendable(envelope.sender, there) && AllLocal(group, there) && RelayEnds(t, envelope, group, there)
    ensures Reported(if t.result.Failure? then Failure(RemoteError(t.result.error)) else Success(()),
                     Lines(envelope.body))
  {
  }

  /** The report a fire makes of the i-th group of an entry made of a mail that a run queued. */
  lemma FireReports(here: string, turns: seq<Turn>, q: QueueAdd, e: Entry, i: nat, nets: nat -> C.Network<Session>,
                    world: nat -> Answers)
    requires QueuedInRun(here, turns, q) && EntryFor(e, q) && GoodEntry(e) && i < |e.rcptGroups|
    requires e.rcptGroups[i] != [] && LeadsToServer(nets(i), e.rcptGroups[i][0].domain, world)
    ensures Reported(Results(nets, here, e)[i], Lines(q.envelope.body))
  {
    var group := e.rcptGroups[i];
    var there := group[0].domain;
    QueuedIsRecognized(here, turns, q);
    EnumeratedIsWellGrouped(e.rcptGroups, q.groups);
    assert group in e.rcptGroups;
    GroupReachesPeer(here, q, there, nets(i), world);
    RelayReported(C.Dialogue(nets(i), here, q.envelope, group).value, q.envelope, group, there);
  }

  // ---------- from the author to the peer ----------

  /**
   The whole way of any body.  In any session that has come to DATA, pieces arrive, in the last of which an end is
   seen, and together they decode to `text`.  Every mail this queues was queued for a user the session held.  For each
   of its groups, if the search for an exchanger leads to the server of that domain, the dialogue ends as the lines of
   `text` demand; and the mail is lost in silence exactly if the text received has neither a terminator line at its
   end nor anything else that shows an end when stored.
   */
  lemma BodyTravels(here: string, before: seq<Turn>, d: DataState, pieces: seq<string>, answers: nat -> Answers,
                    text: string, q: QueueAdd, there: string, net: C.Network<Session>, world: nat -> Answers)
    requires var (s, outcome) := Run(Start(here), before);
             outcome == Continue && s.state == Data(d) && d.mailBody == ""
    requires pieces != [] && FirstEnd(pieces) == |pieces| - 1 && Decoded(Flatten(pieces)) == Success(text)
    requires q in HandedAs(d, text, answers(|pieces| - 1)).queued && there in q.groups
    requires LeadsToServer(net, there, world)
    ensures var turns := before + PieceTurns(pieces, answers);
            q in Run(Start(here), turns).0.queued && QueuedInRun(here, turns, q)
    ensures q.envelope == Envelope(d.sender, d.recipients, text)
    ensures q.groups[there] != [] && Sendable(q.envelope.sender, there) && AllLocal(q.groups[there], there)
    ensures var t := C.Dialogue(net, here, q.envelope, q.groups[there]);
            && t.Success? && RelayEnds(t.value, q.envelope, q.groups[there], there)
            && (t.value.result == Failure(ClientError.Timeout)
                <==> !EndsInTerminator(Lines(Flatten(pieces))) && !OpenShowsEnd(Lines(Flatten(pieces))))
  {
    var s := Run(Start(here), before).0;
    var turns := before + PieceTurns(pieces, answers);
    PiecesThenEnd(s, d, pieces, answers, text);
    RunSplit(Start(here), before, PieceTurns(pieces, answers));
    assert q in Run(Start(here), turns).0.queued;
    QueuedOnlyForUsers(here, turns);
    QueuedIsRecognized(here, turns, q);
    QueuedMail(d, text, answers(|pieces| - 1), q);
    GroupReachesPeer(here, q, there, net, world);
    SeenIsLong(pieces);
    StoredShowsEndIff(Flatten(pieces), text);
    EndSeenInText(text);
  }

  lemma QueuedMail(d: DataState, text: string, a: Answers, q: QueueAdd)
    requires q in HandedAs(d, text, a).queued
    ensures q.envelope == Envelope(d.sender, d.recipients, text)
  {
  }

  lemma SeenIsLong(pieces: seq<string>)
    requires pieces != [] && ContainsMailEnd(pieces[|pieces| - 1])
    ensures |Flatten(pieces)| >= 3
  {
    var n := |pieces| - 1;
    assert pieces == pieces[..n] + [pieces[n]];
    FlattenSnoc(pieces[..n], pieces[n]);
  }

  /**
   The whole way of a message given by its lines, dot-stuffed, safely cut and sent: the other server stores it once for
   each recipient of the group, with one leading dot gone from each line that has one; or it refuses the mail, exactly
   if a line but the first is a single dot with an undotted line after it.
   */
  lemma LinesTravel(here: string, before: seq<Turn>, d: DataState, lines: seq<string>, pieces: seq<string>,
                    answers: nat -> Answers, q: QueueAdd, there: string, net: C.Network<Session>, world: nat -> Answers)
    requires var (s, outcome) := Run(Start(here), before);
             outcome == Continue && s.state == Data(d) && d.mailBody == ""
    requires lines != [] && AllNoCrlf(lines)
    requires pieces != [] && Flatten(pieces) == Render(WireLines(lines)) && SafelyCut(WireLines(lines), pieces)
    requires q in HandedAs(d, PlainBody(lines), answers(|pieces| - 1)).queued && there in q.groups
    requires LeadsToServer(net, there, world)
    ensures var turns := before + PieceTurns(pieces, answers);
            q in Run(Start(here), turns).0.queued && QueuedInRun(here, turns, q)
    ensures q.groups[there] != [] && Sendable(q.envelope.sender, there) && AllLocal(q.groups[there], there)
    ensures var group := q.groups[there];
            var t := C.Dialogue(net, here, q.envelope, group);
            && t.Success?
            && if Unrelayable(lines) then LeftUndone(t.value, ClientError.SmtpError(UnexpectedEnd.Wire()))
               else DeliveredAs(t.value, Arrived(q.envelope, group, there, PlainBody(StripAll(lines))), |group|)
  {
    StuffedIsTerminated(lines);
    EndSeenIff(WireLines(lines), pieces);
    RoundTrip(lines);
    BodyTravels(here, before, d, pieces, answers, PlainBody(lines), q, there, net, world);
    PlainBodyShowsEnd(lines);
    StoredBodyDecoded(lines);
    BodyDecoded(PlainBody(lines));
    EndSeenInText(PlainBody(lines));
  }

  /**
   A mail that is lost: the piece `.` CRLF `foo` after DATA is accepted and queued, and when the queue has let go of it
   the other server never answers.
   */
  lemma MailLost(here: string, before: seq<Turn>, d: DataState, a: Answers, q: QueueAdd, there: string,
                 net: C.Network<Session>, world: nat -> Answers)
    requires var (s, outcome) := Run(Start(here), before);
             outcome == Continue && s.state == Data(d) && d.mailBody == ""
    requires q in HandedAs(d, "\r\nfoo.", a).queued && there in q.groups && LeadsToServer(net, there, world)
    ensures q in Run(Start(here), before + PieceTurns([TERMINATOR + "foo"], _ => a)).0.queued
    ensures q.groups[there] != []
    ensures var t := C.Dialogue(net, here, q.envelope, q.groups[there]);
            t.Success? && LeftUndone(t.value, ClientError.Timeout)
  {
    LostText();
    FlattenOne(TERMINATOR + "foo");
    BodyTravels(here, before, d, [TERMINATOR + "foo"], _ => a, "\r\nfoo.", q, there, net, world);
    EndSeenInText("\r\nfoo.");
  }

  // ---------- no recipient is lost ----------

  /** Recipient `r` of `mail` has a copy in session `s`, or its group was attempted, or is still in the queue. */
  ghost predicate Kept(s: Session, h: History, mail: Envelope, r: MailAddress) {
    if r.domain == s.hostname
    then exists st :: st in s.stored && st.envelope == mail && st.recipient == r
    else exists t: Attempt :: (t in h.attempts || t in Pending(h.entries)) && t.envelope == mail && r in t.recipients
  }

  /**
   Over any sequence of clients: whenever a session came to DATACOMPLETE, by turn `k`, every recipient it had answered
   250 has its copy of the decoded mail, or the delivery to its group was attempted, or its group is still in the queue.
   */
  lemma NoRecipientLost<V>(here: string, visits: seq<P.Visit<V>>, h: History, all: seq<Entry>, c: P.Visit<V>, k: nat)
    requires P.MadeOf(all, P.AllMails(here, visits)) && P.Conserved(h, all)
    requires c in visits && c.greeted && k < |c.turns|
    requires Run(Start(here), c.turns[..k] + [c.turns[k]]).0.state == DataComplete
    ensures exists mail :: Completed(here, c.turns[..k], c.turns[k], mail)
                           && AllKept(Run(Start(here), c.turns[..k] + [c.turns[k]]).0, h, mail)
  {
    AcceptedAreCovered(here, c.turns[..k], c.turns[k]);
    var s := Run(Start(here), c.turns[..k] + [c.turns[k]]).0;
    var mail :| Completed(here, c.turns[..k], c.turns[k], mail);
    QueuedGrows(Start(here), c.turns, k);
    KeptByQueue(here, visits, h, all, c, s, mail);
  }

  ghost predicate AllKept(s: Session, h: History, mail: Envelope) {
    forall r | r in mail.recipients :: Kept(s, h, mail, r)
  }

  lemma KeptByQueue<V>(here: string, visits: seq<P.Visit<V>>, h: History, all: seq<Entry>, c: P.Visit<V>, s: Session,
                       mail: Envelope)
    requires P.MadeOf(all, P.AllMails(here, visits)) && P.Conserved(h, all)
    requires c in visits && AllCovered(s, mail) && forall q | q in s.queued :: q in P.MailsOf(here, c)
    ensures AllKept(s, h, mail)
  {
    forall r | r in mail.recipients
      ensures Kept(s, h, mail, r)
    {
      assert Covered(s, mail, r);
      if r.domain != s.hostname {
        var q :| q in s.queued && q.envelope == mail && r.domain in q.groups && r in q.groups[r.domain];
        P.GroupNotLost(here, visits, h, all, c, q, r.domain);
        var t := Attempt(mail, q.groups[r.domain]);
        assert r in t.recipients;
      }
    }
  }

  lemma QueuedGrows(s: Session, turns: seq<Turn>, k: nat)
    requires k < |turns|
    ensures forall q | q in Run(s, turns[..k] + [turns[k]]).0.queued :: q in Run(s, turns).0.queued
  {
    var start := turns[..k] + [turns[k]];
    assert turns == start + turns[k + 1..];
    RunSplit(s, start, turns[k + 1..]);
    QueuedKept(Run(s, start).0, turns[k + 1..]);
  }

  lemma {:induction false} QueuedKept(s: Session, turns: seq<Turn>)
    ensures forall q | q in s.queued :: q in Run(s, turns).0.queued
    decreases |turns|
  {
    if turns != [] {
      QueuedKept(Step(s, turns[0].input, turns[0].answers), turns[1..]);
    }
  }
}
