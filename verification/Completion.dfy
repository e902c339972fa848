/** What becomes of the recipients a session accepted, once its mail is complete, and when it is sent again. */
module Completion {
  import opened Wrappers
  import opened Transparency
  import opened Addresses
  import opened Commands
  import opened Delivery
  import opened Protocol
  import opened Provenance
  import opened RelaySafety
  import opened Transcript
  import opened Bodies

  /** Recipient `r` of `mail` has its copy in storage or is in a group of a queued entry, by its domain. */
  ghost predicate Covered(s: Session, mail: Envelope, r: MailAddress) {
    if r.domain == s.hostname
    then exists st :: st in s.stored && st.envelope == mail && st.recipient == r
    else exists q :: q in s.queued && q.envelope == mail && r.domain in q.groups && r in q.groups[r.domain]
  }

  /** The last things stored and queued: one copy for each local recipient, in order, and one entry for the others. */
  ghost predicate HandedLast(s: Session, mail: Envelope) {
    var remote := GroupByDomain(RemoteOf(mail.recipients));
    && CopiesLast(s.stored, mail, LocalOf(mail.recipients))
    && (remote != map[] ==> s.queued != [] && s.queued[|s.queued| - 1] == QueueAdd(mail, remote))
  }

  predicate CopiesLast(stored: seq<Stored>, mail: Envelope, rs: seq<MailAddress>) {
    && |rs| <= |stored|
    && var copies := stored[|stored| - |rs|..];
       forall i | 0 <= i < |rs| :: copies[i].envelope == mail && copies[i].recipient == rs[i]
  }

  /** The recipients accepted in the session are those of `mail`, and none of them was forgotten. */
  ghost predicate AllCovered(s: Session, mail: Envelope) {
    && AcceptedSenders(s.log) == [Some(mail.sender.address)]
    && AcceptedRecipients(s.log) == Somes(AddressTexts(mail.recipients))
    && HandedLast(s, mail)
    && forall r | r in mail.recipients :: Covered(s, mail, r)
  }

  lemma HandedIsLast(before: Session, after: Session, mail: Envelope, h: Handed, a: Answers)
    requires h == DeliverMail(mail, a.mailboxHome, a.storeOk) && h.result.Success?
    requires after.stored == before.stored + h.stored && after.queued == before.queued + h.queued
    ensures HandedLast(after, mail)
  {
    CopiesHanded(mail, h, a);
    CopiesPutLast(before.stored, h.stored, mail, LocalOf(mail.recipients));
  }

  lemma CopiesHanded(mail: Envelope, h: Handed, a: Answers)
    requires h == DeliverMail(mail, a.mailboxHome, a.storeOk) && h.result.Success?
    ensures |h.stored| == |LocalOf(mail.recipients)| && CopiesLast(h.stored, mail, LocalOf(mail.recipients))
  {
    LocalDeliveryIsPrefix(mail, a.mailboxHome, a.storeOk);
    assert h.stored[0..] == h.stored;
  }

  lemma CopiesPutLast(before: seq<Stored>, copies: seq<Stored>, mail: Envelope, rs: seq<MailAddress>)
    requires |copies| == |rs| && CopiesLast(copies, mail, rs)
    ensures CopiesLast(before + copies, mail, rs)
  {
    var all := before + copies;
    assert all[|all| - |rs|..] == copies && copies[|copies| - |rs|..] == copies;
  }

  /** The step that completes a mail: its body was decoded, and delivering it succeeded. */
  lemma CompletingStep(s: Session, input: string, a: Answers) returns (mail: Envelope)
    requires Step(s, input, a).state == DataComplete
    ensures s.state.Data?
    ensures Decoded(s.state.data.mailBody + input) == Success(mail.body)
    ensures mail.sender == s.state.data.sender && mail.recipients == s.state.data.recipients
    ensures var h := DeliverMail(mail, a.mailboxHome, a.storeOk);
            && h.result.Success?
            && Step(s, input, a).stored == s.stored + h.stored
            && Step(s, input, a).queued == s.queued + h.queued
  {
    OnlyFromBody(s, input, a);
    var d := s.state.data;
    var e := ReceiveData(s.hostname, d, ReadBody(d, input, a), a);
    DataStepIs(s, d, input, a);
    mail := FinishedMail(s.hostname, d, input, a, e);
  }

  lemma OnlyFromBody(s: Session, input: string, a: Answers)
    requires Step(s, input, a).state == DataComplete
    ensures s.state.Data?
  {
    DispatchLeads(s.hostname, s.state, Read(s.hostname, s.state, input, a), a);
  }

  lemma FinishedMail(hostname: string, d: DataState, input: string, a: Answers, e: Effect) returns (mail: Envelope)
    requires e == ReceiveData(hostname, d, ReadBody(d, input, a), a) && e.next == DataComplete
    ensures Decoded(d.mailBody + input) == Success(mail.body)
    ensures mail.sender == d.sender && mail.recipients == d.recipients
    ensures var h := DeliverMail(mail, a.mailboxHome, a.storeOk);
            h.result.Success? && e.stored == h.stored && e.queued == h.queued
  {
    mail := Envelope(d.sender, d.recipients, Decoded(d.mailBody + input).value);
  }

  lemma HandedCovers(s: Session, mail: Envelope, h: Handed, a: Answers, r: MailAddress)
    requires h == DeliverMail(mail, a.mailboxHome, a.storeOk) && h.result.Success?
    requires r in mail.recipients && (r.isLocalResponsibility <==> r.domain == s.hostname)
    requires forall st | st in h.stored :: st in s.stored
    requires forall q | q in h.queued :: q in s.queued
    ensures Covered(s, mail, r)
  {
    if r.isLocalResponsibility {
      FilterKeeps(mail.recipients, IsLocal(), r);
      LocalDeliveryIsPrefix(mail, a.mailboxHome, a.storeOk);
      var i :| 0 <= i < |LocalOf(mail.recipients)| && LocalOf(mail.recipients)[i] == r;
      assert h.stored[i] in h.stored;
    } else {
      var remote := RemoteOf(mail.recipients);
      FilterKeeps(mail.recipients, IsRemote(), r);
      assert r.domain in GroupByDomain(remote);
      FilterKeeps(remote, Has(r.domain), r);
      assert QueueAdd(mail, GroupByDomain(remote)) in h.queued;
    }
  }

  /** Turn `t`, after `before`, brought the end of a body that was decoded, and `mail` is what came of it. */
  ghost predicate Completed(hostname: string, before: seq<Turn>, t: Turn, mail: Envelope) {
    var m := Run(Start(hostname), before).0;
    && m.state.Data? && Decoded(m.state.data.mailBody + t.input) == Success(mail.body)
    && AllCovered(Run(Start(hostname), before + [t]).0, mail)
  }

  /**
   In every run that completes a mail: its last input was a piece of a body that was then decoded, and every
   recipient answered 250 in the session has its copy of the decoded mail in storage, or is in the group of its
   domain in an entry handed to the queue.
   */
  lemma AcceptedAreCovered(hostname: string, before: seq<Turn>, t: Turn)
    requires Run(Start(hostname), before + [t]).0.state == DataComplete
    ensures exists mail :: Completed(hostname, before, t, mail)
  {
    var mail := LastTurnCovers(hostname, before, t);
    assert Completed(hostname, before, t, mail);
  }

  lemma LastTurnCovers(hostname: string, init: seq<Turn>, t: Turn) returns (mail: Envelope)
    requires Run(Start(hostname), init + [t]).0.state == DataComplete
    ensures var m := Run(Start(hostname), init).0;
            m.state.Data? && Decoded(m.state.data.mailBody + t.input) == Success(mail.body)
    ensures AllCovered(Run(Start(hostname), init + [t]).0, mail)
  {
    var m := DoneByLastTurn(Start(hostname), init, t);
    mail := CompletingStep(m, t.input, t.answers);
    RunTold(Start(hostname), init);
    RunPhaseTold(Start(hostname), init);
    RunRelaySafe(Start(hostname), init);
    StepCovers(m, t, mail);
  }

  /** The step that completes `mail` covers all its recipients. */
  lemma StepCovers(m: Session, t: Turn, mail: Envelope)
    requires m.state.Data? && TranscriptTold(m) && PhaseTold(m) && RelaySafe(m)
    requires mail.sender == m.state.data.sender && mail.recipients == m.state.data.recipients
    requires var h := DeliverMail(mail, t.answers.mailboxHome, t.answers.storeOk);
             var s := Step(m, t.input, t.answers);
             h.result.Success? && s.stored == m.stored + h.stored && s.queued == m.queued + h.queued
    ensures AllCovered(Step(m, t.input, t.answers), mail)
  {
    var s := Step(m, t.input, t.answers);
    var h := DeliverMail(mail, t.answers.mailboxHome, t.answers.storeOk);
    NothingMoreAccepted(m.log, Logged(m, t));
    HandedIsLast(m, s, mail, h, t.answers);
    forall r | r in mail.recipients
      ensures Covered(s, mail, r)
    {
      assert r in RecipientsOf(m.state);
      HandedCovers(s, mail, h, t.answers, r);
    }
  }

  /** A run that ends in DATACOMPLETE got there by its last turn. */
  lemma DoneByLastTurn(s: Session, init: seq<Turn>, t: Turn) returns (m: Session)
    requires Run(s, init + [t]).0.state == DataComplete
    ensures Run(s, init) == (m, Continue) && Run(s, init + [t]).0 == Step(m, t.input, t.answers)
  {
    m := Run(s, init).0;
    GoesOnBefore(s, init, [t], Run(s, init + [t]));
    RunSnoc(s, init, t);
  }

  /** A run that has not ended had not ended before. */
  lemma GoesOnBefore(s: Session, init: seq<Turn>, rest: seq<Turn>, end: (Session, Outcome))
    requires end == Run(s, init + rest) && !Ended(end.0.state)
    ensures Run(s, init).1 == Continue
  {
    RunSplit(s, init, rest);
    GoesOn(s, init);
  }

  /** The reply to a body accepts neither a sender nor a recipient. */
  lemma NothingMoreAccepted(log: seq<Exchange>, x: Exchange)
    requires Observed(SeenIn(log)) == InBody
    ensures AcceptedSenders(log + [x]) == AcceptedSenders(log)
    ensures AcceptedRecipients(log + [x]) == AcceptedRecipients(log)
  {
    ArgsSnoc(log, x, MAIL, MAIL_KEYWORD);
    ArgsSnoc(log, x, RCPT, RCPT_KEYWORD);
  }

  // ---------- sending again after a failure ----------

  /** The turns bring DATA and a body that is complete and decodes to `text`. */
  ghost predicate Sends(data: Turn, body: Turn, text: string) {
    && VerbOf(data.input) == Some(DATA) && data.answers.sendOk(0)
    && ContainsMailEnd(body.input) && Decoded(body.input) == Success(text) && body.answers.sendOk(0)
  }

  /** Delivering the mail of transaction `r` fails for a local recipient. */
  ghost predicate FailsLocally(r: RcptState, text: string, a: Answers) {
    DeliverMail(Envelope(r.sender, r.recipients, text), a.mailboxHome, a.storeOk).result.Failure?
  }

  function RemoteAdd(r: RcptState, text: string): QueueAdd {
    QueueAdd(Envelope(r.sender, r.recipients, text), GroupByDomain(RemoteOf(r.recipients)))
  }

  /** A mailbox lookup or a store fails for some local recipient. */
  ghost predicate LocalTrouble(r: RcptState, a: Answers) {
    Trouble(a, |LocalOf(r.recipients)|)
  }

  /**
   A mail with remote recipients, sent, and sent once more with DATA.  It is queued by the first sending, whatever
   becomes of the local recipients.  The second sending queues it again if and only if a mailbox lookup or a store
   had failed for a local recipient; else the session had completed, and DATA ends it.
   */
  lemma RetryQueuesAgainIff(s: Session, r: RcptState, data: Turn, body: Turn, text: string, again: Turn, retry: Turn,
                            retried: string)
    requires s.state == Rcpt(r) && r.hostname == s.hostname && RemoteAdd(r, text).groups != map[]
    requires Sends(data, body, text) && Sends(again, retry, retried)
    ensures Run(s, [data, body] + [again, retry]).0.queued
         == s.queued + if LocalTrouble(r, body.answers) then [RemoteAdd(r, text), RemoteAdd(r, retried)]
                       else [RemoteAdd(r, text)]
  {
    var m := Run(s, [data, body]).0;
    FailsIffTrouble(Envelope(r.sender, r.recipients, text), body.answers);
    BodyQueues(s, r, data, body, text);
    RunSplit(s, [data, body], [again, retry]);
    if LocalTrouble(r, body.answers) {
      BodyQueues(m, r, again, retry, retried);
      QueuedBoth(s.queued, RemoteAdd(r, text), RemoteAdd(r, retried));
    } else {
      DataAfterEnd(m, again, retry);
    }
  }

  lemma QueuedBoth(queued: seq<QueueAdd>, p: QueueAdd, q: QueueAdd)
    ensures queued + [p] + [q] == queued + [p, q]
  {
  }

  /** DATA in a session that has completed ends it. */
  lemma DataAfterEnd(s: Session, again: Turn, retry: Turn)
    requires s.state == DataComplete && VerbOf(again.input) == Some(DATA)
    ensures Run(s, [again, retry]).0.queued == s.queued
  {
    RunOne(s, again);
    RefusedAfterEnd(s, again.input, again.answers);
    RunSplit(s, [again], [retry]);
    assert [again] + [retry] == [again, retry];
  }

  lemma RefusedAfterEnd(s: Session, input: string, a: Answers)
    requires s.state == DataComplete && VerbOf(input) == Some(DATA)
    ensures OutcomeOf(Handle(s.hostname, s.state, input, a)) != Continue && Step(s, input, a).queued == s.queued
  {
    assert s.queued + [] == s.queued;
  }

  /** DATA and a complete body, from a transaction with remote recipients. */
  lemma BodyQueues(s: Session, r: RcptState, data: Turn, body: Turn, text: string)
    requires s.state == Rcpt(r) && r.hostname == s.hostname && RemoteAdd(r, text).groups != map[]
    requires Sends(data, body, text)
    ensures var (t, outcome) := Run(s, [data, body]);
            && t.queued == s.queued + [RemoteAdd(r, text)]
            && t.hostname == s.hostname
            && outcome == Continue
            && t.state == if FailsLocally(r, text, body.answers) then Rcpt(r) else DataComplete
  {
    var m := Step(s, data.input, data.answers);
    var d := NewData(r);
    RunOne(s, data);
    DataTaken(s, r, data);
    RunSnoc(s, [data], body);
    assert [data] + [body] == [data, body];
    DataStepIs(m, d, body.input, body.answers);
    assert "" + body.input == body.input;
    BodyHanded(m.hostname, d, body, HandedAs(d, text, body.answers));
  }

  lemma DataTaken(s: Session, r: RcptState, data: Turn)
    requires s.state == Rcpt(r) && VerbOf(data.input) == Some(DATA) && data.answers.sendOk(0)
    ensures OutcomeOf(Handle(s.hostname, s.state, data.input, data.answers)) == Continue
    ensures var m := Step(s, data.input, data.answers);
            m.state == Data(NewData(r)) && m.queued == s.queued && m.hostname == s.hostname
  {
    assert s.queued + [] == s.queued;
  }

  lemma BodyHanded(hostname: string, d: DataState, body: Turn, h: Handed)
    requires body.answers.sendOk(0)
    ensures var e := ReceiveData(hostname, d, Finished(h), body.answers);
            && e.queued == h.queued && OutcomeOf(e) == Continue
            && e.next == if h.result.Failure? then Rcpt(Rollback(hostname, d)) else DataComplete
  {
  }
}
