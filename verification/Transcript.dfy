/** What a session can be told from its transcript: the inputs and the replies they got. */
module Transcript {
  import opened Wrappers
  import opened Addresses
  import opened Commands
  import opened Protocol
  import opened Provenance
  import opened RelaySafety

  // ---------- phases ----------

  datatype Phase = Opening | AfterHelo | AfterEhlo | Authenticating | HasFrom | HasRcpt | InBody | Done | Over

  function PhaseOf(state: State): Phase {
    match state
    case Init => Opening
    case Helo => AfterHelo
    case Ehlo(_) => AfterEhlo
    case AuthStep(_, _) => Authenticating
    case Mail(_) => HasFrom
    case Rcpt(_) => HasRcpt
    case Data(_) => InBody
    case DataComplete => Done
    case _ => Over
  }

  predicate Live(state: State) {
    PhaseOf(state) != Over
  }

  /** The reply that ends an AUTH exchange. */
  predicate EndsAuth(replies: seq<Reply>) {
    replies != [] && var last := replies[|replies| - 1];
                     last == AuthSuccessful || last == AuthBadMechanism || last == AuthUnauthorized
  }

  /** How an observer of the wire moves on in a session that is not cut off. */
  function NextPhase(p: Phase, verb: Option<CommandVerb>, replies: seq<Reply>): Phase {
    match p
    case Opening =>
      if verb == Some(HELO) && JustSaid(replies, Okay) then AfterHelo
      else if verb == Some(EHLO) && |replies| == 1 && replies[0].EhloOkay? then AfterEhlo
      else p
    case AfterHelo => if verb == Some(MAIL) && JustSaid(replies, Okay) then HasFrom else p
    case AfterEhlo =>
      if verb == Some(MAIL) && JustSaid(replies, Okay) then HasFrom
      else if verb == Some(AUTH) && !EndsAuth(replies) then Authenticating
      else p
    case Authenticating => if EndsAuth(replies) then AfterEhlo else p
    case HasFrom => if verb == Some(RCPT) && JustSaid(replies, Okay) then HasRcpt else p
    case HasRcpt => if verb == Some(DATA) && JustSaid(replies, StartInput) then InBody else p
    case InBody =>
      if JustSaid(replies, Okay) then Done
      else if JustSaid(replies, MailboxUnavailable) then HasRcpt
      else p
    case _ => p
  }

  /** One line of the transcript, as an observer reads it. */
  datatype Seen = Seen(verb: Option<CommandVerb>, replies: seq<Reply>)

  function SeenIn(log: seq<Exchange>): (r: seq<Seen>)
    ensures |r| == |log|
  {
    seq(|log|, i requires 0 <= i < |log| => Seen(VerbOf(log[i].input), log[i].replies))
  }

  /** The phase an observer of the wire infers. */
  function Observed(seen: seq<Seen>): Phase {
    if seen == [] then Opening
    else
      var last := seen[|seen| - 1];
      NextPhase(Observed(seen[..|seen| - 1]), last.verb, last.replies)
  }

  lemma ObservedSnoc(seen: seq<Seen>, x: Seen)
    ensures Observed(seen + [x]) == NextPhase(Observed(seen), x.verb, x.replies)
  {
    assert (seen + [x])[..|seen|] == seen;
  }

  lemma SeenSnoc(log: seq<Exchange>, x: Exchange)
    ensures SeenIn(log + [x]) == SeenIn(log) + [Seen(VerbOf(x.input), x.replies)]
  {
  }

  // ---------- state and transcript ----------

  /** A live state follows only from a live one, in the phase the observer infers. */
  ghost predicate PhaseFollows(state: State, verb: Option<CommandVerb>, e: Effect) {
    Live(e.next) ==> Live(state) && PhaseOf(e.next) == NextPhase(PhaseOf(state), verb, e.replies)
  }

  lemma DispatchPhase(hostname: string, state: State, r: Reading, a: Answers)
    ensures PhaseFollows(state, r.verb, Dispatch(hostname, state, r, a))
  {
    if state.AuthStep? {
      AuthStepPhase(hostname, state, a);
    } else if state.Ehlo? && r.verb == Some(AUTH) {
      InitSaslPhase(hostname, state, a);
    } else {
      OtherPhase(hostname, state, r, a);
    }
  }

  lemma AuthStepPhase(hostname: string, state: State, a: Answers)
    requires state.AuthStep?
    ensures var e := HandleAuthStep(hostname, state.auth, state.fromState, a);
            Live(e.next) ==> PhaseOf(e.next) == NextPhase(Authenticating, None, e.replies)
  {
  }

  lemma InitSaslPhase(hostname: string, state: State, a: Answers)
    requires state.Ehlo?
    ensures var e := InitSasl(hostname, state.ehlo, a);
            Live(e.next) ==> PhaseOf(e.next) == NextPhase(AfterEhlo, Some(AUTH), e.replies)
  {
  }

  lemma OtherPhase(hostname: string, state: State, r: Reading, a: Answers)
    requires !state.AuthStep? && !(state.Ehlo? && r.verb == Some(AUTH))
    ensures PhaseFollows(state, r.verb, Dispatch(hostname, state, r, a))
  {
  }

  ghost predicate PhaseTold(s: Session) {
    Live(s.state) ==> PhaseOf(s.state) == Observed(SeenIn(s.log))
  }

  lemma StepPhaseTold(s: Session, input: string, a: Answers)
    requires PhaseTold(s)
    ensures PhaseTold(Step(s, input, a))
  {
    var r := Read(s.hostname, s.state, input, a);
    var e := Dispatch(s.hostname, s.state, r, a);
    DispatchPhase(s.hostname, s.state, r, a);
    SeenSnoc(s.log, Exchange(input, e.replies));
    ObservedSnoc(SeenIn(s.log), Seen(VerbOf(input), e.replies));
  }

  lemma {:induction false} RunPhaseTold(s: Session, turns: seq<Turn>)
    requires PhaseTold(s)
    ensures PhaseTold(Run(s, turns).0)
    ensures Live(s.state) && Run(s, turns).1 == Continue ==> Live(Run(s, turns).0.state)
    decreases |turns|
  {
    if turns != [] {
      StepPhaseTold(s, turns[0].input, turns[0].answers);
      RunPhaseTold(Step(s, turns[0].input, turns[0].answers), turns[1..]);
    }
  }

  // ---------- the order of a session ----------

  /** How far a phase is from the greeting, with all of EHLO and AUTH one stage. */
  function Stage(p: Phase): nat {
    match p
    case Opening => 0
    case AfterHelo => 1
    case AfterEhlo => 1
    case Authenticating => 1
    case HasFrom => 2
    case HasRcpt => 3
    case InBody => 4
    case _ => 5
  }

  /** The exchange that ends stage `n`. */
  predicate Milestone(n: nat, verb: Option<CommandVerb>, replies: seq<Reply>) {
    match n
    case 0 =>
      || (verb == Some(HELO) && JustSaid(replies, Okay))
      || (verb == Some(EHLO) && |replies| == 1 && replies[0].EhloOkay?)
    case 1 => verb == Some(MAIL) && JustSaid(replies, Okay)
    case 2 => verb == Some(RCPT) && JustSaid(replies, Okay)
    case 3 => verb == Some(DATA) && JustSaid(replies, StartInput)
    case 4 => JustSaid(replies, Okay)
    case _ => false
  }

  /** `seen` contains the milestones up to stage `n`, in order. */
  ghost predicate Passed(seen: seq<Seen>, n: nat)
    decreases n, 1
  {
    n == 0 || exists i: nat :: PassedAt(seen, n, i)
  }

  /** The exchange that led to stage `n` is at `i`, and the milestones before it come earlier. */
  ghost predicate PassedAt(seen: seq<Seen>, n: nat, i: nat)
    requires n > 0
    decreases n, 0
  {
    i < |seen| && Milestone(n - 1, seen[i].verb, seen[i].replies) && Passed(seen[..i], n - 1)
  }

  lemma PassedLater(seen: seq<Seen>, x: Seen, n: nat)
    requires Passed(seen, n)
    ensures Passed(seen + [x], n)
  {
    if n > 0 {
      var i: nat :| PassedAt(seen, n, i);
      assert (seen + [x])[..i] == seen[..i];
      assert PassedAt(seen + [x], n, i);
    }
  }

  lemma PassedEarlier(seen: seq<Seen>, n: nat)
    requires n > 0 && Passed(seen, n)
    ensures Passed(seen, n - 1)
  {
    var i: nat :| PassedAt(seen, n, i);
    var q := n - 1;
    if q > 0 {
      assert Passed(seen[..i], q);
      var j: nat :| PassedAt(seen[..i], q, j);
      assert seen[..i][..j] == seen[..j];
      assert PassedAt(seen, q, j);
    }
  }

  lemma PassedNow(seen: seq<Seen>, x: Seen, n: nat)
    requires Passed(seen, n) && Milestone(n, x.verb, x.replies)
    ensures Passed(seen + [x], n + 1)
  {
    assert (seen + [x])[..|seen|] == seen;
    assert PassedAt(seen + [x], n + 1, |seen|);
  }

  lemma StageMoves(p: Phase, verb: Option<CommandVerb>, replies: seq<Reply>)
    ensures var n, m := Stage(p), Stage(NextPhase(p, verb, replies));
            m == n || (m == n + 1 && Milestone(n, verb, replies)) || (n == 4 && m == 3)
  {
  }

  lemma {:induction false} ObservedPassed(seen: seq<Seen>)
    ensures Passed(seen, Stage(Observed(seen)))
  {
    if seen != [] {
      var init, last := seen[..|seen| - 1], seen[|seen| - 1];
      var n := Stage(Observed(init));
      ObservedPassed(init);
      StageMoves(Observed(init), last.verb, last.replies);
      assert seen == init + [last];
      if Stage(Observed(seen)) == n + 1 {
        PassedNow(init, last, n);
      } else {
        PassedLater(init, last, n);
        if n == 4 {
          PassedEarlier(seen, 4);
        }
      }
    }
  }

  /**
   Every reachable live state is the one its transcript tells, and the transcript holds the milestones
   before it in order: an accepted greeting, MAIL, RCPT, DATA, and for DATACOMPLETE an accepted body.
   The loop never asks a session that is over to handle anything.
   */
  lemma SessionOrder(hostname: string, turns: seq<Turn>)
    ensures var (s, outcome) := Run(Start(hostname), turns);
            && (Live(s.state) ==>
                  PhaseOf(s.state) == Observed(SeenIn(s.log)) && Passed(SeenIn(s.log), Stage(PhaseOf(s.state))))
            && (outcome == Continue ==> Live(s.state))
  {
    RunPhaseTold(Start(hostname), turns);
    ObservedPassed(SeenIn(Run(Start(hostname), turns).0.log));
  }

  /** The ways on from a phase: forward, or back from AUTH to EHLO and from the body to the recipients. */
  predicate LeadsTo(p: Phase, q: Phase) {
    match p
    case Opening => q == AfterHelo || q == AfterEhlo
    case AfterHelo => q == AfterHelo || q == HasFrom
    case AfterEhlo => q == AfterEhlo || q == Authenticating || q == HasFrom
    case Authenticating => q == Authenticating || q == AfterEhlo
    case HasFrom => q == HasFrom || q == HasRcpt
    case HasRcpt => q == HasRcpt || q == InBody
    case InBody => q == InBody || q == HasRcpt || q == Done
    case _ => false
  }

  lemma DispatchLeads(hostname: string, state: State, r: Reading, a: Answers)
    ensures var t := Dispatch(hostname, state, r, a).next;
            Live(t) ==> LeadsTo(PhaseOf(state), PhaseOf(t))
  {
    if state.AuthStep? {
      AuthStepEnds(hostname, state.auth, state.fromState, a);
    } else if state.Ehlo? && r.verb == Some(AUTH) {
      InitSaslEnds(hostname, state.ehlo, a);
    } else {
      OtherLeads(hostname, state, r, a);
    }
  }

  lemma OtherLeads(hostname: string, state: State, r: Reading, a: Answers)
    requires !state.AuthStep? && !(state.Ehlo? && r.verb == Some(AUTH))
    ensures var t := Dispatch(hostname, state, r, a).next;
            Live(t) ==> LeadsTo(PhaseOf(state), PhaseOf(t))
  {
  }

  /**
   In every run every turn leads forward, or back from AUTH to EHLO or from DATA to RCPT, as long as the session
   is not over; and a session that is over handles no turn.
   */
  lemma PhasesMoveForward(hostname: string, turns: seq<Turn>, k: nat)
    requires k < |turns|
    ensures var (before, outcome) := Run(Start(hostname), turns[..k]);
            var after := Run(Start(hostname), turns[..k + 1]).0;
            && (outcome != Continue ==> after == before)
            && (outcome == Continue && Live(after.state) ==> LeadsTo(PhaseOf(before.state), PhaseOf(after.state)))
  {
    var (s, _) := Run(Start(hostname), turns[..k]);
    assert turns[..k + 1][..k] == turns[..k];
    LastTurn(Start(hostname), turns[..k + 1]);
    DispatchLeads(s.hostname, s.state, Read(s.hostname, s.state, turns[k].input, turns[k].answers), turns[k].answers);
  }

  /** Turn `k` of the run is a piece of a body, and what is logged for it is the answer 250. */
  ghost predicate BodyAccepted(hostname: string, turns: seq<Turn>, k: nat) {
    && k < |turns|
    && var (s, outcome) := Run(Start(hostname), turns[..k]);
       outcome == Continue && s.state.Data? && JustSaid(Logged(s, turns[k]).replies, Okay)
  }

  lemma AcceptedBodyEndsIt(s: Session, input: string, a: Answers)
    requires s.state.Data? && JustSaid(Handle(s.hostname, s.state, input, a).replies, Okay)
    ensures Step(s, input, a).state == DataComplete
  {
  }

  lemma DoneEndsIt(s: Session, input: string, a: Answers)
    requires s.state == DataComplete
    ensures OutcomeOf(Handle(s.hostname, s.state, input, a)) != Continue
  {
    DispatchLeads(s.hostname, s.state, Read(s.hostname, s.state, input, a), a);
  }

  lemma DoneAfter(hostname: string, turns: seq<Turn>, i: nat)
    requires BodyAccepted(hostname, turns, i)
    ensures Run(Start(hostname), turns[..i + 1]).0.state == DataComplete
  {
    var (s, _) := Run(Start(hostname), turns[..i]);
    assert turns[..i + 1][..i] == turns[..i];
    LastTurn(Start(hostname), turns[..i + 1]);
    AcceptedBodyEndsIt(s, turns[i].input, turns[i].answers);
  }

  lemma OverAfter(hostname: string, turns: seq<Turn>, n: nat)
    requires n < |turns| && Run(Start(hostname), turns[..n]).0.state == DataComplete
    ensures Run(Start(hostname), turns[..n + 1]).1 != Continue
  {
    var (s, _) := Run(Start(hostname), turns[..n]);
    assert turns[..n + 1][..n] == turns[..n];
    LastTurn(Start(hostname), turns[..n + 1]);
    DoneEndsIt(s, turns[n].input, turns[n].answers);
  }

  lemma DoneToTheEnd(hostname: string, turns: seq<Turn>, n: nat, j: nat)
    requires n <= j <= |turns| && Run(Start(hostname), turns[..n]).0.state == DataComplete
    ensures var (s, outcome) := Run(Start(hostname), turns[..j]);
            s.state == DataComplete || outcome != Continue
  {
    if j > n {
      OverAfter(hostname, turns, n);
      StoppedStays(Start(hostname), turns, n + 1, j);
    }
  }

  /** In no run is more than one body answered 250. */
  lemma OneBodyAccepted(hostname: string, turns: seq<Turn>, i: nat, j: nat)
    requires BodyAccepted(hostname, turns, i) && BodyAccepted(hostname, turns, j)
    ensures i == j
  {
    DoneAfter(hostname, turns, i);
    DoneAfter(hostname, turns, j);
    if i < j {
      DoneToTheEnd(hostname, turns, i + 1, j);
    } else if j < i {
      DoneToTheEnd(hostname, turns, j + 1, i);
    }
  }

  // ---------- accepted senders and recipients ----------

  /** A MAIL or RCPT line, seen in a phase that takes it, was answered 250. */
  predicate AcceptedAs(p: Phase, verb: Option<CommandVerb>, replies: seq<Reply>, v: CommandVerb) {
    && verb == Some(v) && JustSaid(replies, Okay)
    && (if v == MAIL then p == AfterHelo || p == AfterEhlo else p == HasFrom || p == HasRcpt)
  }

  /** The addresses on the lines with verb `v` that were accepted. */
  function AcceptedArgs(log: seq<Exchange>, v: CommandVerb, keyword: string): seq<Option<string>> {
    if log == [] then []
    else
      var init, last := log[..|log| - 1], log[|log| - 1];
      AcceptedArgs(init, v, keyword)
      + if AcceptedAs(Observed(SeenIn(init)), VerbOf(last.input), last.replies, v)
        then [ParseAddressMessage(keyword, last.input)] else []
  }

  function AcceptedSenders(log: seq<Exchange>): seq<Option<string>> { AcceptedArgs(log, MAIL, MAIL_KEYWORD) }
  function AcceptedRecipients(log: seq<Exchange>): seq<Option<string>> { AcceptedArgs(log, RCPT, RCPT_KEYWORD) }

  function Somes(xs: seq<string>): seq<Option<string>> {
    seq(|xs|, i requires 0 <= i < |xs| => Some(xs[i]))
  }

  predicate Finished(state: State) {
    PhaseOf(state) == Done || PhaseOf(state) == Over
  }

  /** The sender of the state is the one accepted, and no other was. */
  ghost predicate SenderTold(s: Session) {
    if HasSender(s.state) then AcceptedSenders(s.log) == [Some(SenderOf(s.state).address)]
    else if Finished(s.state) then |AcceptedSenders(s.log)| <= 1
    else AcceptedSenders(s.log) == []
  }

  /** The recipients of the state are those accepted, and there is one once there is an RCPT state. */
  ghost predicate RecipientsTold(s: Session) {
    && (!Finished(s.state) ==> AcceptedRecipients(s.log) == Somes(AddressTexts(RecipientsOf(s.state))))
    && (s.state.Rcpt? || s.state.Data? ==> RecipientsOf(s.state) != [])
  }

  ghost predicate TranscriptTold(s: Session) {
    SenderTold(s) && RecipientsTold(s)
  }

  lemma ArgsSnoc(log: seq<Exchange>, x: Exchange, v: CommandVerb, keyword: string)
    ensures AcceptedArgs(log + [x], v, keyword)
         == AcceptedArgs(log, v, keyword)
            + if AcceptedAs(Observed(SeenIn(log)), VerbOf(x.input), x.replies, v)
              then [ParseAddressMessage(keyword, x.input)] else []
  {
    assert (log + [x])[..|log|] == log;
  }

  /** AUTH exchanges are never answered 250. */
  lemma AuthNotAccepted(hostname: string, state: State, r: Reading, a: Answers)
    requires state.AuthStep? || (state.Ehlo? && r.verb == Some(AUTH))
    ensures !JustSaid(Dispatch(hostname, state, r, a).replies, Okay)
  {
  }

  /** How sender and recipients can come about. */
  predicate Told(state: State, r: Reading, e: Effect) {
    match e.next
    case Mail(m) =>
      || (state == e.next && !JustSaid(e.replies, Okay))
      || ((state.Helo? || state.Ehlo?) && r.verb == Some(MAIL) && JustSaid(e.replies, Okay) && r.line.Parsed?
          && m.sender.address == r.line.address.address)
    case Rcpt(t) =>
      || (state == e.next && !JustSaid(e.replies, Okay))
      || (r.verb == Some(RCPT) && JustSaid(e.replies, Okay) && r.line.Parsed?
          && t.recipients == RecipientsOf(state) + [r.line.address]
          && (state.Rcpt? || state.Mail?) && SenderOf(state) == t.sender)
      || (state.Data? && JustSaid(e.replies, MailboxUnavailable) && t.recipients == state.data.recipients
          && t.sender == state.data.sender)
    case Data(d) =>
      || (state.Data? && !JustSaid(e.replies, Okay)
          && d.recipients == state.data.recipients && d.sender == state.data.sender)
      || (state.Rcpt? && JustSaid(e.replies, StartInput) && d == NewData(state.rcpt))
    case DataComplete => state.Data?
    case Quit => !JustSaid(e.replies, Okay)
    case Cancelled => !JustSaid(e.replies, Okay)
    case _ =>
      && !HasSender(state) && !state.DataComplete? && !state.Quit? && !state.Cancelled?
      && !(r.verb == Some(MAIL) && JustSaid(e.replies, Okay)) && !(r.verb == Some(RCPT) && JustSaid(e.replies, Okay))
  }

  lemma DispatchTold(hostname: string, state: State, r: Reading, a: Answers)
    ensures Told(state, r, Dispatch(hostname, state, r, a))
  {
    if state.AuthStep? {
      AuthStepEnds(hostname, state.auth, state.fromState, a);
      AuthNotAccepted(hostname, state, r, a);
    } else if state.Ehlo? && r.verb == Some(AUTH) {
      InitSaslEnds(hostname, state.ehlo, a);
      AuthNotAccepted(hostname, state, r, a);
    } else {
      OtherTold(hostname, state, r, a);
    }
  }

  lemma OtherTold(hostname: string, state: State, r: Reading, a: Answers)
    requires !state.AuthStep? && !(state.Ehlo? && r.verb == Some(AUTH))
    ensures Told(state, r, Dispatch(hostname, state, r, a))
  {
  }

  lemma ReadText(hostname: string, state: State, input: string, a: Answers)
    ensures LineRead(Read(hostname, state, input, a), input)
  {
  }

  lemma StepTold(s: Session, input: string, a: Answers)
    requires TranscriptTold(s) && PhaseTold(s)
    ensures TranscriptTold(Step(s, input, a))
  {
    var r := Read(s.hostname, s.state, input, a);
    var e := Dispatch(s.hostname, s.state, r, a);
    DispatchTold(s.hostname, s.state, r, a);
    ReadText(s.hostname, s.state, input, a);
    SenderStep(s, input, r, e);
    RecipientsStep(s, input, r, e);
  }

  /** The address on the line is the one the pattern for its verb finds. */
  ghost predicate LineRead(r: Reading, input: string) {
    && r.verb == VerbOf(input)
    && (r.line.Parsed? ==>
          ParseAddressMessage(if r.verb == Some(RCPT) then RCPT_KEYWORD else MAIL_KEYWORD, input)
          == Some(r.line.address.address))
  }

  lemma SenderStep(s: Session, input: string, r: Reading, e: Effect)
    requires SenderTold(s) && PhaseTold(s) && Told(s.state, r, e) && LineRead(r, input)
    ensures SenderTold(Apply(s, input, e))
  {
    ArgsSnoc(s.log, Exchange(input, e.replies), MAIL, MAIL_KEYWORD);
  }

  /** The recipients change by the address of an accepted RCPT line, and not otherwise. */
  lemma RecipientsMove(state: State, r: Reading, e: Effect)
    requires Told(state, r, e) && !Finished(e.next)
    ensures !Finished(state)
    ensures var accepted := AcceptedAs(PhaseOf(state), r.verb, e.replies, RCPT);
            && (accepted ==> r.line.Parsed? && RecipientsOf(e.next) == RecipientsOf(state) + [r.line.address])
            && (!accepted ==> RecipientsOf(e.next) == RecipientsOf(state))
            && (!accepted && (e.next.Rcpt? || e.next.Data?) ==> state.Rcpt? || state.Data?)
  {
  }

  lemma RecipientsStep(s: Session, input: string, r: Reading, e: Effect)
    requires RecipientsTold(s) && PhaseTold(s) && Told(s.state, r, e) && LineRead(r, input)
    ensures RecipientsTold(Apply(s, input, e))
  {
    if !Finished(e.next) {
      RecipientsMove(s.state, r, e);
      ArgsSnoc(s.log, Exchange(input, e.replies), RCPT, RCPT_KEYWORD);
      if AcceptedAs(PhaseOf(s.state), r.verb, e.replies, RCPT) {
        SomesSnoc(RecipientsOf(s.state), r.line.address);
      }
    }
  }

  lemma SomesSnoc(rs: seq<MailAddress>, a: MailAddress)
    ensures Somes(AddressTexts(rs + [a])) == Somes(AddressTexts(rs)) + [Some(a.address)]
  {
  }

  lemma {:induction false} RunTold(s: Session, turns: seq<Turn>)
    requires TranscriptTold(s) && PhaseTold(s)
    ensures TranscriptTold(Run(s, turns).0)
    decreases |turns|
  {
    if turns != [] {
      StepTold(s, turns[0].input, turns[0].answers);
      StepPhaseTold(s, turns[0].input, turns[0].answers);
      RunTold(Step(s, turns[0].input, turns[0].answers), turns[1..]);
    }
  }

  /**
   In every reachable session at most one MAIL was accepted; in every reachable RCPT or DATA state the recipients
   are, in order, the addresses on exactly the RCPT lines accepted, at least one, and the sender is the address on
   the MAIL line.
   */
  lemma RecipientsAreTheAccepted(hostname: string, turns: seq<Turn>)
    ensures var s := Run(Start(hostname), turns).0;
            && |AcceptedSenders(s.log)| <= 1
            && (s.state.Rcpt? || s.state.Data? ==>
                  && AcceptedRecipients(s.log) == Somes(AddressTexts(RecipientsOf(s.state)))
                  && RecipientsOf(s.state) != []
                  && AcceptedSenders(s.log) == [Some(SenderOf(s.state).address)])
  {
    RunTold(Start(hostname), turns);
  }
}
