/** The addresses a session accepts, and the command lines the client writes for them. */
module AddressLines {
  import opened Wrappers
  import opened Text
  import opened DotStuffing
  import opened Addresses
  import opened Commands
  import opened Sasl
  import opened Delivery
  import opened Protocol
  import opened Provenance
  import opened RelaySafety
  import C = Client

  // ---------- where addresses come from ----------

  /** Sender and recipients of `next` are those of `state`, or the address on the line just read. */
  ghost predicate AddressesFrom(state: State, line: AddressLine, next: State) {
    && (HasSender(next) ==>
          || (HasSender(state) && SenderOf(next) == SenderOf(state))
          || (line.Parsed? && SenderOf(next).address == line.address.address
              && SenderOf(next).domain == line.address.domain))
    && forall x | x in RecipientsOf(next) :: x in RecipientsOf(state) || (line.Parsed? && x == line.address)
  }

  lemma DispatchAddresses(hostname: string, state: State, r: Reading, a: Answers)
    ensures AddressesFrom(state, r.line, Dispatch(hostname, state, r, a).next)
  {
    if state.AuthStep? {
      AuthStepEnds(hostname, state.auth, state.fromState, a);
    } else if state.Ehlo? && r.verb == Some(AUTH) {
      InitSaslEnds(hostname, state.ehlo, a);
    } else {
      OtherAddresses(hostname, state, r, a);
    }
  }

  lemma OtherAddresses(hostname: string, state: State, r: Reading, a: Answers)
    requires !state.AuthStep? && !(state.Ehlo? && r.verb == Some(AUTH))
    ensures AddressesFrom(state, r.line, Dispatch(hostname, state, r, a).next)
  {
  }

  // ---------- addresses another server reads back ----------

  /** Text the address pattern captures whole, with its domain behind the one `@`. */
  predicate Recognized(a: MailAddress) {
    && a.address != "" && '>' !in a.address
    && var parts := Split(a.address, "@");
       |parts| == 2 && a.domain == parts[1]
  }

  ghost predicate AllRecognized(state: State) {
    && (HasSender(state) ==> Recognized(SenderOf(state)))
    && forall r | r in RecipientsOf(state) :: Recognized(r)
  }

  lemma ReadRecognized(hostname: string, state: State, input: string, a: Answers)
    ensures var line := Read(hostname, state, input, a).line;
            line.Parsed? ==> Recognized(line.address)
  {
  }

  lemma {:induction false} RunRecognized(s: Session, turns: seq<Turn>)
    requires AllRecognized(s.state)
    ensures AllRecognized(Run(s, turns).0.state)
    decreases |turns|
  {
    if turns != [] {
      var t := turns[0];
      ReadRecognized(s.hostname, s.state, t.input, t.answers);
      DispatchAddresses(s.hostname, s.state, Read(s.hostname, s.state, t.input, t.answers), t.answers);
      RunRecognized(Step(s, t.input, t.answers), turns[1..]);
    }
  }

  /** The mail queued at turn `k` has the sender and the recipients of the state before it. */
  lemma QueuedFromState(hostname: string, turns: seq<Turn>, k: nat, q: QueueAdd, u: User)
    requires QueuedAt(hostname, turns, k, q, u)
    ensures var state := Run(Start(hostname), turns[..k]).0.state;
            HasSender(state) && SenderOf(state) == q.envelope.sender && RecipientsOf(state) == q.envelope.recipients
    ensures QueuedRightly(hostname, q)
  {
    RunRelaySafe(Start(hostname), turns[..k]);
  }

  /**
   Sender and recipients of whatever a run queued are addresses to any server: given the client's line for one of them
   in one read, it captures the same text, and finds the same domain in it.
   */
  lemma QueuedIsRecognized(hostname: string, turns: seq<Turn>, q: QueueAdd)
    requires QueuedInRun(hostname, turns, q)
    ensures QueuedRightly(hostname, q)
    ensures Recognized(q.envelope.sender) && forall r | r in q.envelope.recipients :: Recognized(r)
  {
    var k: nat, u: User :| QueuedAt(hostname, turns, k, q, u);
    RunRecognized(Start(hostname), turns[..k]);
    QueuedFromState(hostname, turns, k, q, u);
  }

  // ---------- one line or more ----------

  /** A message that is a single line. */
  predicate OneLineMessage(msg: string) {
    EndsWith(msg, CRLF) && NoCrlf(msg[..|msg| - 2])
  }

  predicate NoBreakChars(s: string) {
    '\r' !in s && '\n' !in s
  }

  /** Text between pieces without line breaks breaks the line exactly if it holds a CRLF itself. */
  lemma BetweenIff(p: string, t: string, q: string)
    requires NoBreakChars(p) && NoBreakChars(q)
    ensures OneLineMessage(p + t + (q + CRLF)) <==> NoCrlf(t)
  {
    var msg := p + t + (q + CRLF);
    var line := p + t + q;
    assert msg == line + CRLF && msg[..|msg| - 2] == line;
    assert forall i | 0 <= i < |p| :: line[i] == p[i];
    assert forall i | |p| <= i < |p| + |t| :: line[i] == t[i - |p|];
    assert forall i | |p| + |t| <= i < |line| :: line[i] == q[i - |p| - |t|];
    if NoCrlf(line) {
      forall i | 0 < i < |t| && t[i] == '\n'
        ensures t[i - 1] != '\r'
      {
        assert line[|p| + i] == t[i] && line[|p| + i - 1] == t[i - 1];
      }
    }
  }

  lemma AddressMessageIff(keyword: string, address: string)
    requires NoBreakChars(keyword)
    ensures OneLineMessage(keyword + address + ADDRESS_END) <==> NoCrlf(address)
  {
    BetweenIff(keyword, address, ">");
    assert ADDRESS_END == ">" + CRLF;
  }

  lemma EhloMessageIff(name: string)
    ensures OneLineMessage("EHLO " + name + CRLF) <==> NoCrlf(name)
  {
    BetweenIff("EHLO ", name, "");
    assert "" + CRLF == CRLF;
  }

  predicate OnOneLine(name: string, sender: MailAddress, recipients: seq<MailAddress>) {
    NoCrlf(name) && NoCrlf(sender.address) && forall r | r in recipients :: NoCrlf(r.address)
  }

  /** What the client sends before the body is one line per message exactly if no name or address in it has a CRLF. */
  lemma ScriptOnLinesIff(name: string, envelope: Envelope, recipients: seq<MailAddress>)
    ensures var script := C.DeliveryScript(name, envelope, recipients);
            (forall i | 0 <= i < |script| - 1 :: OneLineMessage(script[i].0))
            <==> OnOneLine(name, envelope.sender, recipients)
  {
    var script := C.DeliveryScript(name, envelope, recipients);
    EhloMessageIff(name);
    AddressMessageIff(MAIL_KEYWORD, envelope.sender.address);
    RcptMessagesIff(name, envelope, recipients);
    DataMessage();
    OnLines(script, name, envelope, recipients);
  }

  lemma RcptMessagesIff(name: string, envelope: Envelope, recipients: seq<MailAddress>)
    ensures var script := C.DeliveryScript(name, envelope, recipients);
            && |script| == |recipients| + 4
            && script[|recipients| + 2].0 == "DATA" + CRLF
            && forall i | 0 <= i < |recipients| :: OneLineMessage(script[i + 2].0) <==> NoCrlf(recipients[i].address)
  {
    var script := C.DeliveryScript(name, envelope, recipients);
    forall i | 0 <= i < |recipients|
      ensures OneLineMessage(script[i + 2].0) <==> NoCrlf(recipients[i].address)
    {
      assert script[i + 2] == C.RcptScript(recipients)[i];
      AddressMessageIff(RCPT_KEYWORD, recipients[i].address);
    }
  }

  lemma DataMessage()
    ensures OneLineMessage("DATA" + CRLF)
  {
    BetweenIff("DATA", "", "");
    assert "DATA" + "" + ("" + CRLF) == "DATA" + CRLF;
  }

  lemma OnLines(script: C.Script, name: string, envelope: Envelope, recipients: seq<MailAddress>)
    requires script == C.DeliveryScript(name, envelope, recipients)
    requires OneLineMessage(script[0].0) <==> NoCrlf(name)
    requires OneLineMessage(script[1].0) <==> NoCrlf(envelope.sender.address)
    requires forall i | 0 <= i < |recipients| :: OneLineMessage(script[i + 2].0) <==> NoCrlf(recipients[i].address)
    requires OneLineMessage(script[|recipients| + 2].0)
    ensures (forall i | 0 <= i < |script| - 1 :: OneLineMessage(script[i].0))
            <==> OnOneLine(name, envelope.sender, recipients)
  {
    assert |script| == |recipients| + 4;
    if forall i | 0 <= i < |script| - 1 :: OneLineMessage(script[i].0) {
      forall r | r in recipients
        ensures NoCrlf(r.address)
      {
        var i :| 0 <= i < |recipients| && recipients[i] == r;
        assert OneLineMessage(script[i + 2].0);
      }
    }
    if OnOneLine(name, envelope.sender, recipients) {
      forall i | 0 <= i < |script| - 1
        ensures OneLineMessage(script[i].0)
      {
        if 2 <= i < |recipients| + 2 {
          assert recipients[i - 2] in recipients;
          assert OneLineMessage(script[(i - 2) + 2].0) <==> NoCrlf(recipients[i - 2].address);
        }
      }
    }
  }

  lemma CaseKeepsBreaks(s: string, keyword: string)
    requires SameUpToCase(s, keyword) && NoBreakChars(keyword)
    ensures NoBreakChars(s)
  {
    forall i | 0 <= i < |s|
      ensures s[i] != '\r' && s[i] != '\n'
    {
      assert keyword[i] in keyword;
    }
  }

  /** A line the server accepts as a command with an address is one line exactly if the address has no CRLF. */
  lemma AcceptedLineIff(keyword: string, input: string, t: string)
    requires NoBreakChars(keyword) && ParseAddressMessage(keyword, input) == Some(t)
    ensures OneLineMessage(input) <==> NoCrlf(t)
  {
    AddressPattern(keyword, input, t);
    var p := input[..|keyword|];
    CaseKeepsBreaks(p, keyword);
    AddressMessageIff(p, t);
    Assoc(p, t, ADDRESS_END);
    assert input == p + t + ADDRESS_END;
  }

  /** Every input that is a MAIL or RCPT line is a single line. */
  predicate AddressInputsOnLines(turns: seq<Turn>) {
    forall k | 0 <= k < |turns| ::
      VerbOf(turns[k].input) == Some(MAIL) || VerbOf(turns[k].input) == Some(RCPT) ==> OneLineMessage(turns[k].input)
  }

  ghost predicate NoBrokenAddress(state: State) {
    && (HasSender(state) ==> NoCrlf(SenderOf(state).address))
    && forall r | r in RecipientsOf(state) :: NoCrlf(r.address)
  }

  /** The address of a line, if it is used at all, is that of a MAIL or RCPT line. */
  lemma UsedLine(hostname: string, state: State, r: Reading, a: Answers)
    requires r.verb != Some(MAIL) && r.verb != Some(RCPT)
    ensures AddressesFrom(state, Malformed, Dispatch(hostname, state, r, a).next)
  {
    if state.AuthStep? {
      AuthStepEnds(hostname, state.auth, state.fromState, a);
    } else if state.Ehlo? && r.verb == Some(AUTH) {
      InitSaslEnds(hostname, state.ehlo, a);
    } else {
      OtherUsedLine(hostname, state, r, a);
    }
  }

  lemma OtherUsedLine(hostname: string, state: State, r: Reading, a: Answers)
    requires r.verb != Some(MAIL) && r.verb != Some(RCPT)
    requires !state.AuthStep? && !(state.Ehlo? && r.verb == Some(AUTH))
    ensures AddressesFrom(state, Malformed, Dispatch(hostname, state, r, a).next)
  {
  }

  lemma ReadOneLine(hostname: string, state: State, input: string, a: Answers)
    requires OneLineMessage(input)
    ensures var line := Read(hostname, state, input, a).line;
            line.Parsed? ==> NoCrlf(line.address.address)
  {
    var line := Read(hostname, state, input, a).line;
    if line.Parsed? {
      AcceptedLineIff(if VerbOf(input) == Some(RCPT) then RCPT_KEYWORD else MAIL_KEYWORD, input, line.address.address);
    }
  }

  lemma StepNoBroken(s: Session, input: string, a: Answers)
    requires NoBrokenAddress(s.state)
    requires VerbOf(input) == Some(MAIL) || VerbOf(input) == Some(RCPT) ==> OneLineMessage(input)
    ensures NoBrokenAddress(Step(s, input, a).state)
  {
    var r := Read(s.hostname, s.state, input, a);
    if r.verb == Some(MAIL) || r.verb == Some(RCPT) {
      ReadOneLine(s.hostname, s.state, input, a);
      DispatchAddresses(s.hostname, s.state, r, a);
    } else {
      UsedLine(s.hostname, s.state, r, a);
    }
  }

  lemma {:induction false} RunNoBroken(s: Session, turns: seq<Turn>)
    requires NoBrokenAddress(s.state) && AddressInputsOnLines(turns)
    ensures NoBrokenAddress(Run(s, turns).0.state)
    decreases |turns|
  {
    if turns != [] {
      StepNoBroken(s, turns[0].input, turns[0].answers);
      assert forall k | 0 <= k < |turns| - 1 :: turns[1..][k] == turns[k + 1];
      RunNoBroken(Step(s, turns[0].input, turns[0].answers), turns[1..]);
    }
  }

  /**
   If every MAIL and RCPT input of a run is a single line, so is every message the client will send before the body,
   for whatever the run queued.
   */
  lemma QueuedOnOneLine(hostname: string, turns: seq<Turn>, q: QueueAdd, domain: string, name: string)
    requires QueuedInRun(hostname, turns, q) && domain in q.groups && NoCrlf(name)
    requires AddressInputsOnLines(turns)
    ensures var script := C.DeliveryScript(name, q.envelope, q.groups[domain]);
            forall i | 0 <= i < |script| - 1 :: OneLineMessage(script[i].0)
  {
    var k: nat, u: User :| QueuedAt(hostname, turns, k, q, u);
    assert forall j | 0 <= j < k :: turns[..k][j] == turns[j];
    RunNoBroken(Start(hostname), turns[..k]);
    QueuedFromState(hostname, turns, k, q, u);
    ScriptOnLinesIff(name, q.envelope, q.groups[domain]);
  }

  /** The RCPT line for `address` is accepted as that address, though neither it nor the line to come is one line. */
  ghost predicate AcceptedBroken(hostname: string, address: string) {
    var input := RCPT_KEYWORD + address + ADDRESS_END;
    var line := ReadAddressLine(RCPT_KEYWORD, hostname, input);
    && VerbOf(input) == Some(RCPT)
    && line.Parsed? && line.address.address == address
    && !OneLineMessage(input)
  }

  /** Every address text with a CRLF in it is accepted, and the line written for it is two. */
  lemma BrokenAddressAccepted(hostname: string, address: string)
    requires address != "" && '>' !in address && multiset(address)['@'] == 1 && !NoCrlf(address)
    ensures AcceptedBroken(hostname, address)
  {
    RcptLine(address);
    AddressRead(hostname, address);
    AddressMessageIff(RCPT_KEYWORD, address);
  }

  lemma AddressRead(hostname: string, address: string)
    requires address != "" && '>' !in address && multiset(address)['@'] == 1
    ensures var line := ReadAddressLine(RCPT_KEYWORD, hostname, RCPT_KEYWORD + address + ADDRESS_END);
            line.Parsed? && line.address.address == address
  {
    AddressLineRoundTrip(RCPT_KEYWORD, address);
    AddressHasOneAt(address, hostname);
  }

  /** Such an address, whose second line is a command. */
  lemma BrokenAddressExample(hostname: string)
    ensures AcceptedBroken(hostname, "x\r\nDATA@o")
  {
    BrokenText();
    OneAt();
    BrokenAddressAccepted(hostname, "x\r\nDATA@o");
  }

  lemma OneAt()
    ensures multiset("x\r\nDATA@o")['@'] == 1
  {
  }

  lemma BrokenText()
    ensures '>' !in "x\r\nDATA@o" && !NoCrlf("x\r\nDATA@o")
  {
    var s := "x\r\nDATA@o";
    assert s[2] == '\n' && s[1] == '\r';
  }
}
