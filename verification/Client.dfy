/** The SMTP client (src/smtp/client.rs): a lock-step dialogue with whatever peer is at the other end. */
module Client {
  import opened Wrappers
  import opened Text
  import opened Addresses
  import opened Commands
  import opened MxHosts

  /** What reading from the connection yields. */
  datatype Incoming = Line(text: string) | ReadError | NoAnswer

  /** A peer that takes one message at a time: its next state, and what can be read from it then. */
  type React<!P> = (P, string) -> (P, Incoming)

  class Connection<P> {
    const react: React<P>
    /** Whether the i-th send succeeds. */
    const sendOk: nat -> bool
    var peer: P
    var pending: Incoming
    var sent: seq<string>

    constructor (react: React<P>, sendOk: nat -> bool, peer: P)
      ensures this.react == react && this.sendOk == sendOk && this.peer == peer && sent == []
    {
      this.react, this.sendOk, this.peer := react, sendOk, peer;
      pending, sent := NoAnswer, [];
    }

    method Send(msg: string) returns (ok: bool)
      modifies this
      ensures ok == sendOk(|old(sent)|)
      ensures ok ==> sent == old(sent) + [msg] && (peer, pending) == react(old(peer), msg)
      ensures !ok ==> sent == old(sent) && peer == old(peer)
    {
      ok := sendOk(|sent|);
      if ok {
        var (next, answer) := react(peer, msg);
        peer, pending, sent := next, answer, sent + [msg];
      }
    }

    /** `SmtpClient::expect`. */
    method Expect(prefix: string) returns (r: Result<(), ClientError>)
      ensures r == Judge(pending, prefix)
    {
      match pending
      case Line(text) => r := if prefix <= text then Success(()) else Failure(SmtpError(text));
      case ReadError => r := Failure(ClientError.IoError);
      case NoAnswer => r := Failure(Timeout);
    }

    /** The script `done` was played from `first`, and every answer was the expected one. */
    ghost predicate At(first: P, done: Script)
      reads this
    {
      Converse(react, sendOk, done, first, 0) == Talk(Success(()), peer, |sent|) && |sent| == |done| && Sent(sent, done)
    }

    /** The next message of the script and the answer it needs; a wrong answer ends the dialogue. */
    method Next(ghost first: P, ghost done: Script, ghost script: Script, msg: string, prefix: string)
      returns (r: Result<(), ClientError>)
      requires At(first, done) && done + [(msg, prefix)] <= script
      modifies this
      ensures r.Success? ==> r == Success(()) && At(first, done + [(msg, prefix)])
      ensures r.Failure? ==>
                Converse(react, sendOk, script, first, 0) == Talk(r, peer, |sent|) && Sent(sent, script)
    {
      ghost var line := [(msg, prefix)];
      ConverseConcat(react, sendOk, done, line, first, 0);
      StopsAt(react, sendOk, done + line, script, first);
      var ok := Send(msg);
      if !ok {
        return Failure(ClientError.IoError);
      }
      r := Expect(prefix);
    }
  }

  function Judge(read: Incoming, prefix: string): Result<(), ClientError> {
    match read
    case Line(text) => if prefix <= text then Success(()) else Failure(SmtpError(text))
    case ReadError => Failure(ClientError.IoError)
    case NoAnswer => Failure(Timeout)
  }

  // ---------- the dialogue ----------

  /** A message and the prefix its answer must have. */
  type Script = seq<(string, string)>

  datatype Talk<P> = Talk(result: Result<(), ClientError>, peer: P, sent: nat)

  /** A script played in lock step against a peer, `sent` messages having been sent before. */
  function Converse<P>(react: React<P>, sendOk: nat -> bool, script: Script, peer: P, sent: nat): Talk<P> {
    if script == [] then Talk(Success(()), peer, sent)
    else if !sendOk(sent) then Talk(Failure(ClientError.IoError), peer, sent)
    else
      var (next, read) := react(peer, script[0].0);
      var verdict := Judge(read, script[0].1);
      if verdict.Failure? then Talk(verdict, next, sent + 1)
      else Converse(react, sendOk, script[1..], next, sent + 1)
  }

  function RcptScript(recipients: seq<MailAddress>): Script {
    seq(|recipients|, i requires 0 <= i < |recipients| => (RCPT_KEYWORD + recipients[i].address + ADDRESS_END, "250"))
  }

  /** The messages of `SmtpClient::run` up to the body, with the answers it waits for. */
  function DeliveryScript(hostname: string, envelope: Envelope, recipients: seq<MailAddress>): Script {
    [("EHLO " + hostname + CRLF, "250"), (MAIL_KEYWORD + envelope.sender.address + ADDRESS_END, "250")]
    + RcptScript(recipients)
    + [("DATA" + CRLF, "354"), (envelope.body, "250")]
  }

  const QUIT_LINE := "QUIT" + CRLF

  lemma {:induction false} ConverseConcat<P>(react: React<P>, sendOk: nat -> bool, a: Script, b: Script, peer: P,
                                             sent: nat)
    ensures var first := Converse(react, sendOk, a, peer, sent);
            Converse(react, sendOk, a + b, peer, sent)
            == if first.result.Failure? then first else Converse(react, sendOk, b, first.peer, first.sent)
    decreases |a|
  {
    if a == [] {
      assert a + b == b;
    } else if sendOk(sent) {
      assert (a + b)[1..] == a[1..] + b;
      var (next, read) := react(peer, a[0].0);
      if Judge(read, a[0].1).Success? {
        ConverseConcat(react, sendOk, a[1..], b, next, sent + 1);
      }
    }
  }

  lemma {:induction false} ConverseProgress<P>(react: React<P>, sendOk: nat -> bool, script: Script, peer: P, sent: nat)
    ensures var t := Converse(react, sendOk, script, peer, sent);
            && sent <= t.sent <= sent + |script|
            && (t.result.Success? ==> t.sent == sent + |script|)
    decreases |script|
  {
    if script != [] && sendOk(sent) {
      var (next, read) := react(peer, script[0].0);
      if Judge(read, script[0].1).Success? {
        ConverseProgress(react, sendOk, script[1..], next, sent + 1);
      }
    }
  }

  /** The peer once it took the first `k` messages. */
  function After<P>(react: React<P>, script: Script, peer: P, k: nat): P
    requires k <= |script|
  {
    if k == 0 then peer else After(react, script[1..], react(peer, script[0].0).0, k - 1)
  }

  /** What the peer answers to the k-th message. */
  function AnswerTo<P>(react: React<P>, script: Script, peer: P, k: nat): Incoming
    requires k < |script|
  {
    react(After(react, script, peer, k), script[k].0).1
  }

  /** The j-th message was sent and answered as expected. */
  predicate GoodTurn<P>(react: React<P>, sendOk: nat -> bool, script: Script, peer: P, sent: nat, j: nat)
    requires j < |script|
  {
    var r := AnswerTo(react, script, peer, j);
    sendOk(sent + j) && r.Line? && script[j].1 <= r.text
  }

  /** So were the first `k`. */
  ghost predicate WentWell<P>(react: React<P>, sendOk: nat -> bool, script: Script, peer: P, sent: nat, k: nat)
    requires k <= |script|
  {
    forall j | 0 <= j < k :: GoodTurn(react, sendOk, script, peer, sent, j)
  }

  /**
   Why a dialogue ended: it came through, or a send failed, or the last message sent got a wrong answer, an error when
   it was read, or no answer at all; all before went well.
   */
  ghost predicate EndsBecause<P>(react: React<P>, sendOk: nat -> bool, script: Script, peer: P, sent: nat, t: Talk<P>) {
    && sent <= t.sent <= sent + |script|
    && var k := t.sent - sent;
       && t.peer == After(react, script, peer, k)
       && if t.result.Success? then k == |script| && WentWell(react, sendOk, script, peer, sent, k)
          else if k < |script| && !sendOk(t.sent) && WentWell(react, sendOk, script, peer, sent, k)
          then t.result.error == ClientError.IoError
          else
            && k > 0 && WentWell(react, sendOk, script, peer, sent, k - 1) && sendOk(t.sent - 1)
            && match AnswerTo(react, script, peer, k - 1)
               case Line(text) => !(script[k - 1].1 <= text) && t.result.error == SmtpError(text)
               case ReadError => t.result.error == ClientError.IoError
               case NoAnswer => t.result.error == Timeout
  }

  lemma {:induction false} DialogueEnds<P>(react: React<P>, sendOk: nat -> bool, script: Script, peer: P, sent: nat)
    ensures EndsBecause(react, sendOk, script, peer, sent, Converse(react, sendOk, script, peer, sent))
    decreases |script|
  {
    if script != [] && sendOk(sent) {
      var (next, read) := react(peer, script[0].0);
      var t := Converse(react, sendOk, script, peer, sent);
      assert AnswerTo(react, script, peer, 0) == read;
      if Judge(read, script[0].1).Success? {
        var k := t.sent - sent;
        DialogueEnds(react, sendOk, script[1..], next, sent + 1);
        assert GoodTurn(react, sendOk, script, peer, sent, 0);
        OneBehind(react, sendOk, script, peer, sent, k);
        if k > 1 {
          OneBehind(react, sendOk, script, peer, sent, k - 1);
        }
      } else {
        assert !GoodTurn(react, sendOk, script, peer, sent, 0);
      }
    }
  }

  /** The dialogue from the second message on. */
  lemma OneBehind<P>(react: React<P>, sendOk: nat -> bool, script: Script, peer: P, sent: nat, k: nat)
    requires 0 < k <= |script| && GoodTurn(react, sendOk, script, peer, sent, 0)
    ensures var next := react(peer, script[0].0).0;
            && After(react, script, peer, k) == After(react, script[1..], next, k - 1)
            && (k < |script| ==> AnswerTo(react, script, peer, k) == AnswerTo(react, script[1..], next, k - 1))
            && (WentWell(react, sendOk, script, peer, sent, k)
                <==> WentWell(react, sendOk, script[1..], next, sent + 1, k - 1))
  {
    var next, rest, n := react(peer, script[0].0).0, script[1..], sent + 1;
    forall j | 0 < j < |script|
      ensures GoodTurn(react, sendOk, script, peer, sent, j) <==> GoodTurn(react, sendOk, rest, next, n, j - 1)
    {
      assert sent + j == n + (j - 1) && script[j] == rest[j - 1];
    }
    if WentWell(react, sendOk, script, peer, sent, k) {
      forall j | 0 <= j < k - 1
        ensures GoodTurn(react, sendOk, rest, next, n, j)
      {
        assert GoodTurn(react, sendOk, script, peer, sent, j + 1);
      }
    }
  }

  /** `sent` are the first messages of the script. */
  predicate Sent(sent: seq<string>, script: Script) {
    |sent| <= |script| && forall k | 0 <= k < |sent| :: sent[k] == script[k].0
  }

  /**
   `SmtpClient::run` on a fresh connection.  The peer sees exactly the script up to the first answer that is
   not the expected one, and the farewell, whose fate is ignored, only after all of it.
   */
  method RunClient<P>(conn: Connection<P>, hostname: string, envelope: Envelope, recipients: seq<MailAddress>)
    returns (r: Result<(), ClientError>)
    requires conn.sent == []
    modifies conn
    ensures var script := DeliveryScript(hostname, envelope, recipients);
            var t := Converse(conn.react, conn.sendOk, script, old(conn.peer), 0);
            && r == t.result
            && t.sent <= |conn.sent|
            && Sent(conn.sent[..t.sent], script)
            && if r.Success? && conn.sendOk(t.sent)
               then conn.sent[t.sent..] == [QUIT_LINE] && conn.peer == conn.react(t.peer, QUIT_LINE).0
               else conn.sent[t.sent..] == [] && conn.peer == t.peer
  {
    ghost var first, script := conn.peer, DeliveryScript(hostname, envelope, recipients);
    ghost var rcpts := RcptScript(recipients);
    ghost var done: Script := [];
    ScriptParts(hostname, envelope, recipients);
    r := conn.Next(first, done, script, "EHLO " + hostname + CRLF, "250");
    if r.Failure? { return; }
    done := done + [("EHLO " + hostname + CRLF, "250")];
    r := conn.Next(first, done, script, MAIL_KEYWORD + envelope.sender.address + ADDRESS_END, "250");
    if r.Failure? { return; }
    done := done + [(MAIL_KEYWORD + envelope.sender.address + ADDRESS_END, "250")];
    ghost var opening := done;
    for i := 0 to |recipients|
      invariant done == opening + rcpts[..i]
      invariant conn.At(first, done)
    {
      assert rcpts[..i + 1] == rcpts[..i] + [rcpts[i]];
      Assoc(opening, rcpts[..i], [rcpts[i]]);
      assert opening + rcpts[..i + 1] <= opening + rcpts;
      r := conn.Next(first, done, script, RCPT_KEYWORD + recipients[i].address + ADDRESS_END, "250");
      if r.Failure? { return; }
      done := done + [rcpts[i]];
    }
    assert rcpts[..|recipients|] == rcpts;
    r := conn.Next(first, done, script, "DATA" + CRLF, "354");
    if r.Failure? { return; }
    done := done + [("DATA" + CRLF, "354")];
    r := conn.Next(first, done, script, envelope.body, "250");
    if r.Failure? { return; }
    done := done + [(envelope.body, "250")];
    assert done == script;
    ghost var before := conn.sent;
    var _ := conn.Send(QUIT_LINE);
    assert conn.sent[..|before|] == before;
  }

  /**
   The net a delivery goes into: what DNS says of a domain, the outcome of the i-th connection attempt, and the
   peer found behind a connection.
   */
  datatype Network<!P> = Network(
    lookup: string -> Result<Lookup, DnsError>,
    connect: nat -> Option<string>,
    session: Connected -> P,
    react: React<P>,
    sendOk: nat -> bool)

  /** The dialogue of a delivery, if a peer is found; the domain of the first recipient is the one looked up. */
  ghost function Dialogue<P>(net: Network<P>, hostname: string, envelope: Envelope, recipients: seq<MailAddress>)
    : Result<Talk<P>, ClientError>
    requires recipients != []
  {
    match Found(net.lookup(recipients[0].domain), net.connect)
    case Failure(e) => Failure(e)
    case Success(c) =>
      Success(Converse(net.react, net.sendOk, DeliveryScript(hostname, envelope, recipients), net.session(c), 0))
  }

  /** How a delivery ends. */
  ghost function DeliveryResult<P>(net: Network<P>, hostname: string, envelope: Envelope, recipients: seq<MailAddress>)
    : Result<(), ClientError>
    requires recipients != []
  {
    var d := Dialogue(net, hostname, envelope, recipients);
    if d.Failure? then Failure(d.error) else d.value.result
  }

  /** `SmtpClient::deliver`. */
  method Deliver<P>(net: Network<P>, hostname: string, envelope: Envelope, recipients: seq<MailAddress>)
    returns (r: Result<(), ClientError>)
    requires recipients != []
    ensures r == DeliveryResult(net, hostname, envelope, recipients)
  {
    var found := MxTable.DiscoverConnection(net.lookup(recipients[0].domain), net.connect);
    if found.Failure? {
      return Failure(found.error);
    }
    var conn := new Connection(net.react, net.sendOk, net.session(found.value));
    r := RunClient(conn, hostname, envelope, recipients);
  }

  lemma ScriptParts(hostname: string, envelope: Envelope, recipients: seq<MailAddress>)
    ensures var script := DeliveryScript(hostname, envelope, recipients);
            var ehlo := ("EHLO " + hostname + CRLF, "250");
            var mail := (MAIL_KEYWORD + envelope.sender.address + ADDRESS_END, "250");
            var data, body := ("DATA" + CRLF, "354"), (envelope.body, "250");
            var rcpts := RcptScript(recipients);
            && [] + [ehlo] <= script
            && [] + [ehlo] + [mail] <= script
            && ([] + [ehlo] + [mail]) + rcpts <= script
            && ([] + [ehlo] + [mail]) + rcpts + [data] <= script
            && ([] + [ehlo] + [mail]) + rcpts + [data] + [body] == script
  {
  }

  /** A dialogue that fails within a prefix of the script ends there. */
  lemma StopsAt<P>(react: React<P>, sendOk: nat -> bool, done: Script, script: Script, peer: P)
    requires done <= script
    ensures var t := Converse(react, sendOk, done, peer, 0);
            t.result.Failure? ==> Converse(react, sendOk, script, peer, 0) == t
  {
    assert script == done + script[|done|..];
    ConverseConcat(react, sendOk, done, script[|done|..], peer, 0);
  }
}
