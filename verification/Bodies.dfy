/** The DATA phase over whole stretches of input: bodies in pieces, rejected bodies, and rollback. */
module Bodies {
  import opened Wrappers
  import opened Text
  import opened Transparency
  import opened DotStuffing
  import opened Segmentation
  import opened Rejection
  import opened Addresses
  import opened Commands
  import opened Delivery
  import opened Protocol
  import opened Provenance

  // ---------- bodies in pieces ----------

  /** The turns in which the pieces of a stream arrive. */
  function PieceTurns(pieces: seq<string>, answers: nat -> Answers): (r: seq<Turn>)
    ensures |r| == |pieces|
  {
    seq(|pieces|, i requires 0 <= i < |pieces| => Turn(pieces[i], answers(i)))
  }

  function Silent(input: string): Exchange {
    Exchange(input, [])
  }

  /** A piece in which no end is seen is taken in silence. */
  lemma SilentPiece(s: Session, d: DataState, piece: string, a: Answers)
    requires s.state == Data(d) && !ContainsMailEnd(piece)
    ensures OutcomeOf(Handle(s.hostname, s.state, piece, a)) == Continue
    ensures Step(s, piece, a)
         == s.(state := Data(d.(mailBody := d.mailBody + piece)), log := s.log + [Silent(piece)])
  {
    assert s.stored + [] == s.stored && s.queued + [] == s.queued && s.logins + [] == s.logins;
  }

  /** One more silent piece at the end of a run that is in DATA state. */
  lemma SilentTurn(s: Session, turns: seq<Turn>, m: Session, d: DataState, piece: string, a: Answers)
    requires Run(s, turns) == (m, Continue) && m.state == Data(d) && !ContainsMailEnd(piece)
    ensures Run(s, turns + [Turn(piece, a)])
         == (m.(state := Data(d.(mailBody := d.mailBody + piece)), log := m.log + [Silent(piece)]), Continue)
  {
    RunSnoc(s, turns, Turn(piece, a));
    SilentPiece(m, d, piece, a);
  }

  /** What the session is after silent pieces with the text `body`. */
  ghost predicate Grown(s: Session, d: DataState, t: Session, body: string, pieces: nat) {
    && t.state.Data?
    && t == s.(state := Data(d.(mailBody := d.mailBody + body)), log := t.log)
    && |t.log| == |s.log| + pieces
    && forall i | |s.log| <= i < |t.log| :: t.log[i].replies == []
  }

  /** Any number of pieces in which no end is seen only grow the body. */
  lemma {:induction false} PiecesAccumulate(s: Session, d: DataState, pieces: seq<string>, answers: nat -> Answers)
    requires s.state == Data(d) && forall i | 0 <= i < |pieces| :: !ContainsMailEnd(pieces[i])
    ensures Run(s, PieceTurns(pieces, answers)).1 == Continue
    ensures Grown(s, d, Run(s, PieceTurns(pieces, answers)).0, Flatten(pieces), |pieces|)
    decreases |pieces|
  {
    if pieces == [] {
      assert d.mailBody + "" == d.mailBody;
    } else {
      var n := |pieces| - 1;
      var init, last := pieces[..n], pieces[n];
      PieceTurnsSnoc(pieces, answers);
      PiecesAccumulate(s, d, init, answers);
      var m := Run(s, PieceTurns(init, answers)).0;
      SilentTurn(s, PieceTurns(init, answers), m, m.state.data, last, answers(n));
      assert pieces == init + [last];
      FlattenSnoc(init, last);
      GrownMore(s, d, m, Flatten(init), n, last);
    }
  }

  lemma GrownMore(s: Session, d: DataState, m: Session, body: string, n: nat, piece: string)
    requires Grown(s, d, m, body, n)
    ensures Grown(s, d, m.(state := Data(m.state.data.(mailBody := m.state.data.mailBody + piece)),
                           log := m.log + [Silent(piece)]), body + piece, n + 1)
  {
    Assoc(d.mailBody, body, piece);
  }

  lemma PieceTurnsSnoc(pieces: seq<string>, answers: nat -> Answers)
    requires pieces != []
    ensures var n := |pieces| - 1;
            PieceTurns(pieces, answers) == PieceTurns(pieces[..n], answers) + [Turn(pieces[n], answers(n))]
  {
  }

  /**
   Session `t` is `s` after a body in `count` pieces was handed over as `h`: silence, then one reply; the
   session has completed, or is back where DATA was issued.
   */
  ghost predicate Piped(s: Session, d: DataState, t: Session, count: nat, a: Answers, h: Handed) {
    && t.stored == s.stored + h.stored && t.queued == s.queued + h.queued
    && count > 0 && |t.log| == |s.log| + count
    && (forall i | |s.log| <= i < |t.log| - 1 :: t.log[i].replies == [])
    && (a.sendOk(0) ==>
          && JustSaid(t.log[|t.log| - 1].replies, if h.result.Success? then Okay else MailboxUnavailable)
          && t.state == (if h.result.Success? then DataComplete else Rcpt(Rollback(s.hostname, d))))
  }

  lemma GrownThenHanded(s: Session, d: DataState, m: Session, body: string, n: nat, t: Session, a: Answers, h: Handed)
    requires Grown(s, d, m, body, n) && HandedOver(m, m.state.data, t, a, h)
    ensures Piped(s, d, t, n + 1, a, h)
  {
    assert Rollback(m.hostname, m.state.data) == Rollback(s.hostname, d);
    forall i | |s.log| <= i < |t.log| - 1
      ensures t.log[i].replies == []
    {
      assert t.log[i] == m.log[i];
    }
  }

  /** The mail of transaction `d` with the body `text`, handed over. */
  function HandedAs(d: DataState, text: string, a: Answers): Handed {
    DeliverMail(Envelope(d.sender, d.recipients, text), a.mailboxHome, a.storeOk)
  }

  /** Pieces in silence up to the first in which an end is seen, and all of them together are then the body. */
  lemma PiecesThenEnd(s: Session, d: DataState, pieces: seq<string>, answers: nat -> Answers, text: string)
    requires s.state == Data(d) && d.mailBody == ""
    requires pieces != [] && FirstEnd(pieces) == |pieces| - 1
    requires Decoded(Flatten(pieces)) == Success(text)
    ensures var a := answers(|pieces| - 1);
            Piped(s, d, Run(s, PieceTurns(pieces, answers)).0, |pieces|, a, HandedAs(d, text, a))
  {
    var n := |pieces| - 1;
    var init, turns, a := pieces[..n], PieceTurns(pieces[..n], answers), answers(n);
    PiecesAccumulate(s, d, init, answers);
    PieceTurnsSnoc(pieces, answers);
    var m := Run(s, turns).0;
    assert pieces == init + [pieces[n]];
    FlattenSnoc(init, pieces[n]);
    assert "" + Flatten(init) == Flatten(init);
    EndTurn(s, turns, m, m.state.data, pieces[n], a, HandedAs(d, text, a));
    GrownThenHanded(s, d, m, Flatten(init), n, Run(s, PieceTurns(pieces, answers)).0, a, HandedAs(d, text, a));
  }

  lemma StuffedIsTerminated(lines: seq<string>)
    requires lines != [] && AllNoCrlf(lines)
    ensures Terminated(WireLines(lines))
  {
    StuffedLines(lines);
    var wire := WireLines(lines);
    assert forall k | 0 <= k < |wire| - 1 :: wire[k] == StuffAll(lines)[k];
  }

  /**
   The whole body pipeline.  A message of at least one line, dot-stuffed and terminated, arrives in pieces of
   any kind, safely cut.  No piece but the last gets a reply; then a mail is handed over whose body is exactly
   the original lines and the terminator.
   */
  lemma BodyPipeline(s: Session, d: DataState, lines: seq<string>, pieces: seq<string>, answers: nat -> Answers)
    requires s.state == Data(d) && d.mailBody == ""
    requires lines != [] && AllNoCrlf(lines)
    requires pieces != [] && Flatten(pieces) == Render(WireLines(lines)) && SafelyCut(WireLines(lines), pieces)
    ensures var a := answers(|pieces| - 1);
            Piped(s, d, Run(s, PieceTurns(pieces, answers)).0, |pieces|, a, HandedAs(d, PlainBody(lines), a))
  {
    StuffedIsTerminated(lines);
    EndSeenIff(WireLines(lines), pieces);
    RoundTrip(lines);
    PiecesThenEnd(s, d, pieces, answers, PlainBody(lines));
  }

  /** The start of a terminated message, taken for the whole. */
  lemma DecodeCutOff(all: seq<string>, c: nat)
    requires Terminated(all) && 3 <= c < |Render(all)|
    ensures Decoded(Render(all)[..c]) == Success(Unstuff(Render(all)[..c]) + ".")
  {
    var s := Render(all);
    var p := s[..c];
    forall i: nat | OccursAt(p, MAIL_END, i)
      ensures false
    {
      assert s[i..i + 5] == p[i..i + 5];
      MailEndAtTheEnd(all, i);
    }
    NotTerminatedText(p);
    DecodedOpen(p);
  }

  lemma NotTerminatedText(p: string)
    requires forall i: nat :: !OccursAt(p, MAIL_END, i)
    ensures !PrematureEnd(p) && !EndsWith(p, MAIL_END)
  {
    if EndsWith(p, MAIL_END) {
      assert p[|p| - 5..|p|] == p[|p| - 5..];
      assert OccursAt(p, MAIL_END, |p| - 5);
    }
  }

  /** The session has taken all pieces in silence and goes on waiting. */
  ghost predicate StillWaiting(s: Session, d: DataState, pieces: seq<string>, answers: nat -> Answers) {
    var (t, outcome) := Run(s, PieceTurns(pieces, answers));
    outcome == Continue && Grown(s, d, t, Flatten(pieces), |pieces|)
  }

  /** The pieces up to `k` were handed over as a mail, with a dot put at its end. */
  ghost predicate CutOffAt(s: Session, d: DataState, pieces: seq<string>, answers: nat -> Answers, k: nat) {
    k < |pieces|
    && Piped(s, d, Run(s, PieceTurns(pieces[..k + 1], answers)).0, k + 1, answers(k),
             HandedAs(d, Unstuff(Flatten(pieces[..k + 1])) + ".", answers(k)))
  }

  /**
   What happens to a message that is not safely cut.  Either no end is ever seen, and the session goes on
   waiting in silence; or the pieces up to a false end are handed over as the whole mail, and the session takes the
   next piece for a command.
   */
  lemma BrokenPipeline(s: Session, d: DataState, lines: seq<string>, pieces: seq<string>, answers: nat -> Answers)
    requires s.state == Data(d) && d.mailBody == ""
    requires lines != [] && AllNoCrlf(lines)
    requires pieces != [] && "" !in pieces && Flatten(pieces) == Render(WireLines(lines))
    requires !SafelyCut(WireLines(lines), pieces)
    ensures var k := FirstEnd(pieces);
            && k != |pieces| - 1
            && if k == |pieces| then StillWaiting(s, d, pieces, answers)
               else && CutOffAt(s, d, pieces, answers, k)
                    && (answers(k).sendOk(0) ==> RestIsCommand(s, pieces, answers, k))
  {
    StuffedIsTerminated(lines);
    EndSeenIff(WireLines(lines), pieces);
    var k := FirstEnd(pieces);
    if k == |pieces| {
      PiecesAccumulate(s, d, pieces, answers);
    } else {
      EarlyEnd(s, d, WireLines(lines), pieces, answers, k);
      if answers(k).sendOk(0) {
        RestFollows(s, d, pieces, answers, k);
      }
    }
  }

  /**
   The piece behind `k` is taken for a command: it stores and queues nothing, and ends the session unless it happens
   to be one that the state after the false end expects.
   */
  ghost predicate RestIsCommand(s: Session, pieces: seq<string>, answers: nat -> Answers, k: nat) {
    && k + 1 < |pieces|
    && var t := Run(s, PieceTurns(pieces[..k + 1], answers)).0;
       var u := Run(s, PieceTurns(pieces[..k + 2], answers)).0;
       var verb := VerbOf(pieces[k + 1]);
       && u == Step(t, pieces[k + 1], answers(k + 1))
       && u.stored == t.stored && u.queued == t.queued
       && (t.state == DataComplete || t.state.Rcpt?)
       && (t.state == DataComplete ==> u.state == if verb == Some(QUIT) then Quit else Cancelled)
       && (t.state.Rcpt? && verb != Some(RCPT) && verb != Some(DATA) ==> u.state == Cancelled)
  }

  lemma RestFollows(s: Session, d: DataState, pieces: seq<string>, answers: nat -> Answers, k: nat)
    requires k + 1 < |pieces| && CutOffAt(s, d, pieces, answers, k) && answers(k).sendOk(0)
    ensures RestIsCommand(s, pieces, answers, k)
  {
    var turns := PieceTurns(pieces[..k + 1], answers);
    var t := Run(s, turns).0;
    PieceTurnsSnoc(pieces[..k + 2], answers);
    assert pieces[..k + 2][..k + 1] == pieces[..k + 1];
    GoesOn(s, turns);
    RunSnoc(s, turns, Turn(pieces[k + 1], answers(k + 1)));
    CommandFollows(t, pieces[k + 1], answers(k + 1));
  }

  lemma CommandFollows(t: Session, input: string, a: Answers)
    requires t.state == DataComplete || t.state.Rcpt?
    ensures var u, verb := Step(t, input, a), VerbOf(input);
            && u.stored == t.stored && u.queued == t.queued
            && (t.state == DataComplete ==> u.state == if verb == Some(QUIT) then Quit else Cancelled)
            && (t.state.Rcpt? && verb != Some(RCPT) && verb != Some(DATA) ==> u.state == Cancelled)
  {
    assert t.stored + [] == t.stored && t.queued + [] == t.queued;
  }

  lemma EarlyEnd(s: Session, d: DataState, all: seq<string>, pieces: seq<string>, answers: nat -> Answers, k: nat)
    requires s.state == Data(d) && d.mailBody == ""
    requires Terminated(all) && "" !in pieces && Flatten(pieces) == Render(all)
    requires FirstEnd(pieces) == k < |pieces| - 1
    ensures CutOffAt(s, d, pieces, answers, k)
  {
    CutOffDecoded(all, pieces, k);
    var start := pieces[..k + 1];
    var text := Unstuff(Flatten(start)) + ".";
    PiecesThenEnd(s, d, start, answers, text);
  }

  lemma CutOffDecoded(all: seq<string>, pieces: seq<string>, k: nat)
    requires Terminated(all) && "" !in pieces && Flatten(pieces) == Render(all)
    requires FirstEnd(pieces) == k < |pieces| - 1
    ensures var start := pieces[..k + 1];
            FirstEnd(start) == k && Decoded(Flatten(start)) == Success(Unstuff(Flatten(start)) + ".")
  {
    CutOffPieces(all, pieces, k);
    DecodeCutOff(all, |Flatten(pieces[..k + 1])|);
  }

  /** The pieces up to an end seen too early are a proper start of the text. */
  lemma CutOffPieces(all: seq<string>, pieces: seq<string>, k: nat)
    requires Terminated(all) && "" !in pieces && Flatten(pieces) == Render(all)
    requires FirstEnd(pieces) == k < |pieces| - 1
    ensures var start := pieces[..k + 1];
            && FirstEnd(start) == k
            && 3 <= |Flatten(start)| < |Render(all)|
            && Flatten(start) == Render(all)[..|Flatten(start)|]
  {
    var start, rest := pieces[..k + 1], pieces[k + 1..];
    assert pieces == start + rest;
    FlattenConcat(start, rest);
    assert rest[0] in pieces;
    FirstEndOfStart(pieces, k);
    InnerPieceSeen(all, pieces, k);
    PieceOfText(pieces, k);
  }

  lemma FirstEndOfStart(pieces: seq<string>, k: nat)
    requires FirstEnd(pieces) == k < |pieces|
    ensures FirstEnd(pieces[..k + 1]) == k
  {
    assert forall i | 0 <= i <= k :: pieces[..k + 1][i] == pieces[i];
  }

  // ---------- inputs that fail ----------

  /** The message of one line `a`, cut inside a line end: the session never sees the end. */
  lemma EndMissed(s: Session, d: DataState, answers: nat -> Answers)
    requires s.state == Data(d) && d.mailBody == ""
    ensures var pieces := ["a\r", "\n.\r\n"];
            Flatten(pieces) == Render(WireLines(["a"])) && StillWaiting(s, d, pieces, answers)
  {
    MissedText();
    PiecesAccumulate(s, d, ["a\r", "\n.\r\n"], answers);
  }

  lemma MissedText()
    ensures Flatten(["a\r", "\n.\r\n"]) == Render(WireLines(["a"]))
    ensures !ContainsMailEnd("a\r") && !ContainsMailEnd("\n.\r\n")
  {
    TwoParts("a\r", "\n.\r\n");
    Undotted("a");
    assert StuffAll(["a"]) == ["a"];
    TwoLines("a", ".");
    assert "\n.\r\n"[1..][2] != SEP[2];
  }

  /** The lines `a.` and `b`, cut before the dot: only the first line is delivered, and `b` is read as a command. */
  lemma LineTakenForEnd(s: Session, d: DataState, answers: nat -> Answers)
    requires s.state == Data(d) && d.mailBody == ""
    ensures var pieces := ["a", ".\r\n", "b\r\n.\r\n"];
            && Flatten(pieces) == Render(WireLines(["a.", "b"]))
            && Piped(s, d, Run(s, PieceTurns(pieces[..2], answers)).0, 2, answers(1),
                     HandedAs(d, "a.\r\n.", answers(1)))
  {
    CutLineText();
    CutLineDecoded();
    PiecesThenEnd(s, d, ["a", ".\r\n"], answers, "a.\r\n.");
  }

  lemma CutLineText()
    ensures var pieces := ["a", ".\r\n", "b\r\n.\r\n"];
            Flatten(pieces) == Render(WireLines(["a.", "b"])) && pieces[..2] == ["a", ".\r\n"]
  {
    var start, rest := ["a", ".\r\n"], "b\r\n.\r\n";
    Undotted("a.");
    Undotted("b");
    assert StuffAll(["a.", "b"]) == ["a.", "b"];
    ThreeLines("a.", "b", ".");
    FlattenSnoc(start, rest);
    TwoParts("a", ".\r\n");
    assert start + [rest] == ["a", ".\r\n", rest];
  }

  lemma CutLineDecoded()
    ensures Flatten(["a", ".\r\n"]) == "a.\r\n" && Decoded("a.\r\n") == Success("a.\r\n.")
    ensures FirstEnd(["a", ".\r\n"]) == 1
  {
    TwoParts("a", ".\r\n");
    assert Render(["a."]) == "a.\r\n" && Render(["a."]) + "." == "a.\r\n.";
    Undotted("a.");
    assert StripAll(["a."]) == ["a."];
    DecodeUnterminated(["a."]);
    assert ["a", ".\r\n"][1..] == [".\r\n"] && ".\r\n"[..3] == TERMINATOR;
  }

  /** The lines `a` and `.b`, cut behind the first dot of the stuffed second line: that line is lost. */
  lemma StuffingTakenForEnd(s: Session, d: DataState, answers: nat -> Answers)
    requires s.state == Data(d) && d.mailBody == ""
    ensures var pieces := ["a\r\n.", ".b\r\n.\r\n"];
            && Flatten(pieces) == Render(WireLines(["a", ".b"]))
            && Piped(s, d, Run(s, PieceTurns(pieces[..1], answers)).0, 1, answers(0),
                     HandedAs(d, "a\r\n.", answers(0)))
  {
    CutStuffingText();
    FlattenOne("a\r\n.");
    assert "a\r\n."[1..] == SEP;
    CutStuffingDecoded();
    PiecesThenEnd(s, d, ["a\r\n."], answers, "a\r\n.");
  }

  lemma CutStuffingText()
    ensures var pieces := ["a\r\n.", ".b\r\n.\r\n"];
            Flatten(pieces) == Render(WireLines(["a", ".b"])) && pieces[..1] == ["a\r\n."]
  {
    Undotted("a");
    assert StuffLine(".b") == "..b";
    assert StuffAll(["a", ".b"]) == ["a", "..b"];
    ThreeLines("a", "..b", ".");
    TwoParts("a\r\n.", ".b\r\n.\r\n");
  }

  lemma CutStuffingDecoded()
    ensures Decoded("a\r\n.") == Success("a\r\n.")
  {
    var s := "a\r\n.";
    LinesThenText(["a"], ".");
    assert Render(["a"]) + "." == s;
    OneLine(".");
    assert StripAll(["a", "."]) == ["a", ""] && ["a", ""][1..] == [""];
    NotTerminatedText(s);
    DecodedOpen(s);
  }

  lemma Undotted(line: string)
    requires line != "" && line[0] != '.'
    ensures StuffLine(line) == line == StripDot(line)
  {
  }

  lemma TwoParts(a: string, b: string)
    ensures Flatten([a, b]) == a + b
  {
    assert [a, b][1..] == [b];
    FlattenOne(b);
  }

  lemma TwoLines(a: string, b: string)
    ensures Render([a, b]) == a + CRLF + (b + CRLF)
  {
    assert [a, b][1..] == [b] && Render([b]) == b + CRLF + "";
  }

  lemma ThreeLines(a: string, b: string, c: string)
    ensures Render([a, b, c]) == a + CRLF + (b + CRLF + (c + CRLF))
  {
    assert [a, b, c][1..] == [b, c];
    TwoLines(b, c);
  }

  /** A QUIT in the piece that ends an empty message becomes part of the mail, and the mail is delivered. */
  lemma CommandDelivered(s: Session, d: DataState, a: Answers)
    requires s.state == Data(d) && d.mailBody == ""
    ensures Piped(s, d, Run(s, PieceTurns([TERMINATOR + "QUIT\r\n"], _ => a)).0, 1, a,
                  HandedAs(d, "\r\nQUIT\r\n.", a))
  {
    var piece := TERMINATOR + "QUIT\r\n";
    FlattenOne(piece);
    CommandBecomesText();
    assert piece[..3] == TERMINATOR;
    PiecesThenEnd(s, d, [piece], _ => a, "\r\nQUIT\r\n.");
  }

  // ---------- the piece that ends a body ----------

  /** The turn that completes a body, at the end of a run. */
  lemma EndTurn(s: Session, turns: seq<Turn>, m: Session, d: DataState, input: string, a: Answers, h: Handed)
    requires Run(s, turns) == (m, Continue) && m.state == Data(d) && ReadBody(d, input, a) == Finished(h)
    ensures HandedOver(m, d, Run(s, turns + [Turn(input, a)]).0, a, h)
  {
    RunSnoc(s, turns, Turn(input, a));
    DataStepIs(m, d, input, a);
    FinishApplied(m, d, input, a, h);
  }

  /** Session `t` is `s` after its body was handed over as `h`. */
  ghost predicate HandedOver(s: Session, d: DataState, t: Session, a: Answers, h: Handed) {
    && t.stored == s.stored + h.stored && t.queued == s.queued + h.queued
    && |t.log| == |s.log| + 1
    && (forall i | 0 <= i < |s.log| :: t.log[i] == s.log[i])
    && (a.sendOk(0) ==>
          && JustSaid(t.log[|s.log|].replies, if h.result.Success? then Okay else MailboxUnavailable)
          && t.state == (if h.result.Success? then DataComplete else Rcpt(Rollback(s.hostname, d))))
  }

  lemma DataStepIs(s: Session, d: DataState, input: string, a: Answers)
    requires s.state == Data(d)
    ensures Step(s, input, a) == Apply(s, input, ReceiveData(s.hostname, d, ReadBody(d, input, a), a))
  {
  }

  lemma FinishApplied(s: Session, d: DataState, input: string, a: Answers, h: Handed)
    ensures HandedOver(s, d, Apply(s, input, ReceiveData(s.hostname, d, Finished(h), a)), a, h)
  {
  }

  // ---------- rollback ----------

  /** The DATA state `d` belongs to the transaction `r`. */
  predicate Carries(d: DataState, r: RcptState) {
    && d.sender == r.sender
    && d.isLocalSender == r.isLocalSender
    && d.recipients == r.recipients
    && d.authorized == r.authorized
  }

  /** Where a session that was in the DATA state of transaction `r` can be after one more input. */
  predicate DataLeadsTo(state: State, r: RcptState) {
    || (state.Data? && Carries(state.data, r))
    || state == Rcpt(r)
    || state.DataComplete?
    || state.Cancelled?
  }

  lemma DataStep(hostname: string, d: DataState, r: RcptState, input: string, a: Answers)
    requires Carries(d, r) && r.hostname == hostname
    ensures var e := Handle(hostname, Data(d), input, a);
            && DataLeadsTo(e.next, r)
            && (e.next == Rcpt(r) <==> JustSaid(e.replies, MailboxUnavailable))
            && (e.next.DataComplete? <==> JustSaid(e.replies, Okay))
            && (e.next.Data? ==> OutcomeOf(e) == Continue)
  {
    DataPieceStep(hostname, d, r, ReadBody(d, input, a), a);
  }

  lemma DataPieceStep(hostname: string, d: DataState, r: RcptState, piece: BodyPiece, a: Answers)
    requires Carries(d, r) && r.hostname == hostname
    ensures var e := ReceiveData(hostname, d, piece, a);
            && DataLeadsTo(e.next, r)
            && (e.next == Rcpt(r) <==> JustSaid(e.replies, MailboxUnavailable))
            && (e.next.DataComplete? <==> JustSaid(e.replies, Okay))
            && (e.next.Data? ==> OutcomeOf(e) == Continue)
  {
  }

  /** The session is in DATA state before each of these turns. */
  ghost predicate StaysInData(s: Session, turns: seq<Turn>) {
    forall k | 0 <= k < |turns| :: InData(s, turns[..k])
  }

  ghost predicate InData(s: Session, turns: seq<Turn>) {
    Run(s, turns).0.state.Data?
  }

  lemma StaysShorter(s: Session, turns: seq<Turn>)
    requires turns != [] && StaysInData(s, turns)
    ensures StaysInData(s, turns[..|turns| - 1]) && InData(s, turns[..|turns| - 1])
  {
    var init := turns[..|turns| - 1];
    forall k | 0 <= k < |init|
      ensures InData(s, init[..k])
    {
      assert init[..k] == turns[..k];
    }
  }

  /**
   Rollback: after DATA, any inputs during which the session stays in DATA, whatever bodies were rejected
   on the way, then one more.  The session is then still in that transaction's DATA, or back in exactly the
   RCPT state that issued DATA, or has completed, or is gone.
   */
  lemma {:induction false} DataRollsBack(s: Session, r: RcptState, turns: seq<Turn>)
    requires s.state.Data? && Carries(s.state.data, r) && r.hostname == s.hostname
    requires StaysInData(s, turns)
    ensures DataLeadsTo(Run(s, turns).0.state, r) && Run(s, turns).0.hostname == s.hostname
    ensures Run(s, turns).0.state.Data? ==> Run(s, turns).1 == Continue
    decreases |turns|
  {
    if turns != [] {
      var init, last := turns[..|turns| - 1], turns[|turns| - 1];
      StaysShorter(s, turns);
      DataRollsBack(s, r, init);
      assert turns == init + [last];
      DataTurn(s, init, Run(s, init).0, r, last);
    }
  }

  /**
   The same from the RCPT state on: DATA is accepted, then come any inputs.  However many bodies were rejected,
   the transaction is the one that issued DATA.
   */
  lemma DataTransaction(s: Session, r: RcptState, first: Turn, turns: seq<Turn>)
    requires s.state == Rcpt(r) && r.hostname == s.hostname
    requires VerbOf(first.input) == Some(DATA) && first.answers.sendOk(0)
    requires StaysInData(Step(s, first.input, first.answers), turns)
    ensures DataLeadsTo(Run(s, [first] + turns).0.state, r)
  {
    DataAccepted(s, r, first.input, first.answers);
    DataRollsBack(Step(s, first.input, first.answers), r, turns);
    assert ([first] + turns)[0] == first && ([first] + turns)[1..] == turns;
  }

  lemma DataAccepted(s: Session, r: RcptState, input: string, a: Answers)
    requires s.state == Rcpt(r) && VerbOf(input) == Some(DATA) && a.sendOk(0)
    ensures var e := Handle(s.hostname, s.state, input, a);
            && e.next.Data? && Carries(e.next.data, r) && e.next.data.mailBody == ""
            && JustSaid(e.replies, StartInput) && OutcomeOf(e) == Continue
  {
  }

  /** A refused body is thrown away: nothing is stored or queued, and the next body starts afresh. */
  lemma RejectedBodyRestarts(hostname: string, d: DataState, input: string, a: Answers)
    requires ContainsMailEnd(input) && PrematureEnd(d.mailBody + input) && a.sendOk(0)
    ensures var e := Handle(hostname, Data(d), input, a);
            && e.next == Data(d.(mailBody := "", bodyFinished := true))
            && JustSaid(e.replies, UnexpectedEnd)
            && e.stored == [] && e.queued == []
  {
  }

  lemma DataTurn(s: Session, turns: seq<Turn>, m: Session, r: RcptState, t: Turn)
    requires Run(s, turns) == (m, Continue)
    requires m.state.Data? && Carries(m.state.data, r) && r.hostname == m.hostname
    ensures var (n, outcome) := Run(s, turns + [t]);
            DataLeadsTo(n.state, r) && n.hostname == m.hostname && (n.state.Data? ==> outcome == Continue)
  {
    RunSnoc(s, turns, t);
    DataStep(m.hostname, m.state.data, r, t.input, t.answers);
  }
}
