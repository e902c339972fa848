/**
 Which bodies the decoder of src/smtp/server.rs refuses, line by line: a dot line is taken for a misplaced
 end only if it is not the first line, something follows it, and that does not begin with a dot.
 */
module Rejection {
  import opened Wrappers
  import opened Text
  import opened Transparency
  import opened DotStuffing

  /** Line `k` is a dot for which the text is refused; the text ends behind the last line, without a CRLF. */
  predicate StrayDot(lines: seq<string>, k: nat) {
    && 1 <= k && k + 1 < |lines|
    && lines[k] == "." && !("." <= lines[k + 1])
    && !(k + 2 == |lines| && lines[k + 1] == "")
  }

  lemma {:induction false} JoinThenCrlf(lines: seq<string>)
    requires lines != []
    ensures Render(lines) == Join(lines, CRLF) + CRLF
  {
    if |lines| > 1 {
      JoinThenCrlf(lines[1..]);
      Assoc(lines[0] + CRLF, Join(lines[1..], CRLF), CRLF);
    } else {
      assert lines[0] + CRLF + "" == lines[0] + CRLF;
    }
  }

  lemma {:induction false} LinesHaveNoCrlf(s: string)
    ensures AllNoCrlf(Lines(s))
  {
    if s != "" && CRLF <= s {
      LinesHaveNoCrlf(s[2..]);
    } else if s != "" {
      var t := s[1..];
      LinesHaveNoCrlf(t);
      JoinSplit(t, CRLF);
      assert Lines(t)[0] <= t;
      BreakChars(s);
    }
  }

  /** Every text is its lines, but for a last CRLF. */
  lemma TextOfLines(s: string)
    ensures AllNoCrlf(Lines(s)) && Render(Lines(s)) == s + CRLF
  {
    LinesHaveNoCrlf(s);
    JoinSplit(s, CRLF);
    JoinThenCrlf(Lines(s));
  }

  lemma PrematureIsStray(s: string, i: nat) returns (k: nat)
    requires PrematureAt(s, i)
    ensures StrayDot(Lines(s), k)
  {
    var lines := Lines(s);
    var r := Render(lines);
    TextOfLines(s);
    assert r[i..i + 5] == s[i..i + 5];
    k := MailEndIsDotLine(lines, i);
    assert lines[..|lines|] == lines;
    TextFromLine(lines, k + 1);
    assert r[i + 5] == s[i + 5] == r[i + 5..][0];
    assert k + 2 == |lines| ==> lines[k + 2..] == [];
  }

  lemma StrayIsPremature(s: string, k: nat)
    requires StrayDot(Lines(s), k)
    ensures PrematureEnd(s)
  {
    var lines := Lines(s);
    var r := Render(lines);
    TextOfLines(s);
    DotLineIsMailEnd(lines, k);
    TextFromLine(lines, k + 1);
    var i := LineStart(lines, k + 1) - 5;
    if lines[k + 1] == "" {
      FollowedByLine(lines, k + 1);
    }
    assert r[i + 5] == r[i + 5..][0];
    assert s[i..i + 5] == r[i..i + 5];
    assert PrematureAt(s, i);
  }

  lemma FollowedByLine(lines: seq<string>, j: nat)
    requires j + 1 < |lines|
    ensures |Render(lines[j + 1..])| >= 2
  {
    assert lines[j + 1..] == [lines[j + 1]] + lines[j + 2..];
  }

  ghost predicate HasStrayDot(lines: seq<string>) {
    exists k: nat :: StrayDot(lines, k)
  }

  lemma PrematureIffStray(s: string)
    ensures PrematureEnd(s) <==> HasStrayDot(Lines(s))
  {
    if PrematureEnd(s) {
      var i :| 0 <= i < |s| && PrematureAt(s, i);
      var k := PrematureIsStray(s, i);
    }
    if HasStrayDot(Lines(s)) {
      var k: nat :| StrayDot(Lines(s), k);
      StrayIsPremature(s, k);
    }
  }

  lemma RefusedIffPremature(s: string)
    ensures Decoded(s).Failure? <==> PrematureEnd(s)
  {
  }

  /** Any text is refused exactly for a stray dot line. */
  lemma RefusedIff(s: string)
    ensures Decoded(s).Failure? <==> HasStrayDot(Lines(s))
  {
    RefusedIffPremature(s);
    PrematureIffStray(s);
  }

  // ---------- text behind the end ----------

  /**
   Text behind the terminator line of a message is refused if the message has lines and the text does not begin
   with a dot, or for what comes later in it.  Otherwise it becomes part of the mail.
   */
  lemma TextAfterEndRefusedIff(lines: seq<string>, rest: string)
    requires AllNoCrlf(lines) && "." !in lines && rest != ""
    ensures Decoded(Render(lines) + TERMINATOR + rest).Failure?
            <==> (lines != [] && !("." <= rest)) || PrematureEnd(TERMINATOR + rest)
  {
    var s := Render(lines) + TERMINATOR + rest;
    LinesWithEnd(lines, rest);
    LinesWithEnd([], rest);
    assert "" + TERMINATOR + rest == TERMINATOR + rest;
    assert [] + (["."] + Lines(rest)) == ["."] + Lines(rest);
    FirstLineDot(rest);
    RefusedIffPremature(s);
    PrematureIffStray(s);
    PrematureIffStray(TERMINATOR + rest);
    StrayBehindEnd(lines, Lines(rest));
  }

  /** The stray dots of lines that go on behind the first dot line. */
  lemma StrayBehindEnd(lines: seq<string>, after: seq<string>)
    requires "." !in lines && after != [] && after != [""]
    ensures HasStrayDot(lines + (["."] + after))
            <==> (lines != [] && !("." <= after[0])) || HasStrayDot(["."] + after)
  {
    var all, n := lines + (["."] + after), |lines|;
    assert forall j | 0 <= j < n :: all[j] == lines[j];
    if k: nat :| StrayDot(all, k) {
      assert k > n ==> StrayDot(["."] + after, k - n);
    }
    if lines != [] && !("." <= after[0]) {
      assert StrayDot(all, n);
    }
    if k: nat :| StrayDot(["."] + after, k) {
      assert StrayDot(all, n + k);
    }
  }

  lemma LinesWithEnd(lines: seq<string>, rest: string)
    requires AllNoCrlf(lines)
    ensures Lines(Render(lines) + TERMINATOR + rest) == lines + (["."] + Lines(rest))
    ensures Lines(rest) == [""] <==> rest == ""
  {
    RenderConcat(lines, ["."]);
    assert Render(["."]) == TERMINATOR;
    LinesThenText(lines + ["."], rest);
    Assoc(lines, ["."], Lines(rest));
    JoinSplit(rest, CRLF);
  }

  /** Whole lines without a terminator line behind them are decoded with a dot put in its place. */
  lemma DecodeUnterminated(lines: seq<string>)
    requires lines != [] && lines != [""] && AllNoCrlf(lines) && !HasStrayDot(lines + [""])
    requires |lines| == 1 || lines[|lines| - 1] != "."
    ensures Decoded(Render(lines)) == Success(Render(StripAll(lines)) + ".")
  {
    LinesOfRendered(lines);
    UnstuffRendered(lines);
    PrematureIffStray(Render(lines));
    NotOneBreak(lines);
    NotTerminated(lines);
    DecodedOpen(Render(lines));
  }

  /** A text without a terminator line at its end. */
  lemma DecodedOpen(s: string)
    requires s != "" && s != CRLF && !PrematureEnd(s) && !EndsWith(s, MAIL_END)
    ensures Decoded(s) == Success(Unstuff(s) + ".")
  {
  }

  lemma NotOneBreak(lines: seq<string>)
    requires lines != [""] && AllNoCrlf(lines)
    ensures Render(lines) != CRLF
  {
    assert Render([""]) == CRLF;
    if Render(lines) == CRLF {
      SameTextSameLines(lines, [""]);
    }
  }

  lemma NotTerminated(lines: seq<string>)
    requires lines != [] && AllNoCrlf(lines) && (|lines| == 1 || lines[|lines| - 1] != ".")
    ensures !EndsWith(Render(lines), MAIL_END)
  {
    var s := Render(lines);
    if EndsWith(s, MAIL_END) {
      TerminatedByDotLine(lines, |s| - 5);
    }
  }

  lemma TerminatedByDotLine(lines: seq<string>, i: nat)
    requires AllNoCrlf(lines) && OccursAt(Render(lines), MAIL_END, i) && i + 5 == |Render(lines)|
    ensures |lines| >= 2 && lines[|lines| - 1] == "."
  {
    var k := MailEndIsDotLine(lines, i);
    if k + 1 < |lines| {
      TextFromLine(lines, k + 1);
      assert false;
    }
  }

  /** A client that closes an empty message and goes on in the same piece: its command becomes the mail. */
  lemma CommandBecomesText()
    ensures Decoded(TERMINATOR + "QUIT\r\n") == Success("\r\nQUIT\r\n.")
  {
    var lines := [".", "QUIT"];
    assert lines[1..] == ["QUIT"] && Render(["QUIT"]) == "QUIT" + CRLF + "";
    assert TERMINATOR + "QUIT\r\n" == Render(lines);
    assert "QUIT"[0] != "."[0] && "."[1..] == "";
    assert StripAll(lines) == ["", "QUIT"] && ["", "QUIT"][1..] == ["QUIT"];
    assert Render(StripAll(lines)) + "." == "\r\nQUIT\r\n.";
    assert forall k: nat :: !StrayDot(lines + [""], k);
    DecodeUnterminated(lines);
  }

  // ---------- stored bodies ----------

  /** A dot line in the middle of a message with an undotted line after it. */
  predicate DotThenPlain(lines: seq<string>, k: nat) {
    1 <= k && k + 1 < |lines| && lines[k] == "." && !("." <= lines[k + 1])
  }

  ghost predicate Unrelayable(lines: seq<string>) {
    exists k: nat :: DotThenPlain(lines, k)
  }

  /**
   What a stored body is for a server it is relayed to: refused exactly if one of its lines but the first is a
   single dot with an undotted line after it, and else every line loses a leading dot.
   */
  lemma StoredBodyDecoded(lines: seq<string>)
    requires lines != [] && AllNoCrlf(lines)
    ensures Decoded(PlainBody(lines))
         == if Unrelayable(lines) then Failure(MailEndAtUnexpectedPosition) else Success(PlainBody(StripAll(lines)))
  {
    var s := PlainBody(lines);
    RenderTerminated(lines);
    DecodeTerminated(lines);
    UnstuffRendered(lines);
    RefusedIffPremature(s);
    PrematureIffStray(s);
    EndedLines(lines);
  }

  lemma EndedLines(lines: seq<string>)
    requires lines != [] && AllNoCrlf(lines)
    ensures HasStrayDot(Lines(PlainBody(lines))) <==> Unrelayable(lines)
  {
    var all := lines + ["."] + [""];
    RenderTerminated(lines);
    LinesOfRendered(lines + ["."]);
    if k: nat :| StrayDot(all, k) {
      assert DotThenPlain(lines, k);
    }
    if k: nat :| DotThenPlain(lines, k) {
      assert StrayDot(all, k);
    }
  }
}
