/**
 What becomes of a stored body when it is sent on, for every body: the next server looks for the end in it and
 decodes it once more.  All of it is told from the lines of the body.
 */
module Relaying {
  import opened Wrappers
  import opened Text
  import opened Transparency
  import opened DotStuffing
  import opened Rejection

  // ---------- lines of joined texts ----------

  lemma {:induction false} JoinIsRenderAndRest(lines: seq<string>)
    requires lines != []
    ensures var n := |lines| - 1;
            Join(lines, CRLF) == Render(lines[..n]) + lines[n]
  {
    var n := |lines| - 1;
    if n == 0 {
      assert lines[..0] == [] && "" + lines[0] == lines[0];
    } else {
      JoinIsRenderAndRest(lines[1..]);
      assert lines[1..][..n - 1] == lines[..n][1..];
      Assoc(lines[0] + CRLF, Render(lines[1..n]), lines[n]);
      assert lines[1..][..n - 1] == lines[1..n];
    }
  }

  /** Lines without CRLF, joined, are the lines of the result. */
  lemma LinesOfJoined(lines: seq<string>)
    requires lines != [] && AllNoCrlf(lines)
    ensures Lines(Join(lines, CRLF)) == lines
  {
    var n := |lines| - 1;
    JoinIsRenderAndRest(lines);
    LinesThenText(lines[..n], lines[n]);
    OneLine(lines[n]);
    assert lines == lines[..n] + [lines[n]];
  }

  lemma StrippedNoCrlf(lines: seq<string>)
    requires AllNoCrlf(lines)
    ensures AllNoCrlf(StripAll(lines))
  {
    forall k | 0 <= k < |lines|
      ensures NoCrlf(StripAll(lines)[k])
    {
      var line := lines[k];
      assert "." <= line ==> forall i | 0 <= i < |line| - 1 :: line[1..][i] == line[i + 1];
    }
  }

  /** The lines with a dot put behind the last. */
  function DotAdded(lines: seq<string>): seq<string>
    requires lines != []
  {
    lines[|lines| - 1 := lines[|lines| - 1] + "."]
  }

  lemma JoinDotAdded(lines: seq<string>)
    requires lines != []
    ensures Join(DotAdded(lines), CRLF) == Join(lines, CRLF) + "."
  {
    var n := |lines| - 1;
    JoinIsRenderAndRest(lines);
    JoinIsRenderAndRest(DotAdded(lines));
    assert DotAdded(lines)[..n] == lines[..n];
    Assoc(Render(lines[..n]), lines[n], ".");
  }

  /** The lines of a body whose end was marked by a dot put in its place. */
  function OpenLines(lines: seq<string>): seq<string>
    requires lines != []
  {
    DotAdded(StripAll(lines))
  }

  lemma LinesOfOpen(s: string)
    ensures Lines(Unstuff(s) + ".") == OpenLines(Lines(s))
    ensures Unstuff(s) + "." == Join(OpenLines(Lines(s)), CRLF)
  {
    var stripped := StripAll(Lines(s));
    var n := |stripped| - 1;
    LinesHaveNoCrlf(s);
    StrippedNoCrlf(Lines(s));
    JoinDotAdded(stripped);
    assert NoCrlf(stripped[n]) && NoCrlf(stripped[n] + ".");
    LinesOfJoined(DotAdded(stripped));
  }

  // ---------- where an end is seen ----------

  lemma MailEndInText(s: string, k: nat)
    requires 1 <= k < |Lines(s)| && Lines(s)[k] == "."
    ensures ContainsMailEnd(s)
  {
    var lines := Lines(s);
    TextOfLines(s);
    DotLineIsMailEnd(lines, k);
    var i := LineStart(lines, k + 1) - 5;
    assert Render(lines)[i..i + 5] == MAIL_END;
    if k + 1 < |lines| {
      TextFromLine(lines, k + 1);
      assert s[i..i + 5] == Render(lines)[i..i + 5];
      assert OccursAt(s, MAIL_END, i);
    } else {
      assert lines[..k + 1] == lines;
      assert s[i..] == Render(lines)[i..i + 3] == MAIL_END[..3] == SEP;
    }
  }

  lemma FirstDotSeen(s: string)
    requires |Lines(s)| >= 2 && Lines(s)[0] == "."
    ensures ContainsMailEnd(s)
  {
    var lines := Lines(s);
    TextOfLines(s);
    FollowedByLine(lines, 0);
    assert Render(lines) == "." + CRLF + Render(lines[1..]);
    assert s[..3] == Render(lines)[..3] == TERMINATOR;
  }

  lemma OpeningHasDotLine(s: string)
    requires TERMINATOR <= s
    ensures |Lines(s)| >= 2 && Lines(s)[0] == "."
  {
    var lines := Lines(s);
    TextOfLines(s);
    assert Render(lines)[..3] == s[..3];
    TerminatorFirst(lines);
    assert |lines| == 1 ==> lines == ["."] && Render(lines) == "." + CRLF + "";
  }

  /** A mail end in a text, or cut off by its end, lies at a dot line. */
  lemma MailEndHasDotLine(s: string, i: nat)
    requires OccursAt(s + CRLF, MAIL_END, i)
    ensures |Lines(s)| >= 2 && "." in Lines(s)
  {
    TextOfLines(s);
    var k := MailEndIsDotLine(Lines(s), i);
  }

  lemma SeenHasDotLine(s: string)
    requires ContainsMailEnd(s)
    ensures |Lines(s)| >= 2 && "." in Lines(s)
  {
    if TERMINATOR <= s {
      OpeningHasDotLine(s);
    } else if Contains(s, MAIL_END) {
      var i: nat :| i <= |s| && OccursAt(s, MAIL_END, i);
      OccursLonger(s, MAIL_END, CRLF, i);
      MailEndHasDotLine(s, i);
    } else {
      SuffixLonger(s, SEP, CRLF);
      assert SEP + CRLF == MAIL_END;
      MailEndHasDotLine(s, |s| - 3);
    }
  }

  lemma OccursLonger(s: string, p: string, t: string, i: nat)
    requires OccursAt(s, p, i)
    ensures OccursAt(s + t, p, i)
  {
    assert (s + t)[i..i + |p|] == s[i..i + |p|];
  }

  lemma SuffixLonger(s: string, p: string, t: string)
    requires EndsWith(s, p)
    ensures OccursAt(s + t, p + t, |s| - |p|)
  {
    var i := |s| - |p|;
    assert (s + t)[i..i + |p + t|] == s[i..] + t;
  }

  /** In any text taken as one piece, an end is seen exactly if it has two lines or more and one of them is a dot. */
  lemma EndSeenInText(s: string)
    ensures ContainsMailEnd(s) <==> |Lines(s)| >= 2 && "." in Lines(s)
  {
    if ContainsMailEnd(s) {
      SeenHasDotLine(s);
    } else if |Lines(s)| >= 2 && "." in Lines(s) {
      var k: nat :| k < |Lines(s)| && Lines(s)[k] == ".";
      if k == 0 {
        FirstDotSeen(s);
      } else {
        MailEndInText(s, k);
      }
    }
  }

  /** Received lines whose stored form, with a dot put at its end, still shows its end. */
  ghost predicate OpenShowsEnd(lines: seq<string>)
    requires lines != []
  {
    var n := |lines| - 1;
    n >= 1 && (lines[n] == "" || lines[n] == "." || ".." in lines[..n])
  }

  lemma OpenShowsEndIff(s: string)
    ensures ContainsMailEnd(Unstuff(s) + ".") <==> OpenShowsEnd(Lines(s))
  {
    LinesOfOpen(s);
    EndSeenInText(Unstuff(s) + ".");
    DotInOpenIff(Lines(s));
  }

  lemma DotInOpenIff(lines: seq<string>)
    requires lines != []
    ensures var n := |lines| - 1;
            "." in OpenLines(lines) <==> lines[n] == "" || lines[n] == "." || ".." in lines[..n]
  {
    var open, n := OpenLines(lines), |lines| - 1;
    StrippedToDot(lines[n]);
    assert open[n] == StripDot(lines[n]) + ".";
    forall k | 0 <= k < n
      ensures open[k] == "." <==> lines[..n][k] == ".."
    {
      StrippedToDot(lines[k]);
    }
    if "." in open {
      var k :| 0 <= k < |open| && open[k] == ".";
      assert k < n ==> lines[..n][k] == "..";
    }
    if ".." in lines[..n] {
      var k :| 0 <= k < n && lines[..n][k] == "..";
      assert open[k] == ".";
    }
  }

  lemma StrippedToDot(line: string)
    ensures StripDot(line) == "." <==> line == ".."
    ensures StripDot(line) + "." == "." <==> line == "" || line == "."
  {
    if "." <= line {
      assert line == "." + line[1..];
    }
  }

  // ---------- the text that arrives ----------

  /** The last line is empty, and the one before it, not the first, is a dot. */
  predicate EndsInTerminator(lines: seq<string>) {
    |lines| >= 3 && lines[|lines| - 1] == "" && lines[|lines| - 2] == "."
  }

  lemma TerminatedText(s: string)
    requires EndsInTerminator(Lines(s))
    ensures var message := Lines(s)[..|Lines(s)| - 2];
            AllNoCrlf(message) && s == PlainBody(message) && EndsWith(s, MAIL_END)
  {
    var lines := Lines(s);
    var n := |lines| - 1;
    var message := lines[..n - 1];
    LinesHaveNoCrlf(s);
    JoinSplit(s, CRLF);
    JoinIsRenderAndRest(lines);
    assert lines[..n] == message + ["."];
    RenderTerminated(message);
  }

  lemma TerminatedTextIff(s: string)
    ensures EndsWith(s, MAIL_END) <==> EndsInTerminator(Lines(s))
  {
    if EndsInTerminator(Lines(s)) {
      TerminatedText(s);
    }
    if EndsWith(s, MAIL_END) {
      TerminatedHasLines(s, |s| - 5);
    }
  }

  lemma TerminatedHasLines(s: string, i: nat)
    requires i + 5 == |s| && s[i..] == MAIL_END
    ensures EndsInTerminator(Lines(s))
  {
    var lines := Lines(s);
    TextOfLines(s);
    assert Render(lines)[i..i + 5] == s[i..];
    var k := MailEndIsDotLine(lines, i);
    assert lines[..|lines|] == lines;
    TextFromLine(lines, k + 1);
    if k + 2 < |lines| {
      FollowedByLine(lines, k + 1);
    }
  }

  /** The text a server makes of a body it was sent, told from the body's lines. */
  function RelayedText(lines: seq<string>): string
    requires lines != []
  {
    if EndsInTerminator(lines) then PlainBody(StripAll(lines[..|lines| - 2])) else Join(OpenLines(lines), CRLF)
  }

  /** Decoding any body in which an end is seen: refused for a stray dot line, and else each line loses a dot. */
  lemma BodyDecoded(s: string)
    requires ContainsMailEnd(s)
    ensures Decoded(s)
         == if HasStrayDot(Lines(s)) then Failure(MailEndAtUnexpectedPosition) else Success(RelayedText(Lines(s)))
  {
    RefusedIffPremature(s);
    PrematureIffStray(s);
    TerminatedTextIff(s);
    if !PrematureEnd(s) {
      if EndsInTerminator(Lines(s)) {
        AcceptedTerminated(s);
      } else {
        LinesOfOpen(s);
        NoEndInBreak();
        DecodedOpen(s);
      }
    }
  }

  lemma NoEndInBreak()
    ensures !ContainsMailEnd("") && !ContainsMailEnd(CRLF)
  {
  }

  lemma AcceptedTerminated(s: string)
    requires EndsInTerminator(Lines(s)) && !PrematureEnd(s)
    ensures Decoded(s) == Success(PlainBody(StripAll(Lines(s)[..|Lines(s)| - 2])))
  {
    TerminatedText(s);
    StoredBodyDecoded(Lines(s)[..|Lines(s)| - 2]);
  }

  // ---------- arriving unchanged ----------

  predicate Undotted(lines: seq<string>) {
    forall k | 0 <= k < |lines| :: !("." <= lines[k])
  }

  /** A body of undotted lines and an end: a terminator line, or a dot alone. */
  predicate SurvivesRelay(lines: seq<string>) {
    || (EndsInTerminator(lines) && Undotted(lines[..|lines| - 2]))
    || (|lines| >= 2 && lines[|lines| - 1] == "." && Undotted(lines[..|lines| - 1]))
  }

  lemma UndottedStart(lines: seq<string>, m: nat)
    requires m <= |lines| && Undotted(lines[..m])
    ensures forall k | 0 <= k < m :: !("." <= lines[k])
  {
    assert forall k | 0 <= k < m :: lines[..m][k] == lines[k];
  }

  lemma SurvivorIsSeen(lines: seq<string>)
    requires SurvivesRelay(lines)
    ensures |lines| >= 2 && "." in lines && !HasStrayDot(lines)
  {
    var n := |lines| - 1;
    if lines[n] == "." {
      UndottedStart(lines, n);
    } else {
      UndottedStart(lines, n - 1);
    }
  }

  lemma OpenUnchangedIff(lines: seq<string>)
    requires lines != [] && "." in lines
    ensures OpenLines(lines) == lines <==> lines[|lines| - 1] == "." && Undotted(lines[..|lines| - 1])
  {
    var n, open := |lines| - 1, OpenLines(lines);
    assert forall k | 0 <= k < n :: open[k] == StripDot(lines[k]) && lines[..n][k] == lines[k];
    assert open[n] == StripDot(lines[n]) + ".";
    if open == lines {
      var k :| 0 <= k < |lines| && lines[k] == ".";
      StrippedToDot(lines[k]);
    }
    if lines[n] == "." && Undotted(lines[..n]) {
      UndottedStart(lines, n);
      StrippedToDot(lines[n]);
    }
  }

  lemma TerminatedUnchangedIff(s: string)
    requires EndsInTerminator(Lines(s))
    ensures Decoded(s) == Success(s) <==> Undotted(Lines(s)[..|Lines(s)| - 2])
  {
    TerminatedText(s);
    RelayedBodyUnchangedIff(Lines(s)[..|Lines(s)| - 2]);
  }

  lemma OpenTextUnchangedIff(s: string)
    requires "." in Lines(s)
    ensures Join(OpenLines(Lines(s)), CRLF) == s
            <==> Lines(s)[|Lines(s)| - 1] == "." && Undotted(Lines(s)[..|Lines(s)| - 1])
  {
    JoinSplit(s, CRLF);
    LinesOfOpen(s);
    OpenUnchangedIff(Lines(s));
  }

  lemma SeenUnchangedIff(s: string)
    requires ContainsMailEnd(s) && |Lines(s)| >= 2 && "." in Lines(s)
    ensures Decoded(s) == Success(s) <==> SurvivesRelay(Lines(s))
  {
    if EndsInTerminator(Lines(s)) {
      TerminatedUnchangedIff(s);
    } else {
      BodyDecoded(s);
      OpenTextUnchangedIff(s);
      if SurvivesRelay(Lines(s)) {
        SurvivorIsSeen(Lines(s));
      }
    }
  }

  /** A body arrives as it was sent exactly if none of its lines but its end begins with a dot. */
  lemma UnchangedIff(s: string)
    ensures ContainsMailEnd(s) && Decoded(s) == Success(s) <==> SurvivesRelay(Lines(s))
  {
    EndSeenInText(s);
    if SurvivesRelay(Lines(s)) {
      SurvivorIsSeen(Lines(s));
    }
    if ContainsMailEnd(s) {
      SeenUnchangedIff(s);
    }
  }

  // ---------- from what was received to what is sent on ----------

  /** What is stored of a received body can show no end any more; then no server will ever take it. */
  lemma StoredShowsEndIff(raw: string, text: string)
    requires |raw| >= 3 && Decoded(raw) == Success(text)
    ensures ContainsMailEnd(text) <==> EndsInTerminator(Lines(raw)) || OpenShowsEnd(Lines(raw))
  {
    RefusedIffPremature(raw);
    TerminatedTextIff(raw);
    if EndsInTerminator(Lines(raw)) {
      AcceptedTerminated(raw);
      PlainBodyShowsEnd(StripAll(Lines(raw)[..|Lines(raw)| - 2]));
    } else {
      DecodedOpen(raw);
      OpenShowsEndIff(raw);
    }
  }

  lemma PlainBodyShowsEnd(lines: seq<string>)
    requires lines != []
    ensures ContainsMailEnd(PlainBody(lines))
  {
    RenderTerminated(lines);
    var s := PlainBody(lines);
    assert s[|s| - 5..|s|] == s[|s| - 5..];
    assert OccursAt(s, MAIL_END, |s| - 5);
  }

  lemma LostLines()
    ensures OpenLines([".", "foo"]) == ["", "foo."]
  {
    var stripped := StripAll([".", "foo"]);
    assert "foo"[0] == 'f' && "."[1..] == "" && "foo" + "." == "foo.";
    assert stripped[0] == "" && stripped[1] == "foo";
  }

  lemma LostStored()
    ensures !HasStrayDot([".", "foo"]) && RelayedText([".", "foo"]) == "\r\nfoo."
  {
    LostLines();
    assert ["", "foo."][1..] == ["foo."];
    assert "" + CRLF + "foo." == "\r\nfoo.";
  }

  lemma LostReceived()
    ensures Lines(TERMINATOR + "foo") == [".", "foo"]
  {
    LinesThenText(["."], "foo");
    assert Render(["."]) + "foo" == TERMINATOR + "foo";
    OneLine("foo");
  }

  /** Such a body: the text behind the terminator of an empty message, if it is not a whole line. */
  lemma LostText()
    ensures ContainsMailEnd(TERMINATOR + "foo") && Decoded(TERMINATOR + "foo") == Success("\r\nfoo.")
    ensures !ContainsMailEnd("\r\nfoo.")
  {
    LostReceived();
    EndSeenInText(TERMINATOR + "foo");
    LostStored();
    BodyDecoded(TERMINATOR + "foo");
    StoredShowsEndIff(TERMINATOR + "foo", "\r\nfoo.");
  }
}
