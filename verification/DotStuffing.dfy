/**
 The sender's side of section 4.5.2 of RFC 5321, written as a specification, and what the decoder and
 the end detection of src/smtp/server.rs do to a body that was prepared that way.
 */
module DotStuffing {
  import opened Wrappers
  import opened Text
  import opened Transparency

  // ---------- encoder ----------

  predicate NoCrlf(line: string) {
    forall i | 0 < i < |line| :: line[i] == '\n' ==> line[i - 1] != '\r'
  }

  predicate AllNoCrlf(lines: seq<string>) {
    forall k | 0 <= k < |lines| :: NoCrlf(lines[k])
  }

  /** Each line followed by CRLF. */
  function Render(lines: seq<string>): string {
    if lines == [] then "" else lines[0] + CRLF + Render(lines[1..])
  }

  function StuffLine(line: string): string {
    if "." <= line then "." + line else line
  }

  function StuffAll(lines: seq<string>): (r: seq<string>)
    ensures |r| == |lines|
  {
    seq(|lines|, i requires 0 <= i < |lines| => StuffLine(lines[i]))
  }

  /** The lines on the wire: dot-stuffed, then the terminator line. */
  function WireLines(lines: seq<string>): seq<string> {
    StuffAll(lines) + ["."]
  }

  /** The body a receiver should end up with. */
  function PlainBody(lines: seq<string>): string {
    Render(lines) + TERMINATOR
  }

  // ---------- round trip ----------

  /** Decoding undoes dot-stuffing, for every message of at least one line. */
  lemma RoundTrip(lines: seq<string>)
    requires lines != [] && AllNoCrlf(lines)
    ensures Decoded(Render(WireLines(lines))) == Success(PlainBody(lines))
  {
    var stuffed := StuffAll(lines);
    StuffedLines(lines);
    DecodeRendered(stuffed);
    UnstuffRendered(stuffed);
    assert StripAll(stuffed) == lines;
  }

  /** A mail without any line is only the terminator, and the program makes something else of it. */
  lemma EmptyBodyMangled()
    ensures Decoded(Render(WireLines([]))) == Success(SEP) && SEP != PlainBody([])
  {
    assert WireLines([]) == ["."];
    var s := Render(["."]);
    assert s == TERMINATOR;
    assert forall i: nat :: !PrematureAt(s, i);
    LinesOfRendered(["."]);
    assert StripAll(["."] + [""]) == ["", ""];
    assert Join(["", ""], CRLF) == CRLF by {
      assert ["", ""][1..] == [""];
    }
    assert Unstuff(s) == CRLF && CRLF + "." == SEP;
    assert |s| == 3 && s != CRLF;
    assert SEP[0] != PlainBody([])[0];
  }

  /** Decoding undoes dot-stuffing exactly when there is a line to undo. */
  lemma RoundTripIff(lines: seq<string>)
    requires AllNoCrlf(lines)
    ensures Decoded(Render(WireLines(lines))) == Success(PlainBody(lines)) <==> lines != []
  {
    if lines == [] {
      EmptyBodyMangled();
    } else {
      RoundTrip(lines);
    }
  }

  lemma StuffedLines(lines: seq<string>)
    requires AllNoCrlf(lines)
    ensures AllNoCrlf(StuffAll(lines)) && "." !in StuffAll(lines)
  {
    forall k | 0 <= k < |lines|
      ensures NoCrlf(StuffAll(lines)[k]) && StuffAll(lines)[k] != "."
    {
      var line := lines[k];
      assert line == "." ==> |StuffLine(line)| == 2;
      assert "." <= line ==> StuffLine(line)[1..] == line;
    }
  }

  /** Whole lines, none of them a dot, then the terminator line: every line loses its leading dot. */
  lemma DecodeRendered(lines: seq<string>)
    requires lines != [] && AllNoCrlf(lines) && "." !in lines
    ensures Decoded(Render(lines + ["."])) == Success(Unstuff(Render(lines)) + TERMINATOR)
  {
    var all := lines + ["."];
    forall i: nat
      ensures !PrematureAt(Render(all), i)
    {
      if OccursAt(Render(all), MAIL_END, i) {
        var k := MailEndIsDotLine(all, i);
        assert all[k] == "." && all[..k + 1] == all;
      }
    }
    DecodeTerminated(lines);
  }

  /** A decoded body that ended in a terminator line. */
  lemma DecodeTerminated(lines: seq<string>)
    requires lines != []
    ensures var s := Render(lines + ["."]);
            !PrematureEnd(s) ==> Decoded(s) == Success(Unstuff(Render(lines)) + TERMINATOR)
  {
    RenderTerminated(lines);
    var s := Render(lines + ["."]);
    assert s[..|s| - 3] == Render(lines);
  }

  lemma {:induction false} RenderConcat(a: seq<string>, b: seq<string>)
    ensures Render(a + b) == Render(a) + Render(b)
  {
    if a == [] {
      assert a + b == b;
    } else {
      RenderConcat(a[1..], b);
      assert (a + b)[1..] == a[1..] + b;
      Assoc(a[0] + CRLF, Render(a[1..]), Render(b));
    }
  }

  lemma {:induction false} RenderEndsInCrlf(lines: seq<string>)
    requires lines != []
    ensures EndsWith(Render(lines), CRLF)
  {
    var last := |lines| - 1;
    RenderConcat(lines[..last], [lines[last]]);
    assert lines == lines[..last] + [lines[last]];
    assert Render([lines[last]]) == lines[last] + CRLF + "";
  }

  lemma RenderTerminated(lines: seq<string>)
    requires lines != []
    ensures Render(lines + ["."]) == Render(lines) + TERMINATOR
    ensures EndsWith(Render(lines + ["."]), MAIL_END)
  {
    RenderConcat(lines, ["."]);
    assert Render(["."]) == TERMINATOR;
    RenderEndsInCrlf(lines);
    var r := Render(lines);
    assert r == r[..|r| - 2] + CRLF;
    Assoc(r[..|r| - 2], CRLF, TERMINATOR);
    assert CRLF + TERMINATOR == MAIL_END;
  }

  lemma {:induction false} OneLine(line: string)
    requires NoCrlf(line)
    ensures Lines(line) == [line]
  {
    if line != "" {
      var t := line[1..];
      forall i | 0 < i < |t|
        ensures t[i] == '\n' ==> t[i - 1] != '\r'
      {
        assert t[i] == line[i + 1];
      }
      OneLine(t);
      assert line == [line[0]] + t;
      BreakChars(line);
      SplitChar(line[0], t, CRLF);
    }
  }

  lemma {:induction false} LinesThenText(lines: seq<string>, rest: string)
    requires AllNoCrlf(lines)
    ensures Lines(Render(lines) + rest) == lines + Lines(rest)
  {
    if lines == [] {
      assert "" + rest == rest;
    } else {
      LinesThenText(lines[1..], rest);
      OneLine(lines[0]);
      Assoc(lines[0] + CRLF, Render(lines[1..]), rest);
      SplitConcat(lines[0], Render(lines[1..]) + rest, CRLF);
      Assoc([lines[0]], lines[1..], Lines(rest));
    }
  }

  lemma LinesOfRendered(lines: seq<string>)
    requires AllNoCrlf(lines)
    ensures Lines(Render(lines)) == lines + [""]
  {
    LinesThenText(lines, "");
    assert Render(lines) + "" == Render(lines);
  }

  lemma SameTextSameLines(a: seq<string>, b: seq<string>)
    requires AllNoCrlf(a) && AllNoCrlf(b) && Render(a) == Render(b)
    ensures a == b
  {
    LinesOfRendered(a);
    LinesOfRendered(b);
    assert a == (a + [""])[..|a + [""]| - 1];
    assert b == (b + [""])[..|b + [""]| - 1];
  }

  lemma {:induction false} JoinIsRender(lines: seq<string>)
    ensures Join(lines + [""], CRLF) == Render(lines)
  {
    if lines != [] {
      JoinIsRender(lines[1..]);
      assert (lines + [""])[1..] == lines[1..] + [""];
    }
  }

  lemma UnstuffRendered(lines: seq<string>)
    requires AllNoCrlf(lines)
    ensures Unstuff(Render(lines)) == Render(StripAll(lines))
  {
    LinesOfRendered(lines);
    assert StripAll(lines + [""]) == StripAll(lines) + [""];
    JoinIsRender(StripAll(lines));
  }

  // ---------- where lines start ----------

  /** Where line `j` starts in the text. */
  function LineStart(lines: seq<string>, j: nat): nat
    requires j <= |lines|
  {
    |Render(lines[..j])|
  }

  /** The text from the start of line `j` on. */
  lemma TextFromLine(lines: seq<string>, j: nat)
    requires j < |lines|
    ensures LineStart(lines, j) <= |Render(lines)|
    ensures Render(lines)[LineStart(lines, j)..] == lines[j] + CRLF + Render(lines[j + 1..])
  {
    assert lines == lines[..j] + lines[j..];
    RenderConcat(lines[..j], lines[j..]);
    assert lines[j..][0] == lines[j] && lines[j..][1..] == lines[j + 1..];
  }

  lemma LineStartNext(lines: seq<string>, j: nat)
    requires j < |lines|
    ensures LineStart(lines, j + 1) == LineStart(lines, j) + |lines[j]| + 2
  {
    assert lines[..j + 1] == lines[..j] + [lines[j]];
    RenderConcat(lines[..j], [lines[j]]);
    assert Render([lines[j]]) == lines[j] + CRLF + "";
  }

  // ---------- where the mail end is ----------

  lemma TerminatorFirst(lines: seq<string>)
    requires AllNoCrlf(lines)
    ensures TERMINATOR <= Render(lines) <==> lines != [] && lines[0] == "."
  {
    if lines != [] {
      var m, r := lines[0], Render(lines);
      Assoc(m, CRLF, Render(lines[1..]));
      assert r[|m|] == '\r' && r[|m| + 1] == '\n';
      assert forall j | 0 <= j < |m| :: r[j] == m[j];
      if TERMINATOR <= r {
        assert r[0] == '.' && r[1] == '\r' && r[2] == '\n';
        assert m == [r[0]];
      }
    }
  }

  /** A mail end inside rendered lines is a dot line that is not the first. */
  lemma {:induction false} MailEndIsDotLine(lines: seq<string>, i: nat) returns (k: nat)
    requires AllNoCrlf(lines) && OccursAt(Render(lines), MAIL_END, i)
    ensures 1 <= k < |lines| && lines[k] == "."
    ensures i + 5 == |Render(lines[..k + 1])|
  {
    var m, rest, r := lines[0], lines[1..], Render(lines);
    var tail := Render(rest);
    MailEndChars(r, i);
    assert r == m + (CRLF + tail) by { Assoc(m, CRLF, tail); }
    assert forall j | 0 <= j < |m| :: r[j] == m[j];
    assert r[|m|] == '\r' && r[|m| + 1] == '\n';
    assert i == |m| || i >= |m| + 2;
    if i == |m| {
      assert tail[..3] == [r[i + 2], r[i + 3], r[i + 4]] == TERMINATOR;
      TerminatorFirst(rest);
      k := 1;
      assert lines[..2] == [m, "."];
      assert [m, "."][1..] == ["."] && ["."][1..] == [];
      assert Render(["."]) == TERMINATOR;
    } else {
      var j := i - |m| - 2;
      assert tail[j..j + 5] == r[i..i + 5];
      k := MailEndIsDotLine(rest, j);
      k := k + 1;
      assert lines[..k + 1] == [m] + rest[..k];
      assert ([m] + rest[..k])[1..] == rest[..k];
    }
  }

  lemma DotLineIsMailEnd(lines: seq<string>, k: nat)
    requires 1 <= k < |lines| && lines[k] == "."
    ensures |Render(lines[..k + 1])| >= 5
    ensures OccursAt(Render(lines), MAIL_END, |Render(lines[..k + 1])| - 5)
  {
    var a := lines[..k];
    assert lines[..k + 1] == a + ["."];
    RenderTerminated(a);
    assert lines == lines[..k + 1] + lines[k + 1..];
    RenderConcat(lines[..k + 1], lines[k + 1..]);
  }

  lemma NoDotAtTheEnd(lines: seq<string>)
    ensures !EndsWith(Render(lines), SEP)
  {
    var r := Render(lines);
    if lines != [] {
      RenderEndsInCrlf(lines);
      assert r[|r| - 2..][1] == r[|r| - 1];
      assert |r| >= 3 ==> r[|r| - 3..][2] == r[|r| - 1];
    }
  }

  lemma MailEndOnlyAtDotLine(lines: seq<string>)
    requires AllNoCrlf(lines) && Contains(Render(lines), MAIL_END)
    ensures "." in lines
  {
    var i: nat :| i <= |Render(lines)| && OccursAt(Render(lines), MAIL_END, i);
    var k := MailEndIsDotLine(lines, i);
  }

  lemma DotLineDetected(lines: seq<string>, k: nat)
    requires AllNoCrlf(lines) && k < |lines| && lines[k] == "."
    ensures ContainsMailEnd(Render(lines))
  {
    if k == 0 {
      TerminatorFirst(lines);
    } else {
      DotLineIsMailEnd(lines, k);
      assert Contains(Render(lines), MAIL_END);
    }
  }

  lemma DetectedHasDotLine(lines: seq<string>)
    requires AllNoCrlf(lines) && ContainsMailEnd(Render(lines))
    ensures "." in lines
  {
    TerminatorFirst(lines);
    NoDotAtTheEnd(lines);
    if Contains(Render(lines), MAIL_END) {
      MailEndOnlyAtDotLine(lines);
    }
  }

  /** On whole lines, the end detector fires exactly when one of them is a dot. */
  lemma DetectsDotLine(lines: seq<string>)
    requires AllNoCrlf(lines)
    ensures ContainsMailEnd(Render(lines)) <==> "." in lines
  {
    if "." in lines {
      var k: nat :| k < |lines| && lines[k] == ".";
      DotLineDetected(lines, k);
    } else if ContainsMailEnd(Render(lines)) {
      DetectedHasDotLine(lines);
    }
  }

  // ---------- relaying ----------

  lemma {:induction false} StrippedIsShorter(lines: seq<string>)
    ensures |Render(StripAll(lines))| <= |Render(lines)|
    ensures (exists k | 0 <= k < |lines| :: "." <= lines[k]) ==> |Render(StripAll(lines))| < |Render(lines)|
  {
    if lines != [] {
      StrippedIsShorter(lines[1..]);
      assert StripAll(lines)[1..] == StripAll(lines[1..]);
      forall k | 1 <= k < |lines| && "." <= lines[k]
        ensures exists j | 0 <= j < |lines[1..]| :: "." <= lines[1..][j]
      {
        assert lines[1..][k - 1] == lines[k];
      }
    }
  }

  /**
   The client sends a stored body as it is, so the next server decodes it a second time.  It arrives
   unchanged if and only if none of its lines begins with a dot.
   */
  lemma RelayedBodyUnchangedIff(lines: seq<string>)
    requires lines != [] && AllNoCrlf(lines)
    ensures Decoded(PlainBody(lines)) == Success(PlainBody(lines))
            <==> forall k | 0 <= k < |lines| :: !("." <= lines[k])
  {
    RenderTerminated(lines);
    DecodeTerminated(lines);
    UnstuffRendered(lines);
    StrippedIsShorter(lines);
    if forall k | 0 <= k < |lines| :: !("." <= lines[k]) {
      assert StripAll(lines) == lines;
      assert "." !in lines;
      DecodeRendered(lines);
    }
  }

  /** A body that changes on the way: its only line is a dot followed by a letter. */
  lemma RelayLosesDot()
    ensures Decoded(PlainBody([".a"])) == Success(PlainBody(["a"]))
  {
    DecodeRendered([".a"]);
    RenderTerminated([".a"]);
    UnstuffRendered([".a"]);
    assert StripAll([".a"]) == ["a"];
  }
}
