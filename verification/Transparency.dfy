/**
 The mail body codec of src/smtp/server.rs: end detection and the transparency procedure of
 section 4.5.2 of RFC 5321.  `DecodeTransparency` is the program's split-and-reassemble loop; it is
 proved against `Decoded`, which reads the body line by line and never mentions chunks.
 */
module Transparency {
  import opened Wrappers
  import opened Text

  datatype TransparencySyntaxError = NoNewlineMailEnd | MailEndAtUnexpectedPosition

  const SEP := "\r\n."
  const TERMINATOR := ".\r\n"
  const MAIL_END := "\r\n.\r\n"

  /** `DataState::contains_mail_end`. */
  predicate ContainsMailEnd(s: string) {
    TERMINATOR <= s || Contains(s, MAIL_END) || EndsWith(s, SEP)
  }

  // ---------- the line-by-line reference ----------

  function Lines(s: string): (ls: seq<string>)
    ensures |ls| >= 1
  {
    Split(s, CRLF)
  }

  function StripDot(line: string): string {
    if "." <= line then line[1..] else line
  }

  function StripAll(lines: seq<string>): (r: seq<string>)
    ensures |r| == |lines|
  {
    seq(|lines|, i requires 0 <= i < |lines| => StripDot(lines[i]))
  }

  /** Every line of `s` without its leading dot, if it has one. */
  function Unstuff(s: string): string {
    Join(StripAll(Lines(s)), CRLF)
  }

  /**
   CRLF dot CRLF with more text behind it that does not begin with a dot.  The dot line is then not the first line;
   text behind a dot on the first line, or dotted text, is no reason to refuse a body.
   */
  predicate PrematureAt(s: string, i: nat) {
    OccursAt(s, MAIL_END, i) && i + 5 < |s| && s[i + 5] != '.'
  }

  predicate PrematureEnd(s: string) {
    exists i | 0 <= i < |s| :: PrematureAt(s, i)
  }

  /** What decoding means, on every string. */
  function Decoded(s: string): Result<string, TransparencySyntaxError> {
    if s == "" then Success("")
    else if PrematureEnd(s) then Failure(MailEndAtUnexpectedPosition)
    else if s == CRLF then Success(CRLF)
    else if EndsWith(s, MAIL_END) then Success(Unstuff(s[..|s| - 3]) + TERMINATOR)
    else Success(Unstuff(s) + ".")
  }

  // ---------- the program's decoder ----------

  /**
   `DataState::decode_transparency`.  The program's policy constant lets a body end in CRLF dot, so the
   branch that would report `NoNewlineMailEnd` is never taken and is not written here.
   */
  method DecodeTransparency(s: string) returns (r: Result<string, TransparencySyntaxError>)
    ensures r == Decoded(s)
  {
    if s == "" {
      return Success("");
    }
    var hasRnpEnd := false;
    var chunks := Split(s, SEP);
    ghost var original := chunks;
    var last := |chunks| - 1;
    if chunks[last] == CRLF {
      chunks := chunks[last := TERMINATOR];
    } else {
      hasRnpEnd := true;
    }
    r := Reassemble(chunks);
    if r.Failure? {
      RejectedChunks(s, original);
      return;
    }
    AcceptedChunks(s, original);
    if hasRnpEnd {
      r := Success(r.value + ".");
    }
  }

  /** The loop of `decode_transparency`. */
  method Reassemble(chunks: seq<string>) returns (r: Result<string, TransparencySyntaxError>)
    requires |chunks| >= 1
    ensures r == if StrayEnd(chunks) then Failure(MailEndAtUnexpectedPosition)
                 else Success(Join(Trimmed(chunks), CRLF))
  {
    var text := "";
    var first := true;
    for i := 0 to |chunks|
      invariant first <==> i == 0
      invariant first ==> text == ""
      invariant !first ==> text == Join(Trimmed(chunks[..i]), CRLF)
      invariant forall k | 1 <= k < i :: !(CRLF <= chunks[k])
    {
      var chunk := chunks[i];
      if first {
        if "." <= chunk {
          text := text + chunk[1..];
        } else {
          text := text + chunk;
        }
      } else {
        if CRLF <= chunk {
          return Failure(MailEndAtUnexpectedPosition);
        }
        text := text + CRLF;
        text := text + chunk;
        AppendChunk(chunks, i);
      }
      first := false;
    }
    assert chunks[..|chunks|] == chunks;
    return Success(text);
  }

  /** A chunk after the first that begins with CRLF: the program takes it for a misplaced mail end. */
  predicate StrayEnd(chunks: seq<string>) {
    exists k | 1 <= k < |chunks| :: CRLF <= chunks[k]
  }

  /** The chunk list after the program rewrote its last entry. */
  function Rewritten(chunks: seq<string>): seq<string>
    requires |chunks| >= 1
  {
    if chunks[|chunks| - 1] == CRLF then chunks[|chunks| - 1 := TERMINATOR] else chunks
  }

  lemma AppendChunk(chunks: seq<string>, i: nat)
    requires 1 <= i < |chunks|
    ensures Join(Trimmed(chunks[..i + 1]), CRLF) == Join(Trimmed(chunks[..i]), CRLF) + CRLF + chunks[i]
  {
    assert Trimmed(chunks[..i + 1]) == Trimmed(chunks[..i]) + [chunks[i]];
    JoinConcat(Trimmed(chunks[..i]), [chunks[i]], CRLF);
  }

  /** The chunks with the dot at the very start of the body removed. */
  function Trimmed(chunks: seq<string>): seq<string>
    requires |chunks| >= 1
  {
    [StripDot(chunks[0])] + chunks[1..]
  }

  /** A chunk that makes the program reject the body. */
  predicate BadChunk(chunks: seq<string>, k: nat) {
    k < |chunks| && CRLF <= chunks[k] && !(k == |chunks| - 1 && chunks[k] == CRLF)
  }

  // ---------- chunks and lines ----------

  /** Lines with the dot removed from all but the first. */
  function FirstKept(lines: seq<string>): seq<string>
    requires |lines| >= 1
  {
    [lines[0]] + StripAll(lines[1..])
  }

  /** Joining the chunks by CRLF strips the dot of every line but the first. */
  lemma {:induction false} JoinedChunks(s: string)
    ensures Join(Split(s, SEP), CRLF) == Join(FirstKept(Lines(s)), CRLF)
  {
    if s == "" {
    } else if SEP <= s {
      JoinedChunks(s[3..]);
      AfterDottedBreak(s);
    } else if CRLF <= s {
      JoinedChunks(s[2..]);
      AfterPlainBreak(s);
    } else {
      JoinedChunks(s[1..]);
      var lines := Lines(s[1..]);
      JoinHead([s[0]], Split(s[1..], SEP), CRLF);
      JoinHead([s[0]], FirstKept(lines), CRLF);
      assert [[s[0]] + lines[0]] + FirstKept(lines)[1..] == FirstKept(Lines(s));
    }
  }

  lemma AfterDottedBreak(s: string)
    requires SEP <= s
    ensures Join(Split(s, SEP), CRLF) == CRLF + Join(Split(s[3..], SEP), CRLF)
    ensures Join(FirstKept(Lines(s)), CRLF) == CRLF + Join(FirstKept(Lines(s[3..])), CRLF)
  {
    var t := s[3..];
    assert s == SEP + t;
    SplitSep(t, SEP);
    JoinEmptyHead(Split(t, SEP), CRLF);
    assert s == CRLF + (['.'] + t);
    SplitSep(['.'] + t, CRLF);
    SplitChar('.', t, CRLF);
    DottedFirst(Lines(t));
    JoinEmptyHead(FirstKept(Lines(t)), CRLF);
  }

  /** Behind an empty line, a dotted line loses its dot. */
  lemma DottedFirst(lines: seq<string>)
    requires |lines| >= 1
    ensures FirstKept([""] + ([['.'] + lines[0]] + lines[1..])) == [""] + FirstKept(lines)
  {
    assert StripDot(['.'] + lines[0]) == lines[0];
  }

  lemma AfterPlainBreak(s: string)
    requires CRLF <= s && !(SEP <= s)
    ensures Join(Split(s, SEP), CRLF) == CRLF + Join(Split(s[2..], SEP), CRLF)
    ensures Join(FirstKept(Lines(s)), CRLF) == CRLF + Join(FirstKept(Lines(s[2..])), CRLF)
  {
    BreakChars(s);
    assert s == CRLF + s[2..];
    LinesAfterPlainBreak(s[2..]);
    ChunksAfterPlainBreak(s[2..]);
    assert s == ['\r'] + (['\n'] + s[2..]);
  }

  lemma LinesAfterPlainBreak(t: string)
    requires !("." <= t)
    ensures Join(FirstKept(Lines(CRLF + t)), CRLF) == CRLF + Join(FirstKept(Lines(t)), CRLF)
  {
    SplitSep(t, CRLF);
    FirstLineDot(t);
    assert FirstKept([""] + Lines(t)) == [""] + FirstKept(Lines(t));
    JoinEmptyHead(FirstKept(Lines(t)), CRLF);
  }

  lemma ChunksAfterPlainBreak(t: string)
    requires !("." <= t)
    ensures Join(Split(['\r'] + (['\n'] + t), SEP), CRLF) == CRLF + Join(Split(t, SEP), CRLF)
  {
    BreakChars(['\r'] + (['\n'] + t));
    SplitChar('\n', t, SEP);
    SplitChar('\r', ['\n'] + t, SEP);
    JoinHead(['\n'], Split(t, SEP), CRLF);
    JoinHead(['\r'], Split(['\n'] + t, SEP), CRLF);
    Assoc(['\r'], ['\n'], Join(Split(t, SEP), CRLF));
  }

  lemma BreakChars(s: string)
    ensures CRLF <= s <==> |s| >= 2 && s[0] == '\r' && s[1] == '\n'
    ensures SEP <= s <==> |s| >= 3 && s[0] == '\r' && s[1] == '\n' && s[2] == '.'
    ensures CRLF <= s ==> (SEP <= s <==> "." <= s[2..])
  {
    if |s| >= 2 { assert s[..2] == [s[0], s[1]]; }
    if |s| >= 3 { assert s[..3] == [s[0], s[1], s[2]]; }
  }

  lemma MailEndChars(s: string, i: nat)
    requires i + 5 <= |s|
    ensures OccursAt(s, MAIL_END, i)
            <==> s[i] == '\r' && s[i + 1] == '\n' && s[i + 2] == '.' && s[i + 3] == '\r' && s[i + 4] == '\n'
  {
    assert s[i..i + 5] == [s[i], s[i + 1], s[i + 2], s[i + 3], s[i + 4]];
  }

  /** The first piece of a split begins with a dot exactly when the text does. */
  lemma FirstLineDot(s: string)
    ensures "." <= Lines(s)[0] <==> "." <= s
    ensures "." <= Split(s, SEP)[0] <==> "." <= s
  {
    if s != "" && s[0] == '.' {
      assert s == ['.'] + s[1..];
      BreakChars(s);
      SplitChar('.', s[1..], SEP);
      SplitChar('.', s[1..], CRLF);
    }
  }

  lemma DottedHead(parts: seq<string>)
    requires |parts| >= 1
    ensures Trimmed([['.'] + parts[0]] + parts[1..]) == parts
    ensures StripAll([['.'] + parts[0]] + parts[1..]) == FirstKept(parts)
  {
    assert StripDot(['.'] + parts[0]) == parts[0];
  }

  lemma PlainHead(parts: seq<string>)
    requires |parts| >= 1 && !("." <= parts[0])
    ensures Trimmed(parts) == parts && StripAll(parts) == FirstKept(parts)
  {
  }

  /** The whole text, with its leading dots removed, from the chunks. */
  lemma ChunksAreLines(s: string)
    ensures Join(Trimmed(Split(s, SEP)), CRLF) == Unstuff(s)
  {
    if "." <= s {
      var t := s[1..];
      assert s == ['.'] + t;
      BreakChars(s);
      SplitChar('.', t, SEP);
      SplitChar('.', t, CRLF);
      DottedHead(Split(t, SEP));
      DottedHead(Lines(t));
      JoinedChunks(t);
    } else {
      FirstLineDot(s);
      PlainHead(Split(s, SEP));
      PlainHead(Lines(s));
      JoinedChunks(s);
    }
  }

  lemma CrlfIsOneChunk()
    ensures Split(CRLF, SEP) == [CRLF]
  {
    assert CRLF[1..] == "\n" && "\n"[1..] == "";
    assert Split("\n", SEP) == ["\n"];
  }

  lemma ChunksOfTerminated(s: string)
    requires EndsWith(s, MAIL_END)
    ensures Split(s, SEP) == Split(s[..|s| - 5], SEP) + [CRLF]
  {
    var t := s[..|s| - 5];
    assert s == t + MAIL_END;
    assert MAIL_END == SEP + CRLF;
    assert s == t + SEP + CRLF;
    SplitConcat(t, CRLF, SEP);
    CrlfIsOneChunk();
  }

  /** The last chunk is CRLF exactly when the body ends in a terminator line, or is CRLF alone. */
  lemma LastChunk(s: string, chunks: seq<string>)
    requires chunks == Split(s, SEP)
    ensures chunks[|chunks| - 1] == CRLF <==> s == CRLF || EndsWith(s, MAIL_END)
  {
    CrlfIsOneChunk();
    if EndsWith(s, MAIL_END) {
      ChunksOfTerminated(s);
    }
    if chunks[|chunks| - 1] == CRLF && |chunks| > 1 {
      LastChunkCrlf(s, chunks);
    }
  }

  lemma LastChunkCrlf(s: string, chunks: seq<string>)
    requires chunks == Split(s, SEP) && |chunks| > 1 && chunks[|chunks| - 1] == CRLF
    ensures EndsWith(s, MAIL_END)
  {
    var init := chunks[..|chunks| - 1];
    JoinSplit(s, SEP);
    assert chunks == init + [CRLF];
    JoinConcat(init, [CRLF], SEP);
    Assoc(Join(init, SEP), SEP, CRLF);
    assert SEP + CRLF == MAIL_END;
    assert s == Join(init, SEP) + MAIL_END;
  }

  lemma UnstuffSnoc(t: string)
    ensures Unstuff(t + CRLF) == Unstuff(t) + CRLF
  {
    SplitConcat(t, "", CRLF);
    assert t + CRLF + "" == t + CRLF;
    assert StripAll(Lines(t) + [""]) == StripAll(Lines(t)) + [""];
    JoinConcat(StripAll(Lines(t)), [""], CRLF);
  }

  /** Rewriting the last chunk to the terminator line puts that line at the end. */
  lemma RewrittenJoin(init: seq<string>)
    requires |init| >= 1
    ensures Join(Trimmed((init + [CRLF])[|init| := TERMINATOR]), CRLF) == Join(Trimmed(init), CRLF) + CRLF + TERMINATOR
  {
    assert (init + [CRLF])[|init| := TERMINATOR] == init + [TERMINATOR];
    assert Trimmed(init + [TERMINATOR]) == Trimmed(init) + [TERMINATOR];
    JoinConcat(Trimmed(init), [TERMINATOR], CRLF);
  }

  /** Decoding a body whose last chunk was rewritten to the terminator line. */
  lemma TerminatedChunks(s: string, chunks: seq<string>)
    requires EndsWith(s, MAIL_END) && chunks == Split(s, SEP)
    ensures Join(Trimmed(chunks[|chunks| - 1 := TERMINATOR]), CRLF) == Unstuff(s[..|s| - 3]) + TERMINATOR
  {
    var t := s[..|s| - 5];
    ChunksOfTerminated(s);
    RewrittenJoin(Split(t, SEP));
    ChunksAreLines(t);
    DropTerminator(s);
    UnstuffSnoc(t);
  }

  lemma DropTerminator(s: string)
    requires EndsWith(s, MAIL_END)
    ensures s[..|s| - 3] == s[..|s| - 5] + CRLF
  {
    assert MAIL_END[..2] == CRLF;
    assert s[|s| - 5..][..2] == s[|s| - 5..|s| - 3];
  }

  /** Reassembling all chunks gives the line-by-line result. */
  lemma AcceptedChunks(s: string, chunks: seq<string>)
    requires s != "" && chunks == Split(s, SEP) && !StrayEnd(Rewritten(chunks))
    ensures var text := Join(Trimmed(Rewritten(chunks)), CRLF);
            Decoded(s) == Success(if chunks[|chunks| - 1] == CRLF then text else text + ".")
  {
    StrayIsBad(chunks);
    GoodChunksNotPremature(s, chunks);
    LastChunk(s, chunks);
    if s == CRLF {
      CrlfIsOneChunk();
      assert Trimmed([TERMINATOR]) == [CRLF];
    } else if EndsWith(s, MAIL_END) {
      TerminatedChunks(s, chunks);
    } else {
      ChunksAreLines(s);
    }
  }

  lemma RejectedChunks(s: string, chunks: seq<string>)
    requires s != "" && chunks == Split(s, SEP) && StrayEnd(Rewritten(chunks))
    ensures Decoded(s) == Failure(MailEndAtUnexpectedPosition)
  {
    StrayIsBad(chunks);
    var k :| 1 <= k < |chunks| && BadChunk(chunks, k);
    BadChunkIsPremature(s, k);
  }

  lemma StrayIsBad(chunks: seq<string>)
    requires |chunks| >= 1
    ensures StrayEnd(Rewritten(chunks)) <==> exists k | 1 <= k < |chunks| :: BadChunk(chunks, k)
  {
    var rewritten := Rewritten(chunks);
    assert TERMINATOR[0] != CRLF[0];
    forall k | 1 <= k < |chunks|
      ensures CRLF <= rewritten[k] <==> BadChunk(chunks, k)
    {
      assert k < |chunks| - 1 ==> rewritten[k] == chunks[k];
    }
  }

  // ---------- rejection ----------

  lemma {:induction false} BadChunkIsPremature(s: string, k: nat)
    requires 1 <= k && BadChunk(Split(s, SEP), k)
    ensures PrematureEnd(s)
  {
    if SEP <= s {
      var t := s[3..];
      if k > 1 {
        BadChunkIsPremature(t, k - 1);
        var i :| 0 <= i < |t| && PrematureAt(t, i);
        assert s[i + 3..i + 8] == t[i..i + 5];
        assert PrematureAt(s, i + 3);
      } else {
        FirstChunkBad(t);
        assert s[3..5] == t[..2];
        assert PrematureAt(s, 0);
      }
    } else {
      var t := s[1..];
      BadChunkIsPremature(t, k);
      var i :| 0 <= i < |t| && PrematureAt(t, i);
      assert s[i + 1..i + 6] == t[i..i + 5];
      assert PrematureAt(s, i + 1);
    }
  }

  /** When the chunk right after a separator is the bad one. */
  lemma FirstChunkBad(t: string)
    ensures BadChunk(Split(t, SEP), 0) <==> CRLF <= t && |t| > 2 && t[2] != '.'
  {
    JoinSplit(t, SEP);
    if t != "" && !(SEP <= t) {
      var u := t[1..];
      if u != "" && !(SEP <= u) {
        var c := Split(u[1..], SEP);
        assert Split(t, SEP)[0] == [t[0]] + ([u[0]] + c[0]);
      }
    }
  }

  lemma PrematureTail(s: string, i: nat, n: nat)
    requires n <= i && PrematureAt(s, i)
    ensures PrematureAt(s[n..], i - n)
  {
    assert s[n..][i - n..i - n + 5] == s[i..i + 5];
  }

  lemma {:induction false} PrematureHasBadChunk(s: string, i: nat) returns (k: nat)
    requires PrematureAt(s, i)
    ensures 1 <= k && BadChunk(Split(s, SEP), k)
  {
    MailEndChars(s, i);
    BreakChars(s);
    if SEP <= s {
      var t := s[3..];
      if i == 0 {
        BreakChars(t);
        FirstChunkBad(t);
        k := 1;
      } else {
        PrematureTail(s, i, 3);
        k := PrematureHasBadChunk(t, i - 3);
        k := k + 1;
      }
    } else {
      PrematureTail(s, i, 1);
      k := PrematureHasBadChunk(s[1..], i - 1);
    }
  }

  lemma GoodChunksNotPremature(s: string, chunks: seq<string>)
    requires chunks == Split(s, SEP)
    requires forall k | 1 <= k < |chunks| :: !BadChunk(chunks, k)
    ensures !PrematureEnd(s)
  {
    if PrematureEnd(s) {
      var i :| 0 <= i < |s| && PrematureAt(s, i);
      var k := PrematureHasBadChunk(s, i);
    }
  }
}
