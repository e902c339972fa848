/**
 The session tests each piece it reads for the mail end on its own (src/smtp/server.rs:604).  For pieces
 that are whole lines this does not depend on where the stream was cut; for other pieces it does, and this
 module says exactly when.
 */
module Segmentation {
  import opened Text
  import opened Transparency
  import opened DotStuffing

  /** The first piece in which the session sees the mail end, or the number of pieces. */
  function FirstEnd(pieces: seq<string>): (k: nat)
    ensures k <= |pieces|
    ensures k < |pieces| ==> ContainsMailEnd(pieces[k])
    ensures forall i | 0 <= i < k :: !ContainsMailEnd(pieces[i])
  {
    if pieces == [] || ContainsMailEnd(pieces[0]) then 0 else 1 + FirstEnd(pieces[1..])
  }

  /** Where piece `k` begins in the whole. */
  function Offset<T>(pieces: seq<seq<T>>, k: nat): nat
    requires k <= |pieces|
  {
    |Flatten(pieces[..k])|
  }

  lemma PieceOfText<T>(pieces: seq<seq<T>>, k: nat)
    requires k < |pieces|
    ensures Offset(pieces, k + 1) == Offset(pieces, k) + |pieces[k]| <= |Flatten(pieces)|
    ensures pieces[k] == Flatten(pieces)[Offset(pieces, k)..Offset(pieces, k + 1)]
    ensures k < |pieces| - 1 ==> Offset(pieces, k + 1) + |pieces[|pieces| - 1]| <= |Flatten(pieces)|
  {
    var before, after := pieces[..k], pieces[k + 1..];
    assert pieces[..k + 1] == before + [pieces[k]];
    assert pieces == pieces[..k + 1] + after;
    FlattenSnoc(before, pieces[k]);
    FlattenConcat(pieces[..k + 1], after);
    if after != [] {
      assert after == after[..|after| - 1] + [pieces[|pieces| - 1]];
      FlattenSnoc(after[..|after| - 1], pieces[|pieces| - 1]);
    }
  }

  // ---------- pieces of whole lines ----------

  /** A stream cut into pieces of whole lines: each piece is given by its lines. */
  type Cutting = seq<seq<string>>

  function Rendered(pieces: Cutting): (r: seq<string>)
    ensures |r| == |pieces|
  {
    seq(|pieces|, i requires 0 <= i < |pieces| => Render(pieces[i]))
  }

  /** The first line that is a single dot, or the number of lines. */
  function FirstDot(lines: seq<string>): (d: nat)
    ensures d <= |lines|
    ensures d < |lines| ==> lines[d] == "."
    ensures forall i | 0 <= i < d :: lines[i] != "."
  {
    if lines == [] || lines[0] == "." then 0 else 1 + FirstDot(lines[1..])
  }

  /** Line `d` of the whole stream lies in piece `k`. */
  predicate InPiece(pieces: Cutting, k: nat, d: nat) {
    k < |pieces| && Offset(pieces, k) <= d < Offset(pieces, k + 1)
  }

  /** The session stops at the piece that holds the first dot line, and at none if there is no such line. */
  lemma {:induction false} EndsAtFirstDot(pieces: Cutting)
    requires AllNoCrlf(Flatten(pieces))
    ensures var k := FirstEnd(Rendered(pieces));
            && (k < |pieces| <==> "." in Flatten(pieces))
            && (k < |pieces| ==> InPiece(pieces, k, FirstDot(Flatten(pieces))))
  {
    if pieces != [] {
      var head, rest := pieces[0], pieces[1..];
      HeadAndRest(head, Flatten(rest));
      DetectsDotLine(head);
      assert Rendered(pieces)[1..] == Rendered(rest);
      if "." in head {
        EndsInHead(pieces);
      } else {
        EndsAtFirstDot(rest);
        FirstDotShift(head, Flatten(rest));
        var k := FirstEnd(Rendered(rest));
        PieceShift(pieces, k);
        if k < |rest| {
          PieceShift(pieces, k + 1);
        }
      }
    }
  }

  lemma EndsInHead(pieces: Cutting)
    requires pieces != [] && "." in pieces[0]
    ensures InPiece(pieces, 0, FirstDot(Flatten(pieces)))
  {
    assert pieces[..0] == [] && pieces[..1] == [pieces[0]];
    FlattenOne(pieces[0]);
    FirstDotInHead(pieces[0], Flatten(pieces[1..]));
  }

  lemma HeadAndRest(head: seq<string>, tail: seq<string>)
    requires AllNoCrlf(head + tail)
    ensures AllNoCrlf(head) && AllNoCrlf(tail)
    ensures "." in head + tail <==> "." in head || "." in tail
  {
    assert forall i | 0 <= i < |head| :: (head + tail)[i] == head[i];
    assert forall i | 0 <= i < |tail| :: (head + tail)[|head| + i] == tail[i];
  }

  lemma FirstDotInHead(head: seq<string>, tail: seq<string>)
    requires "." in head
    ensures FirstDot(head + tail) < |head|
  {
    var i :| 0 <= i < |head| && head[i] == ".";
    assert (head + tail)[i] == ".";
  }

  lemma PieceShift(pieces: Cutting, k: nat)
    requires pieces != [] && k <= |pieces| - 1
    ensures Offset(pieces, k + 1) == |pieces[0]| + Offset(pieces[1..], k)
  {
    var head, rest := pieces[0], pieces[1..];
    assert pieces[..k + 1] == [head] + rest[..k];
    FlattenConcat([head], rest[..k]);
    FlattenOne(head);
  }

  lemma {:induction false} FirstDotShift(head: seq<string>, tail: seq<string>)
    requires "." !in head
    ensures FirstDot(head + tail) == |head| + FirstDot(tail)
  {
    if head == [] {
      assert head + tail == tail;
    } else {
      assert head[0] in head;
      FirstDotShift(head[1..], tail);
      assert (head + tail)[1..] == head[1..] + tail;
    }
  }

  /** Two cuttings of the same text: either neither session sees an end, or both stop at the same line. */
  lemma CuttingsAgree(p: Cutting, q: Cutting)
    requires AllNoCrlf(Flatten(p)) && AllNoCrlf(Flatten(q))
    requires Render(Flatten(p)) == Render(Flatten(q))
    ensures var i, j := FirstEnd(Rendered(p)), FirstEnd(Rendered(q));
            && (i < |p| <==> j < |q|)
            && (i < |p| ==> InPiece(p, i, FirstDot(Flatten(p))) && InPiece(q, j, FirstDot(Flatten(p))))
  {
    SameTextSameLines(Flatten(p), Flatten(q));
    EndsAtFirstDot(p);
    EndsAtFirstDot(q);
  }

  // ---------- any pieces ----------

  /** Position `c` is just before the last character of a line, and that character is a dot. */
  ghost predicate BeforeLastDot(lines: seq<string>, c: nat) {
    exists j: nat :: LastDotAt(lines, j, c)
  }

  predicate LastDotAt(lines: seq<string>, j: nat, c: nat) {
    j < |lines| && EndsWith(lines[j], ".") && c + 1 == LineStart(lines, j) + |lines[j]|
  }

  /** Position `c` is just behind the first character of a line after the first, and that character is a dot. */
  ghost predicate BehindFirstDot(lines: seq<string>, c: nat) {
    exists j: nat :: FirstDotAt(lines, j, c)
  }

  predicate FirstDotAt(lines: seq<string>, j: nat, c: nat) {
    1 <= j < |lines| && "." <= lines[j] && c == LineStart(lines, j) + 1
  }

  lemma LineStartShift(lines: seq<string>, j: nat)
    requires lines != [] && j <= |lines| - 1
    ensures LineStart(lines, j + 1) == |lines[0]| + 2 + LineStart(lines[1..], j)
  {
    assert lines[..j + 1][0] == lines[0] && lines[..j + 1][1..] == lines[1..][..j];
  }

  /** The characters of a text of lines around its first line end. */
  lemma FirstLineEnd(lines: seq<string>)
    requires lines != [] && AllNoCrlf(lines)
    ensures var m, r := lines[0], Render(lines);
            && |r| == |m| + 2 + |Render(lines[1..])|
            && r[|m|] == '\r' && r[|m| + 1] == '\n'
            && (forall j | 0 <= j < |m| :: r[j] == m[j])
            && (forall j | |m| + 2 <= j < |r| :: r[j] == Render(lines[1..])[j - |m| - 2])
            && (forall j | 0 < j < |m| :: r[j] == '\n' ==> r[j - 1] != '\r')
  {
    Assoc(lines[0], CRLF, Render(lines[1..]));
  }

  lemma {:induction false} TerminatorIsLastDot(lines: seq<string>, c: nat)
    requires AllNoCrlf(lines) && OccursAt(Render(lines), TERMINATOR, c)
    ensures BeforeLastDot(lines, c)
  {
    var m, r := lines[0], Render(lines);
    FirstLineEnd(lines);
    assert r[c] == r[c..c + 3][0] && r[c + 1] == r[c..c + 3][1] && r[c + 2] == r[c..c + 3][2];
    if c < |m| {
      assert lines[..0] == [];
      assert m[|m| - 1..] == ".";
      assert LastDotAt(lines, 0, c);
    } else {
      var d := c - |m| - 2;
      assert Render(lines[1..])[d..d + 3] == r[c..c + 3];
      TerminatorIsLastDot(lines[1..], d);
      var j: nat :| LastDotAt(lines[1..], j, d);
      LineStartShift(lines, j);
      assert LastDotAt(lines, j + 1, c);
    }
  }

  lemma LastDotIsTerminator(lines: seq<string>, c: nat)
    requires BeforeLastDot(lines, c)
    ensures OccursAt(Render(lines), TERMINATOR, c)
  {
    var j: nat :| LastDotAt(lines, j, c);
    TextFromLine(lines, j);
    var r, a, m := Render(lines), LineStart(lines, j), lines[j];
    assert r[a..][|m| - 1..|m| + 2] == TERMINATOR by {
      assert m == m[..|m| - 1] + ".";
      assert (m + CRLF)[|m| - 1..] == TERMINATOR;
    }
    assert r[c..c + 3] == r[a..][|m| - 1..|m| + 2];
  }

  lemma {:induction false} SeparatorIsFirstDot(lines: seq<string>, i: nat)
    requires AllNoCrlf(lines) && OccursAt(Render(lines), SEP, i)
    ensures BehindFirstDot(lines, i + 3)
  {
    var m, rest, r := lines[0], lines[1..], Render(lines);
    FirstLineEnd(lines);
    assert r[i] == r[i..i + 3][0] && r[i + 1] == r[i..i + 3][1] && r[i + 2] == r[i..i + 3][2];
    if i < |m| + 2 {
      assert i == |m|;
      assert rest != [];
      FirstLineEnd(rest);
      assert lines[..1] == [m] && Render([m]) == m + CRLF + "";
      assert FirstDotAt(lines, 1, i + 3);
    } else {
      var d := i - |m| - 2;
      assert Render(rest)[d..d + 3] == r[i..i + 3];
      SeparatorIsFirstDot(rest, d);
      var j: nat :| FirstDotAt(rest, j, d + 3);
      LineStartShift(lines, j);
      assert FirstDotAt(lines, j + 1, i + 3);
    }
  }

  lemma FirstDotIsSeparator(lines: seq<string>, c: nat)
    requires BehindFirstDot(lines, c)
    ensures c >= 3 && OccursAt(Render(lines), SEP, c - 3)
  {
    var j: nat :| FirstDotAt(lines, j, c);
    TextFromLine(lines, j);
    LineStartNext(lines, j - 1);
    TextFromLine(lines, j - 1);
    var r, a := Render(lines), LineStart(lines, j);
    assert r[a..][0] == '.';
    assert r[LineStart(lines, j - 1)..][|lines[j - 1]|..|lines[j - 1]| + 2] == CRLF;
    assert r[a - 2..a] == CRLF;
    assert r[a - 2..a + 1] == r[a - 2..a] + [r[a]];
  }

  /** A terminated text of lines, none of which is a dot: the mail end is at its end and nowhere else. */
  predicate Terminated(all: seq<string>) {
    && |all| >= 2 && AllNoCrlf(all)
    && all[|all| - 1] == "." && forall k | 0 <= k < |all| - 1 :: all[k] != "."
  }

  lemma MailEndAtTheEnd(all: seq<string>, i: nat)
    requires Terminated(all) && OccursAt(Render(all), MAIL_END, i)
    ensures i + 5 == |Render(all)|
  {
    var k := MailEndIsDotLine(all, i);
    assert all[..|all|] == all;
  }

  lemma TerminatedEnds(all: seq<string>)
    requires Terminated(all)
    ensures EndsWith(Render(all), MAIL_END)
  {
    assert all == all[..|all| - 1] + ["."];
    RenderTerminated(all[..|all| - 1]);
  }

  /** The piece from `a` to `b` makes the session see an end although the text goes on. */
  ghost predicate Misleading(all: seq<string>, a: nat, b: nat) {
    b >= a + 3 && (BeforeLastDot(all, a) || BehindFirstDot(all, b))
  }

  lemma NoMailEndInside(all: seq<string>, a: nat, b: nat)
    requires Terminated(all) && a <= b < |Render(all)|
    ensures !Contains(Render(all)[a..b], MAIL_END)
  {
    var s, p := Render(all), Render(all)[a..b];
    if i: nat :| i <= |p| && OccursAt(p, MAIL_END, i) {
      assert s[a + i..a + i + 5] == p[i..i + 5];
      MailEndAtTheEnd(all, a + i);
    }
  }

  lemma OpensWithEnd(all: seq<string>, a: nat, b: nat)
    requires AllNoCrlf(all) && a + 3 <= b <= |Render(all)|
    ensures TERMINATOR <= Render(all)[a..b] <==> BeforeLastDot(all, a)
  {
    assert Render(all)[a..b][..3] == Render(all)[a..a + 3];
    if BeforeLastDot(all, a) {
      LastDotIsTerminator(all, a);
    }
    if OccursAt(Render(all), TERMINATOR, a) {
      TerminatorIsLastDot(all, a);
    }
  }

  lemma ClosesWithEnd(all: seq<string>, a: nat, b: nat)
    requires AllNoCrlf(all) && a + 3 <= b <= |Render(all)|
    ensures EndsWith(Render(all)[a..b], SEP) <==> BehindFirstDot(all, b)
  {
    assert Render(all)[a..b][b - a - 3..] == Render(all)[b - 3..b];
    if BehindFirstDot(all, b) {
      FirstDotIsSeparator(all, b);
    }
    if OccursAt(Render(all), SEP, b - 3) {
      SeparatorIsFirstDot(all, b - 3);
    }
  }

  /** An end is seen in a piece before the end of the text exactly at a dot beside one of its cuts. */
  lemma InnerPiece(all: seq<string>, a: nat, b: nat)
    requires Terminated(all) && a <= b < |Render(all)|
    ensures ContainsMailEnd(Render(all)[a..b]) <==> Misleading(all, a, b)
  {
    NoMailEndInside(all, a, b);
    if b >= a + 3 {
      OpensWithEnd(all, a, b);
      ClosesWithEnd(all, a, b);
    }
  }

  /** The length of the last piece alone decides whether the session sees the end in it. */
  lemma FinalPiece(all: seq<string>, a: nat)
    requires Terminated(all) && a <= |Render(all)|
    ensures ContainsMailEnd(Render(all)[a..]) <==> |Render(all)| - a !in {0, 1, 2, 4}
  {
    var s := Render(all);
    var p, n := s[a..], |Render(all)| - a;
    TerminatedEnds(all);
    assert s[|s| - 5..] == MAIL_END;
    if n >= 5 {
      assert p[n - 5..] == s[|s| - 5..];
      LongTail(p);
    } else {
      assert p == s[|s| - 5..][5 - n..];
      ShortTail(5 - n);
    }
  }

  lemma LongTail(p: string)
    requires EndsWith(p, MAIL_END)
    ensures ContainsMailEnd(p)
  {
    assert p[|p| - 5..|p|] == p[|p| - 5..];
    assert OccursAt(p, MAIL_END, |p| - 5);
  }

  lemma ShortTail(k: nat)
    requires 1 <= k <= 5
    ensures ContainsMailEnd(MAIL_END[k..]) <==> k == 2
  {
    var p := MAIL_END[k..];
    assert !Contains(p, MAIL_END);
    if k == 1 {
      assert p[0] == '\n' && p[1..][2] == '\n' && SEP[2] == '.';
    } else if k == 2 {
      assert p == TERMINATOR;
    }
  }

  /** No cut beside a telling dot, and a last piece of none of the four lengths that hide the end. */
  ghost predicate SafelyCut(all: seq<string>, pieces: seq<string>)
    requires pieces != []
  {
    NoneMisleading(all, pieces) && |pieces[|pieces| - 1]| !in {0, 1, 2, 4}
  }

  ghost predicate NoneMisleading(all: seq<string>, pieces: seq<string>) {
    forall k | 0 <= k < |pieces| - 1 :: !Misleading(all, Offset(pieces, k), Offset(pieces, k + 1))
  }

  /** No end is seen before the last piece. */
  predicate NoneEarly(pieces: seq<string>) {
    forall k | 0 <= k < |pieces| - 1 :: !ContainsMailEnd(pieces[k])
  }

  lemma InnerPieceSeen(all: seq<string>, pieces: seq<string>, k: nat)
    requires Terminated(all) && k < |pieces| - 1 && Flatten(pieces) == Render(all) && pieces[|pieces| - 1] != ""
    ensures ContainsMailEnd(pieces[k]) <==> Misleading(all, Offset(pieces, k), Offset(pieces, k + 1))
  {
    PieceOfText(pieces, k);
    InnerPiece(all, Offset(pieces, k), Offset(pieces, k + 1));
  }

  lemma LastPieceIsRest<T>(pieces: seq<seq<T>>)
    requires pieces != []
    ensures var last := |pieces| - 1;
            && Offset(pieces, last) + |pieces[last]| == |Flatten(pieces)|
            && pieces[last] == Flatten(pieces)[Offset(pieces, last)..]
  {
    var last := |pieces| - 1;
    assert pieces == pieces[..last] + [pieces[last]];
    FlattenSnoc(pieces[..last], pieces[last]);
  }

  lemma LastPieceSeen(all: seq<string>, pieces: seq<string>)
    requires Terminated(all) && pieces != [] && Flatten(pieces) == Render(all)
    ensures ContainsMailEnd(pieces[|pieces| - 1]) <==> |pieces[|pieces| - 1]| !in {0, 1, 2, 4}
  {
    LastPieceIsRest(pieces);
    FinalPiece(all, Offset(pieces, |pieces| - 1));
  }

  lemma StopsLastIff(pieces: seq<string>)
    requires pieces != []
    ensures FirstEnd(pieces) == |pieces| - 1 <==> ContainsMailEnd(pieces[|pieces| - 1]) && NoneEarly(pieces)
  {
  }

  lemma NoneEarlyIff(all: seq<string>, pieces: seq<string>)
    requires Terminated(all) && pieces != [] && Flatten(pieces) == Render(all) && pieces[|pieces| - 1] != ""
    ensures NoneEarly(pieces) <==> NoneMisleading(all, pieces)
  {
    if NoneEarly(pieces) {
      forall k | 0 <= k < |pieces| - 1
        ensures !Misleading(all, Offset(pieces, k), Offset(pieces, k + 1))
      {
        InnerPieceSeen(all, pieces, k);
      }
    }
    if NoneMisleading(all, pieces) {
      forall k | 0 <= k < |pieces| - 1
        ensures !ContainsMailEnd(pieces[k])
      {
        InnerPieceSeen(all, pieces, k);
      }
    }
  }

  /**
   A terminated message cut anywhere: the session sees the end in the last piece and in none before it if
   and only if the message is safely cut.
   */
  lemma EndSeenIff(all: seq<string>, pieces: seq<string>)
    requires Terminated(all) && pieces != [] && Flatten(pieces) == Render(all)
    ensures FirstEnd(pieces) == |pieces| - 1 <==> SafelyCut(all, pieces)
  {
    LastPieceSeen(all, pieces);
    StopsLastIff(pieces);
    if pieces[|pieces| - 1] != "" {
      NoneEarlyIff(all, pieces);
    }
  }

  /** Pieces of whole lines are always safely cut. */
  lemma WholeLinesSafelyCut(all: seq<string>, pieces: Cutting)
    requires Terminated(all) && pieces != [] && pieces[|pieces| - 1] != [] && Flatten(pieces) == all
    ensures Flatten(Rendered(pieces)) == Render(all) && SafelyCut(all, Rendered(pieces))
  {
    RenderedText(pieces);
    EndsAtLastPiece(all, pieces);
    EndSeenIff(all, Rendered(pieces));
  }

  lemma EndsAtLastPiece(all: seq<string>, pieces: Cutting)
    requires Terminated(all) && pieces != [] && pieces[|pieces| - 1] != [] && Flatten(pieces) == all
    ensures FirstEnd(Rendered(pieces)) == |pieces| - 1
  {
    EndsAtFirstDot(pieces);
    assert all[|all| - 1] == "." && all[FirstDot(all)] == ".";
    PieceOfText(pieces, FirstEnd(Rendered(pieces)));
  }

  lemma {:induction false} RenderedText(pieces: Cutting)
    ensures Flatten(Rendered(pieces)) == Render(Flatten(pieces))
  {
    if pieces != [] {
      RenderedText(pieces[1..]);
      assert Rendered(pieces)[1..] == Rendered(pieces[1..]);
      RenderConcat(pieces[0], Flatten(pieces[1..]));
    }
  }

  /** With one cut, a false end can only be seen at the end of the first piece. */
  lemma FirstOfTwo(all: seq<string>, c: nat)
    requires Terminated(all) && 0 < c < |Render(all)|
    ensures ContainsMailEnd(Render(all)[..c]) <==> EndsWith(Render(all)[..c], SEP)
  {
    var s := Render(all);
    InnerPiece(all, 0, c);
    assert s[0..c] == s[..c];
    if BeforeLastDot(all, 0) {
      LastDotIsTerminator(all, 0);
      TerminatorFirst(all);
      assert false;
    }
    if BehindFirstDot(all, c) {
      FirstDotIsSeparator(all, c);
      assert s[..c][c - 3..] == s[c - 3..c];
    }
  }

  /** The same for one cut, in terms of the text alone. */
  lemma OneCutIff(all: seq<string>, c: nat)
    requires Terminated(all) && 0 < c < |Render(all)|
    ensures var s := Render(all);
            FirstEnd([s[..c], s[c..]]) == 1 <==> !EndsWith(s[..c], SEP) && c != |s| - 1 && c != |s| - 4
  {
    var s := Render(all);
    FinalPiece(all, c);
    FirstOfTwo(all, c);
    StopsLastIff([s[..c], s[c..]]);
    if c == |s| - 2 {
      TerminatedEnds(all);
      assert s[..c][c - 3..] == s[|s| - 5..][..3] == SEP;
    }
  }
}
