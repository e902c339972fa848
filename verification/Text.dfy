/**
 Strings as the program's standard library sees them: splitting, joining, trimming, and the
 ASCII upper-casing that `Command::new` relies on.
 */
module Text {
  const CRLF := "\r\n"

  predicate EndsWith(s: string, suffix: string) {
    |suffix| <= |s| && s[|s| - |suffix|..] == suffix
  }

  predicate OccursAt(s: string, p: string, i: nat) {
    i + |p| <= |s| && s[i..i + |p|] == p
  }

  predicate Contains(s: string, p: string) {
    exists i | 0 <= i <= |s| :: OccursAt(s, p, i)
  }

  /** `str::split` with a non-empty string pattern: a scan from the left. */
  function Split(s: string, sep: string): (parts: seq<string>)
    requires sep != ""
    ensures |parts| >= 1
    ensures |parts| == 1 ==> parts[0] == s
  {
    if s == "" then [""]
    else if sep <= s then [""] + Split(s[|sep|..], sep)
    else
      var rest := Split(s[1..], sep);
      [[s[0]] + rest[0]] + rest[1..]
  }

  function Join(parts: seq<string>, sep: string): string
    requires |parts| >= 1
  {
    if |parts| == 1 then parts[0] else parts[0] + sep + Join(parts[1..], sep)
  }

  /** The parts one after the other. */
  function Flatten<T>(parts: seq<seq<T>>): seq<T> {
    if parts == [] then [] else parts[0] + Flatten(parts[1..])
  }

  lemma FlattenOne<T>(part: seq<T>)
    ensures Flatten([part]) == part
  {
    assert part + [] == part;
  }

  lemma {:induction false} FlattenConcat<T>(a: seq<seq<T>>, b: seq<seq<T>>)
    ensures Flatten(a + b) == Flatten(a) + Flatten(b)
  {
    if a == [] {
      assert a + b == b;
    } else {
      FlattenConcat(a[1..], b);
      assert (a + b)[1..] == a[1..] + b;
      Assoc(a[0], Flatten(a[1..]), Flatten(b));
    }
  }

  lemma FlattenSnoc<T>(parts: seq<seq<T>>, last: seq<T>)
    ensures Flatten(parts + [last]) == Flatten(parts) + last
  {
    FlattenConcat(parts, [last]);
    FlattenOne(last);
  }

  function UpperChar(c: char): char {
    if 'a' <= c <= 'z' then c - 'a' + 'A' else c
  }

  function Upper(s: string): (u: string)
    ensures |u| == |s|
  {
    seq(|s|, i requires 0 <= i < |s| => UpperChar(s[i]))
  }

  predicate IsSpace(c: char) {
    c == ' ' || '\t' <= c <= '\r'
  }

  function TrimStart(s: string): string {
    if s != "" && IsSpace(s[0]) then TrimStart(s[1..]) else s
  }

  function TrimEnd(s: string): string {
    if s != "" && IsSpace(s[|s| - 1]) then TrimEnd(s[..|s| - 1]) else s
  }

  function Trim(s: string): string {
    TrimEnd(TrimStart(s))
  }

  /** Joining what was split gives the original back. */
  lemma {:induction false} JoinSplit(s: string, sep: string)
    requires sep != ""
    ensures Join(Split(s, sep), sep) == s
  {
    if s == "" {
    } else if sep <= s {
      var t := s[|sep|..];
      JoinSplit(t, sep);
      assert s == sep + t;
      SplitSep(t, sep);
      JoinEmptyHead(Split(t, sep), sep);
    } else {
      var t := s[1..];
      JoinSplit(t, sep);
      assert s == [s[0]] + t;
      SplitChar(s[0], t, sep);
      JoinHead([s[0]], Split(t, sep), sep);
    }
  }

  lemma JoinEmptyHead(parts: seq<string>, sep: string)
    requires |parts| >= 1
    ensures Join([""] + parts, sep) == sep + Join(parts, sep)
  {
    assert ([""] + parts)[1..] == parts;
  }

  /** Text put in front of the first part ends up in front of the whole. */
  lemma JoinHead(c: string, parts: seq<string>, sep: string)
    requires |parts| >= 1
    ensures Join([c + parts[0]] + parts[1..], sep) == c + Join(parts, sep)
  {
    var q := [c + parts[0]] + parts[1..];
    if |parts| > 1 {
      assert q[1..] == parts[1..];
      assert (c + parts[0]) + sep + Join(parts[1..], sep) == c + (parts[0] + sep + Join(parts[1..], sep));
    }
  }

  lemma {:induction false} JoinConcat(a: seq<string>, b: seq<string>, sep: string)
    requires |a| >= 1 && |b| >= 1
    ensures Join(a + b, sep) == Join(a, sep) + sep + Join(b, sep)
  {
    if |a| == 1 {
      assert (a + b)[1..] == b;
    } else {
      JoinConcat(a[1..], b, sep);
      assert (a + b)[1..] == a[1..] + b;
      assert a[0] + sep + (Join(a[1..], sep) + sep + Join(b, sep))
          == (a[0] + sep + Join(a[1..], sep)) + sep + Join(b, sep);
    }
  }

  /**
   A separator none of whose proper prefixes is also a suffix of it cannot straddle a cut, so splitting
   distributes over concatenation.  `Unbordered` says just that about the first character.
   */
  predicate Unbordered(sep: string) {
    |sep| >= 1 && forall k | 1 <= k < |sep| :: sep[k] != sep[0]
  }

  lemma {:induction false} SplitConcat(a: string, b: string, sep: string)
    requires Unbordered(sep)
    ensures Split(a + sep + b, sep) == Split(a, sep) + Split(b, sep)
  {
    if a == "" {
      assert a + sep + b == sep + b;
      SplitSep(b, sep);
    } else if sep <= a {
      var t := a[|sep|..];
      SplitConcat(t, b, sep);
      Regroup(a, sep, t, sep, b);
      PrependSep(sep, t, t + sep + b, Split(b, sep));
    } else {
      var t := a[1..];
      SplitConcat(t, b, sep);
      Regroup(a, [a[0]], t, sep, b);
      NoStraddle(a, b, sep);
      PrependChar(sep, a[0], t, t + sep + b, Split(b, sep));
    }
  }

  lemma Regroup(a: string, p: string, t: string, sep: string, b: string)
    requires p <= a && t == a[|p|..]
    ensures a == p + t && a + sep + b == p + (t + sep + b)
  {
    assert a == p + t;
    Assoc(p, t, sep);
    Assoc(p, t + sep, b);
  }

  lemma Assoc<T>(a: seq<T>, b: seq<T>, c: seq<T>)
    ensures (a + b) + c == a + (b + c)
  {
  }

  lemma PrependSep(sep: string, t: string, u: string, parts: seq<string>)
    requires sep != "" && Split(u, sep) == Split(t, sep) + parts
    ensures Split(sep + u, sep) == Split(sep + t, sep) + parts
  {
    SplitSep(u, sep);
    SplitSep(t, sep);
  }

  lemma PrependChar(sep: string, c: char, t: string, u: string, parts: seq<string>)
    requires sep != "" && Split(u, sep) == Split(t, sep) + parts
    requires !(sep <= [c] + t) && !(sep <= [c] + u)
    ensures Split([c] + u, sep) == Split([c] + t, sep) + parts
  {
    SplitChar(c, u, sep);
    SplitChar(c, t, sep);
  }

  lemma SplitSep(t: string, sep: string)
    requires sep != ""
    ensures Split(sep + t, sep) == [""] + Split(t, sep)
  {
    assert (sep + t)[|sep|..] == t;
  }

  lemma SplitChar(c: char, t: string, sep: string)
    requires sep != "" && !(sep <= [c] + t)
    ensures Split([c] + t, sep) == [[c] + Split(t, sep)[0]] + Split(t, sep)[1..]
  {
    assert ([c] + t)[1..] == t;
  }

  lemma NoStraddle(a: string, b: string, sep: string)
    requires Unbordered(sep) && a != "" && !(sep <= a)
    ensures !(sep <= a + sep + b)
  {
    var s := a + sep + b;
    if |sep| <= |a| {
      assert s[..|sep|] == a[..|sep|];
    } else {
      assert s[|a|] == sep[0] != sep[|a|];
    }
  }
}
