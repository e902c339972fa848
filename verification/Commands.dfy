/** Reading a client line: `Command::new` and the two address patterns of src/smtp/server.rs. */
module Commands {
  import opened Wrappers
  import opened Text

  datatype CommandVerb = INIT | HELO | EHLO | MAIL | RCPT | DATA | DATAINPUT | QUIT | AUTH

  function ParseVerb(word: string): Option<CommandVerb> {
    if word == "INIT" then Some(INIT)
    else if word == "HELO" then Some(HELO)
    else if word == "EHLO" then Some(EHLO)
    else if word == "MAIL" then Some(MAIL)
    else if word == "RCPT" then Some(RCPT)
    else if word == "DATA" then Some(DATA)
    else if word == "DATAINPUT" then Some(DATAINPUT)
    else if word == "QUIT" then Some(QUIT)
    else if word == "AUTH" then Some(AUTH)
    else None
  }

  /** The text before the first blank of the trimmed line. */
  function FirstWord(s: string): string {
    Split(Trim(s), " ")[0]
  }

  /** The verb `Command::new` finds in a client line. */
  function VerbOf(s: string): Option<CommandVerb> {
    var first := FirstWord(s);
    ParseVerb(Upper(first[..if |first| < 10 then |first| else 10]))
  }

  const MAIL_KEYWORD := "MAIL FROM:<"
  const RCPT_KEYWORD := "RCPT TO:<"
  const ADDRESS_END := ">\r\n"

  /**
   `parse_address_message_by_re` with the pattern `^(?i)KEYWORD([^>]+)>\r\n$`: the keyword in any case,
   a non-empty run without `>`, and the line end.
   */
  function ParseAddressMessage(keyword: string, s: string): Option<string> {
    if |s| <= |keyword| + 3 || Upper(s[..|keyword|]) != Upper(keyword) || !EndsWith(s, ADDRESS_END) then None
    else
      var inner := s[|keyword|..|s| - 3];
      if '>' in inner then None else Some(inner)
  }

  /** Cutting the first word to ten characters never changes the verb: no verb is that long. */
  lemma CutWordSameVerb(s: string)
    ensures VerbOf(s) == ParseVerb(Upper(FirstWord(s)))
  {
    var first := FirstWord(s);
    if |first| < 10 {
      assert first[..|first|] == first;
    } else {
      LongWordNoVerb(Upper(first));
      LongWordNoVerb(Upper(first[..10]));
    }
  }

  lemma LongWordNoVerb(word: string)
    requires |word| >= 10
    ensures ParseVerb(word) == None
  {
  }

  // ---------- up to case ----------

  /** The same character, or the two cases of one ASCII letter. */
  predicate SameLetter(c: char, d: char) {
    || c == d
    || ('a' <= c <= 'z' && c as int == d as int + 32)
    || ('a' <= d <= 'z' && d as int == c as int + 32)
  }

  predicate SameUpToCase(s: string, t: string) {
    |s| == |t| && forall i | 0 <= i < |s| :: SameLetter(s[i], t[i])
  }

  lemma SameUpperIff(s: string, t: string)
    ensures Upper(s) == Upper(t) <==> SameUpToCase(s, t)
  {
    if Upper(s) == Upper(t) {
      assert |s| == |Upper(s)| == |Upper(t)| == |t|;
      forall i | 0 <= i < |s|
        ensures SameLetter(s[i], t[i])
      {
        assert Upper(s)[i] == UpperChar(s[i]) && Upper(t)[i] == UpperChar(t[i]);
      }
    }
  }

  /** The word a client writes for a verb. */
  function NameOf(v: CommandVerb): string {
    match v
    case INIT => "INIT"
    case HELO => "HELO"
    case EHLO => "EHLO"
    case MAIL => "MAIL"
    case RCPT => "RCPT"
    case DATA => "DATA"
    case DATAINPUT => "DATAINPUT"
    case QUIT => "QUIT"
    case AUTH => "AUTH"
  }

  lemma NamesAreUpper(v: CommandVerb)
    ensures Upper(NameOf(v)) == NameOf(v)
  {
  }

  /** A line has a verb exactly if its first word is the name of that verb, in any case. */
  lemma VerbIff(s: string, v: CommandVerb)
    ensures VerbOf(s) == Some(v) <==> SameUpToCase(FirstWord(s), NameOf(v))
  {
    CutWordSameVerb(s);
    ParseIff(Upper(FirstWord(s)), v);
    SameUpperIff(FirstWord(s), NameOf(v));
    NamesAreUpper(v);
  }

  lemma ParseIff(word: string, v: CommandVerb)
    ensures ParseVerb(word) == Some(v) <==> word == NameOf(v)
  {
  }

  /** The white space of ASCII: blank, tab, line feed, vertical tab, form feed and carriage return. */
  predicate White(c: char) {
    c == ' ' || c == '\t' || c == '\n' || c as int == 11 || c as int == 12 || c == '\r'
  }

  predicate AllSpace(s: string) {
    forall i | 0 <= i < |s| :: White(s[i])
  }

  lemma {:induction false} TrimStartParts(s: string) returns (lead: string)
    ensures s == lead + TrimStart(s) && AllSpace(lead)
    ensures TrimStart(s) != "" ==> !IsSpace(TrimStart(s)[0])
  {
    lead := "";
    if s != "" && IsSpace(s[0]) {
      var rest := TrimStartParts(s[1..]);
      lead := [s[0]] + rest;
    }
  }

  lemma {:induction false} TrimEndParts(s: string) returns (tail: string)
    ensures s == TrimEnd(s) + tail && AllSpace(tail)
    ensures TrimEnd(s) != "" ==> !IsSpace(TrimEnd(s)[|TrimEnd(s)| - 1])
  {
    tail := "";
    if s != "" && IsSpace(s[|s| - 1]) {
      var rest := TrimEndParts(s[..|s| - 1]);
      tail := rest + [s[|s| - 1]];
    }
  }

  lemma BlankIff(s: string)
    ensures Trim(s) == "" <==> AllSpace(s)
  {
    var lead := TrimStartParts(s);
    var tail := TrimEndParts(TrimStart(s));
    assert forall i | 0 <= i < |TrimStart(s)| :: s[|lead| + i] == TrimStart(s)[i];
  }

  /** The first word of a line stands behind white space, and before a blank or nothing but white space. */
  predicate FirstWordAt(s: string, lead: string, word: string, rest: string) {
    && s == lead + word + rest
    && AllSpace(lead)
    && ' ' !in word
    && (word != "" ==> !White(word[0]))
    && (" " <= rest || AllSpace(rest))
    && (AllSpace(rest) && word != "" ==> !White(word[|word| - 1]))
    && (word == "" ==> AllSpace(s))
  }

  lemma {:induction false} SplitFirst(t: string)
    ensures Split(t, " ")[0] <= t && ' ' !in Split(t, " ")[0]
    ensures var w := Split(t, " ")[0]; |w| == |t| || t[|w|] == ' '
  {
    if t != "" && t[0] != ' ' {
      SplitFirst(t[1..]);
    }
  }

  lemma FirstWordStands(s: string) returns (lead: string, rest: string)
    ensures FirstWordAt(s, lead, FirstWord(s), rest)
  {
    lead := TrimStartParts(s);
    var core := TrimStart(s);
    var tail := TrimEndParts(core);
    var t, w := TrimEnd(core), FirstWord(s);
    SplitFirst(t);
    rest := t[|w|..] + tail;
    assert core == w + rest by { Cut(t, w); Assoc(w, t[|w|..], tail); }
    Assoc(lead, w, rest);
    RestStands(t, w, tail, rest);
    assert t != "" ==> t[0] == core[0];
  }

  lemma Cut(t: string, w: string)
    requires w <= t
    ensures t == w + t[|w|..]
  {
  }

  /** Behind the first word `w` of the trimmed `t` comes a blank, or white space only. */
  lemma RestStands(t: string, w: string, tail: string, rest: string)
    requires w <= t && (|w| == |t| || t[|w|] == ' ') && rest == t[|w|..] + tail && AllSpace(tail)
    requires t != "" ==> !White(t[|t| - 1])
    ensures " " <= rest || AllSpace(rest)
    ensures AllSpace(rest) ==> w == t
  {
    if |w| == |t| {
      assert rest == tail;
    } else {
      assert rest[..1] == " ";
      assert rest[|t| - 1 - |w|] == t[|t| - 1];
    }
  }

  lemma LeadsAgree(s: string, a: string, u: string, b: string, v: string)
    requires s == a + u == b + v && AllSpace(a) && AllSpace(b)
    requires u != "" && !IsSpace(u[0]) && v != "" && !IsSpace(v[0])
    ensures a == b && u == v
  {
    assert forall i | 0 <= i < |a| :: s[i] == a[i];
    assert forall i | 0 <= i < |b| :: s[i] == b[i];
    assert s[|a|] == u[0] && s[|b|] == v[0];
    assert a == s[..|a|] && b == s[..|b|];
    assert u == s[|a|..] && v == s[|b|..];
  }

  lemma NotShorter(t: string, w: string, rest: string, v: string, more: string)
    requires t == w + rest == v + more && v != ""
    requires ' ' !in v && (" " <= rest || AllSpace(rest)) && (AllSpace(more) ==> !IsSpace(v[|v| - 1]))
    ensures |w| >= |v|
  {
    if |w| < |v| {
      NoBlankAhead(t, w, rest, v, more);
      BlanksToTheEnd(t, w, rest, v, more);
    }
  }

  lemma NoBlankAhead(t: string, w: string, rest: string, v: string, more: string)
    requires t == w + rest == v + more && |w| < |v| && ' ' !in v
    ensures rest != "" && rest[0] != ' '
  {
    assert t[|w|] == rest[0] && t[|w|] == v[|w|];
    assert v[|w|] in v;
  }

  lemma BlanksToTheEnd(t: string, w: string, rest: string, v: string, more: string)
    requires t == w + rest == v + more && |w| < |v| && AllSpace(rest)
    ensures AllSpace(more) && IsSpace(v[|v| - 1])
  {
    assert forall i | |w| <= i < |t| :: t[i] == rest[i - |w|];
    assert forall i | 0 <= i < |more| :: more[i] == t[|v| + i];
    assert v[|v| - 1] == t[|v| - 1];
  }

  lemma WordsAgree(t: string, w: string, rest: string, v: string, more: string)
    requires t == w + rest == v + more && w != "" && v != "" && ' ' !in w && ' ' !in v
    requires (" " <= rest || AllSpace(rest)) && (AllSpace(rest) ==> !IsSpace(w[|w| - 1]))
    requires (" " <= more || AllSpace(more)) && (AllSpace(more) ==> !IsSpace(v[|v| - 1]))
    ensures w == v
  {
    NotShorter(t, w, rest, v, more);
    NotShorter(t, v, more, w, rest);
    assert w == t[..|w|] && v == t[..|v|];
  }

  /** The first word is the only one that stands so. */
  lemma FirstWordIff(s: string, w: string)
    ensures FirstWord(s) == w <==> exists lead, rest :: FirstWordAt(s, lead, w, rest)
  {
    var lead, rest := FirstWordStands(s);
    var word := FirstWord(s);
    forall a, b | FirstWordAt(s, a, w, b)
      ensures w == word
    {
      Assoc(a, w, b);
      Assoc(lead, word, rest);
      assert forall i | 0 <= i < |w| :: s[|a| + i] == w[i];
      assert forall i | 0 <= i < |word| :: s[|lead| + i] == word[i];
      if w != "" && word != "" {
        LeadsAgree(s, a, w + b, lead, word + rest);
        WordsAgree(w + b, w, b, word, rest);
      } else {
        assert w == "" ==> AllSpace(s);
        assert word == "" ==> AllSpace(s);
      }
    }
  }

  // ---------- address lines ----------

  /** A line made of the keyword in any case, the text `t`, and the line end. */
  predicate AddressLineFor(keyword: string, s: string, t: string) {
    && t != "" && '>' !in t
    && |keyword| <= |s| && SameUpToCase(s[..|keyword|], keyword) && s[|keyword|..] == t + ADDRESS_END
  }

  /** What the address pattern matches. */
  lemma AddressPattern(keyword: string, s: string, t: string)
    ensures ParseAddressMessage(keyword, s) == Some(t) <==> AddressLineFor(keyword, s, t)
  {
    var k, n := |keyword|, |s|;
    if n >= k {
      SameUpperIff(s[..k], keyword);
    }
    if n > k + 3 && EndsWith(s, ADDRESS_END) {
      assert s[k..] == s[k..n - 3] + s[n - 3..];
    }
    if k <= n && s[k..] == t + ADDRESS_END {
      assert s[n - 3..] == s[k..][|t|..] == ADDRESS_END;
      assert s[k..n - 3] == s[k..][..|t|] == t;
    }
  }

  /** A line that matches no text at all. */
  lemma NoAddressLine(keyword: string, s: string)
    ensures ParseAddressMessage(keyword, s) == None <==> forall t :: !AddressLineFor(keyword, s, t)
  {
    if ParseAddressMessage(keyword, s).Some? {
      AddressPattern(keyword, s, ParseAddressMessage(keyword, s).value);
    }
    forall t | AddressLineFor(keyword, s, t)
      ensures ParseAddressMessage(keyword, s).Some?
    {
      AddressPattern(keyword, s, t);
    }
  }

  // ---------- what a well-formed command is read as ----------

  lemma {:induction false} TrimEndKeeps(w: string, r: string)
    requires w != "" && !IsSpace(w[|w| - 1])
    ensures exists k | 0 <= k <= |r| :: TrimEnd(w + r) == w + r[..k]
  {
    if r == "" {
      assert w + r == w == w + r[..0];
    } else if IsSpace(r[|r| - 1]) {
      var t := r[..|r| - 1];
      TrimEndKeeps(w, t);
      assert (w + r)[..|w + r| - 1] == w + t;
      var k :| 0 <= k <= |t| && TrimEnd(w + t) == w + t[..k];
      assert t[..k] == r[..k];
    } else {
      assert r[..|r|] == r;
    }
  }

  lemma {:induction false} NoBlankOneWord(w: string)
    requires ' ' !in w
    ensures Split(w, " ") == [w]
  {
    if w != "" {
      NoBlankOneWord(w[1..]);
      assert w == [w[0]] + w[1..];
      assert !(" " <= w);
    }
  }

  /** A word followed by a blank and anything is the first word of the line. */
  lemma FirstWordIs(w: string, r: string)
    requires w != "" && !IsSpace(w[0]) && !IsSpace(w[|w| - 1]) && ' ' !in w
    requires " " <= r
    ensures FirstWord(w + r) == w
  {
    TrimEndKeeps(w, r);
    var k :| 0 <= k <= |r| && TrimEnd(w + r) == w + r[..k];
    assert TrimStart(w + r) == w + r;
    NoBlankOneWord(w);
    if k == 0 {
      assert w + r[..0] == w;
    } else {
      assert r[..k] == " " + r[1..k];
      Assoc(w, " ", r[1..k]);
      SplitConcat(w, r[1..k], " ");
    }
  }

  predicate IsKeyword(w: string) {
    w != "" && |w| <= 10 && forall i | 0 <= i < |w| :: 'A' <= w[i] <= 'Z'
  }

  lemma UpperKeyword(w: string)
    requires IsKeyword(w)
    ensures Upper(w) == w
  {
  }

  lemma VerbOfLine(w: string, r: string)
    requires IsKeyword(w) && " " <= r
    ensures VerbOf(w + r) == ParseVerb(w)
  {
    FirstWordIs(w, r);
    UpperKeyword(w);
    assert w[..|w|] == w;
  }

  lemma VerbOfBareLine(w: string)
    requires IsKeyword(w)
    ensures VerbOf(w + CRLF) == ParseVerb(w)
  {
    assert w + CRLF == w + "\r" + "\n";
    assert (w + CRLF)[..|w| + 1] == w + "\r";
    assert (w + "\r")[..|w|] == w;
    assert TrimEnd(w + CRLF) == TrimEnd(w + "\r") == TrimEnd(w) == w;
    assert TrimStart(w + CRLF) == w + CRLF;
    NoBlankOneWord(w);
    UpperKeyword(w);
    assert w[..|w|] == w;
  }

  /** The line the client writes for an address is read back as that address. */
  lemma AddressLineRoundTrip(keyword: string, t: string)
    requires t != "" && '>' !in t
    ensures ParseAddressMessage(keyword, keyword + t + ADDRESS_END) == Some(t)
  {
    var s := keyword + t + ADDRESS_END;
    assert s[..|keyword|] == keyword;
    assert s[|keyword|..|s| - 3] == t;
    assert s[|s| - 3..] == ADDRESS_END;
  }

  lemma MailLine(t: string)
    requires t != "" && '>' !in t
    ensures VerbOf(MAIL_KEYWORD + t + ADDRESS_END) == Some(MAIL)
    ensures ParseAddressMessage(MAIL_KEYWORD, MAIL_KEYWORD + t + ADDRESS_END) == Some(t)
  {
    AddressLineRoundTrip(MAIL_KEYWORD, t);
    assert MAIL_KEYWORD + t + ADDRESS_END == "MAIL" + (" FROM:<" + t + ADDRESS_END);
    VerbOfLine("MAIL", " FROM:<" + t + ADDRESS_END);
  }

  lemma RcptLine(t: string)
    requires t != "" && '>' !in t
    ensures VerbOf(RCPT_KEYWORD + t + ADDRESS_END) == Some(RCPT)
    ensures ParseAddressMessage(RCPT_KEYWORD, RCPT_KEYWORD + t + ADDRESS_END) == Some(t)
  {
    AddressLineRoundTrip(RCPT_KEYWORD, t);
    assert RCPT_KEYWORD + t + ADDRESS_END == "RCPT" + (" TO:<" + t + ADDRESS_END);
    VerbOfLine("RCPT", " TO:<" + t + ADDRESS_END);
  }

  lemma EhloLineVerb(name: string)
    ensures VerbOf("EHLO " + name + CRLF) == Some(EHLO)
  {
    assert "EHLO " + name + CRLF == "EHLO" + (" " + name + CRLF);
    VerbOfLine("EHLO", " " + name + CRLF);
  }

  lemma DataLineVerb()
    ensures VerbOf("DATA" + CRLF) == Some(DATA)
  {
    VerbOfBareLine("DATA");
  }

  lemma QuitLineVerb()
    ensures VerbOf("QUIT" + CRLF) == Some(QUIT)
  {
    VerbOfBareLine("QUIT");
  }
}
