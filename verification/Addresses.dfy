/** Mail addresses and envelopes (src/smtp/envelope.rs). */
module Addresses {
  import opened Wrappers
  import opened Text

  datatype MailAddress = MailAddress(
    address: string,
    localPart: string,
    domain: string,
    isLocalMailbox: Option<bool>,
    isLocalResponsibility: bool)

  datatype Envelope = Envelope(sender: MailAddress, recipients: seq<MailAddress>, body: string)

  /** `MailAddress::new`. */
  function NewAddress(s: string, hostname: string): Option<MailAddress> {
    var parts := Split(s, "@");
    if |parts| == 2 then Some(MailAddress(s, parts[0], parts[1], None, hostname == parts[1])) else None
  }

  /**
   `MailAddress::cached_is_local`: the address with its cache filled, and the verdict. `answer` is what the
   user database would say if it were asked now.
   */
  function CachedIsLocal(a: MailAddress, answer: bool): (MailAddress, bool) {
    match a.isLocalMailbox
    case Some(cached) => (a, cached)
    case None => (a.(isLocalMailbox := Some(answer)), answer)
  }

  function AddressTexts(rs: seq<MailAddress>): (r: seq<string>)
    ensures |r| == |rs|
  {
    seq(|rs|, i requires 0 <= i < |rs| => rs[i].address)
  }

  lemma {:induction false} PartsCountSeparators(s: string)
    ensures |Split(s, "@")| == multiset(s)['@'] + 1
  {
    if s != "" {
      PartsCountSeparators(s[1..]);
      assert s == [s[0]] + s[1..];
    }
  }

  lemma {:induction false} PartsLackSeparator(s: string)
    ensures forall k | 0 <= k < |Split(s, "@")| :: '@' !in Split(s, "@")[k]
  {
    if s != "" {
      PartsLackSeparator(s[1..]);
    }
  }

  /** A string is a mail address exactly when it holds one `@`, and then it is its two parts around it. */
  lemma AddressHasOneAt(s: string, hostname: string)
    ensures NewAddress(s, hostname).Some? <==> multiset(s)['@'] == 1
    ensures var r := NewAddress(s, hostname);
            r.Some? ==> && r.value.address == s == r.value.localPart + "@" + r.value.domain
                        && '@' !in r.value.localPart && '@' !in r.value.domain
                        && (r.value.isLocalResponsibility <==> r.value.domain == hostname)
  {
    PartsCountSeparators(s);
    PartsLackSeparator(s);
    JoinSplit(s, "@");
  }
}
