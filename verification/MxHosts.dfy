/** Finding a mail exchanger (src/smtp/client.rs): the drain of the looked-up hosts by preference. */
module MxHosts {
  import opened Wrappers
  import opened Text

  /** An MX preference, 16 bits wide. */
  type Preference = x: nat | x < 0x1_0000
  /** The looked-up hosts by preference, each bucket in the order the shuffle left it. */
  type Buckets = map<Preference, seq<string>>

  predicate NoEmptyBucket(m: Buckets) {
    forall k | k in m :: m[k] != []
  }

  predicate IsLowest(m: Buckets, k: Preference) {
    k in m && forall j | j in m :: k <= j
  }

  ghost function Lowest(m: Buckets): (k: Preference)
    requires m != map[]
    ensures IsLowest(m, k)
  {
    LowestExists(m);
    var k :| IsLowest(m, k);
    k
  }

  lemma {:induction false} LowestExists(m: Buckets)
    requires m != map[]
    ensures exists k :: IsLowest(m, k)
    decreases |m|
  {
    var k :| k in m;
    var rest := m - {k};
    if rest == map[] {
      assert m.Keys == {k} by {
        assert rest.Keys == {};
      }
      assert IsLowest(m, k);
    } else {
      LowestExists(rest);
      var j :| IsLowest(rest, j);
      assert forall i | i in m :: i == k || i in rest;
      assert IsLowest(m, if k <= j then k else j);
    }
  }

  /** A bucket from its end to its start: `pop` takes the last host first. */
  function Backwards(k: Preference, bucket: seq<string>): (r: seq<(Preference, string)>)
    ensures |r| == |bucket|
    ensures forall i | 0 <= i < |r| :: r[i].0 == k
  {
    if bucket == [] then [] else [(k, bucket[|bucket| - 1])] + Backwards(k, bucket[..|bucket| - 1])
  }

  /** All hosts, bucket after bucket from the lowest preference up. */
  ghost function Order(m: Buckets): seq<(Preference, string)>
    decreases |m|
  {
    if m == map[] then []
    else
      var k := Lowest(m);
      RemovalShrinks(m, k);
      Backwards(k, m[k]) + Order(m - {k})
  }

  lemma RemovalShrinks(m: Buckets, k: Preference)
    requires k in m
    ensures |m - {k}| < |m|
  {
    assert (m - {k}).Keys == m.Keys - {k};
  }

  // ---------- pop ----------

  datatype DnsError = DnsError
  datatype ClientError = DnsLookupError(error: DnsError) | IoError | NoSmtpHostError | SmtpError(text: string) | Timeout

  /** A connection that was made: which attempt it was, to which host, and the name in the greeting. */
  datatype Connected = Connected(attempt: nat, host: string, greeting: string)

  /** What a lookup gives: no preference without a host. */
  type Lookup = m: Buckets | NoEmptyBucket(m) witness map[]

  /** The first of `n` attempts that succeeds, or `n`. */
  function FirstSuccess(connect: nat -> Option<string>, n: nat): (k: nat)
    ensures k <= n
    ensures k < n ==> connect(k).Some?
    ensures forall i | 0 <= i < k :: connect(i).None?
  {
    if n == 0 then 0
    else
      var k := FirstSuccess(connect, n - 1);
      if k < n - 1 || connect(n - 1).Some? then k else n
  }

  lemma {:induction false} FirstSuccessIs(connect: nat -> Option<string>, n: nat, k: nat)
    requires k <= n && (k < n ==> connect(k).Some?) && forall i | 0 <= i < k :: connect(i).None?
    ensures FirstSuccess(connect, n) == k
  {
    var first := FirstSuccess(connect, n);
    if k < n && first < n {
      assert !(first < k) && !(k < first);
    }
  }

  /**
   What the search for a host ends with: `lookup` is what DNS answers and `connect(i)` the outcome of the i-th
   connection attempt, the peer's greeting name if it succeeds.
   */
  ghost function Found(lookup: Result<Lookup, DnsError>, connect: nat -> Option<string>)
    : Result<Connected, ClientError>
  {
    match lookup
    case Failure(e) => Failure(DnsLookupError(e))
    case Success(m) =>
      var i := FirstSuccess(connect, |Order(m)|);
      if i < |Order(m)| then Success(Connected(i, Order(m)[i].1, connect(i).value)) else Failure(NoSmtpHostError)
  }

  class MxTable {
    var hosts: Buckets

    constructor (hosts: Buckets)
      ensures this.hosts == hosts
    {
      this.hosts := hosts;
    }

    /** `SmtpClient::pop_host`. */
    method PopHost() returns (host: Option<string>)
      requires NoEmptyBucket(hosts)
      modifies this
      ensures NoEmptyBucket(hosts)
      ensures host.None? <==> old(hosts) == map[]
      ensures host.None? ==> hosts == old(hosts)
      ensures host.Some? ==> Order(old(hosts)) == [(Lowest(old(hosts)), host.value)] + Order(hosts)
    {
      var prio: Option<Preference> := None;
      var keys := hosts.Keys;
      while keys != {}
        invariant keys <= hosts.Keys
        invariant prio.None? ==> keys == hosts.Keys
        invariant prio.Some? ==> prio.value in hosts && forall j | j in hosts && j !in keys :: prio.value <= j
        decreases |keys|
      {
        var key :| key in keys;
        keys := keys - {key};
        if prio.None? || key < prio.value {
          prio := Some(key);
        }
      }
      if prio.None? {
        return None;
      }
      var k := prio.value;
      ghost var before := hosts;
      assert IsLowest(before, k);
      var bucket := hosts[k];
      host := Some(bucket[|bucket| - 1]);
      hosts := hosts[k := bucket[..|bucket| - 1]];
      if hosts[k] == [] {
        hosts := hosts - {k};
      }
      PopOrder(before, k, hosts);
    }

    /** `SmtpClient::discover_connection`: the first host of the order that can be reached. */
    static method DiscoverConnection(lookup: Result<Lookup, DnsError>, connect: nat -> Option<string>)
      returns (r: Result<Connected, ClientError>)
      ensures r == Found(lookup, connect)
      ensures lookup.Failure? ==> r == Failure(DnsLookupError(lookup.error))
      ensures lookup.Success? ==>
                var order := Order(lookup.value);
                match r
                case Success(c) =>
                  && c.attempt < |order| && c.host == order[c.attempt].1 && connect(c.attempt) == Some(c.greeting)
                  && forall j | 0 <= j < c.attempt :: connect(j).None?
                case Failure(e) => e == NoSmtpHostError && forall j | 0 <= j < |order| :: connect(j).None?
    {
      if lookup.Failure? {
        return Failure(DnsLookupError(lookup.error));
      }
      var remote := new MxTable(lookup.value);
      var i := 0;
      ghost var order := Order(remote.hosts);
      while true
        invariant NoEmptyBucket(remote.hosts)
        invariant i <= |order| && Order(remote.hosts) == order[i..]
        invariant forall j | 0 <= j < i :: connect(j).None?
        decreases |order| - i
      {
        ghost var before := Order(remote.hosts);
        var host := remote.PopHost();
        if host.None? {
          FirstSuccessIs(connect, |order|, |order|);
          return Failure(NoSmtpHostError);
        }
        assert before[0] == order[i] && before[1..] == order[i + 1..] == Order(remote.hosts);
        match connect(i) {
          case Some(greeting) =>
            FirstSuccessIs(connect, |order|, i);
            return Success(Connected(i, host.value, greeting));
          case None => i := i + 1;
        }
      }
    }
  }

  lemma LowestIs(m: Buckets, k: Preference)
    requires IsLowest(m, k)
    ensures m != map[] && Lowest(m) == k
  {
  }

  lemma PopOrder(m: Buckets, k: Preference, n: Buckets)
    requires NoEmptyBucket(m) && IsLowest(m, k)
    requires n == if |m[k]| == 1 then m - {k} else m[k := m[k][..|m[k]| - 1]]
    ensures Order(m) == [(k, m[k][|m[k]| - 1])] + Order(n)
  {
    var b := m[k];
    OrderUnfolds(m, k);
    if |b| == 1 {
      assert Backwards(k, b) == [(k, b[0])] + Backwards(k, b[..0]);
    } else {
      assert IsLowest(n, k);
      OrderUnfolds(n, k);
      assert n - {k} == m - {k};
      Assoc([(k, b[|b| - 1])], Backwards(k, b[..|b| - 1]), Order(m - {k}));
    }
  }

  lemma OrderUnfolds(m: Buckets, k: Preference)
    requires IsLowest(m, k)
    ensures Order(m) == Backwards(k, m[k]) + Order(m - {k})
  {
    LowestIs(m, k);
  }

  // ---------- what the order is ----------

  lemma {:induction false} BackwardsCounts(k: Preference, bucket: seq<string>, j: Preference, host: string)
    ensures multiset(Backwards(k, bucket))[(j, host)] == if j == k then multiset(bucket)[host] else 0
  {
    if bucket != [] {
      var init := bucket[..|bucket| - 1];
      BackwardsCounts(k, init, j, host);
      assert bucket == init + [bucket[|bucket| - 1]];
      assert multiset(bucket) == multiset(init) + multiset{bucket[|bucket| - 1]};
      assert multiset(Backwards(k, bucket)) == multiset{(k, bucket[|bucket| - 1])} + multiset(Backwards(k, init));
    }
  }

  /** Every host is in the order as often as the lookup gave it, under its preference. */
  lemma {:induction false} OrderIsComplete(m: Buckets, j: Preference, host: string)
    ensures multiset(Order(m))[(j, host)] == if j in m then multiset(m[j])[host] else 0
    decreases |m|
  {
    if m != map[] {
      var k := Lowest(m);
      RemovalShrinks(m, k);
      OrderIsComplete(m - {k}, j, host);
      BackwardsCounts(k, m[k], j, host);
    }
  }

  lemma {:induction false} OrderInKeys(m: Buckets)
    ensures forall i | 0 <= i < |Order(m)| :: Order(m)[i].0 in m
    decreases |m|
  {
    if m != map[] {
      var k := Lowest(m);
      RemovalShrinks(m, k);
      OrderInKeys(m - {k});
    }
  }

  /** Lower preferences come first. */
  lemma {:induction false} OrderIsSorted(m: Buckets)
    ensures forall i, j | 0 <= i < j < |Order(m)| :: Order(m)[i].0 <= Order(m)[j].0
    decreases |m|
  {
    if m != map[] {
      var k := Lowest(m);
      RemovalShrinks(m, k);
      var head, tail := Backwards(k, m[k]), Order(m - {k});
      OrderIsSorted(m - {k});
      OrderInKeys(m - {k});
      assert Order(m) == head + tail;
      forall i, j | 0 <= i < j < |head + tail|
        ensures Order(m)[i].0 <= Order(m)[j].0
      {
        if i < |head| {
          assert Order(m)[i] == head[i];
        }
      }
    }
  }
}
