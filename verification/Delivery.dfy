/**
 How a finished mail is divided between local mailboxes and the outgoing queue
 (`DataState::deliver_mail` and `deliver_local_mail` of src/smtp/server.rs), stated on values.
 */
module Delivery {
  import opened Wrappers
  import opened Text
  import opened Addresses

  /** The `multimap` crate: no key is bound to an empty sequence. */
  type Multimap = map<string, seq<MailAddress>>

  datatype MailboxDeliveryError = NoSuchUser(address: string) | MailboxIO
  /** One mail written to one mailbox. */
  datatype Stored = Stored(envelope: Envelope, recipient: MailAddress, home: string)
  /** One call of `Queue::add`. */
  datatype QueueAdd = QueueAdd(envelope: Envelope, groups: Multimap)

  // ---------- dividing recipients ----------

  function Filter(rs: seq<MailAddress>, p: MailAddress -> bool): seq<MailAddress> {
    if rs == [] then []
    else Filter(rs[..|rs| - 1], p) + if p(rs[|rs| - 1]) then [rs[|rs| - 1]] else []
  }

  function IsLocal(): MailAddress -> bool { (a: MailAddress) => a.isLocalResponsibility }
  function IsRemote(): MailAddress -> bool { (a: MailAddress) => !a.isLocalResponsibility }
  function Has(domain: string): MailAddress -> bool { (a: MailAddress) => a.domain == domain }
  function Lacks(domain: string): MailAddress -> bool { (a: MailAddress) => a.domain != domain }

  function LocalOf(rs: seq<MailAddress>): seq<MailAddress> { Filter(rs, IsLocal()) }
  function RemoteOf(rs: seq<MailAddress>): seq<MailAddress> { Filter(rs, IsRemote()) }

  function Domains(rs: seq<MailAddress>): set<string> {
    set a | a in rs :: a.domain
  }

  /** Recipients grouped by domain, each group in the order of `rs`. */
  function GroupByDomain(rs: seq<MailAddress>): Multimap {
    map d | d in Domains(rs) :: Filter(rs, Has(d))
  }

  /** `MultiMap::insert`. */
  function Insert(m: Multimap, domain: string, a: MailAddress): Multimap {
    m[domain := (if domain in m then m[domain] else []) + [a]]
  }

  /** What the queue expects of a grouping: no empty group, and every member in the domain of its key. */
  predicate Grouped(m: Multimap) {
    forall d | d in m :: m[d] != [] && forall a | a in m[d] :: a.domain == d
  }

  lemma FilterSnoc(rs: seq<MailAddress>, a: MailAddress, p: MailAddress -> bool)
    ensures Filter(rs + [a], p) == Filter(rs, p) + if p(a) then [a] else []
  {
    assert (rs + [a])[..|rs|] == rs;
  }

  lemma {:induction false} FilterIn(rs: seq<MailAddress>, p: MailAddress -> bool)
    ensures forall a | a in Filter(rs, p) :: a in rs && p(a)
  {
    if rs != [] {
      FilterIn(rs[..|rs| - 1], p);
    }
  }

  lemma {:induction false} FilterKeeps(rs: seq<MailAddress>, p: MailAddress -> bool, a: MailAddress)
    requires a in rs && p(a)
    ensures a in Filter(rs, p)
  {
    var init := rs[..|rs| - 1];
    assert rs == init + [rs[|rs| - 1]];
    if a in init {
      FilterKeeps(init, p, a);
    }
  }

  lemma {:induction false} FilterNone(rs: seq<MailAddress>, p: MailAddress -> bool)
    requires forall a | a in rs :: !p(a)
    ensures Filter(rs, p) == []
  {
    if rs != [] {
      FilterNone(rs[..|rs| - 1], p);
    }
  }

  lemma GroupsAreGrouped(rs: seq<MailAddress>)
    ensures Grouped(GroupByDomain(rs))
  {
    forall d | d in Domains(rs)
      ensures Filter(rs, Has(d)) != []
    {
      var a :| a in rs && a.domain == d;
      FilterKeeps(rs, Has(d), a);
    }
    forall d
      ensures forall a | a in Filter(rs, Has(d)) :: a.domain == d && a in rs
    {
      FilterIn(rs, Has(d));
    }
  }

  /** Inserting one more recipient keeps the groups right. */
  lemma InsertGroups(rs: seq<MailAddress>, a: MailAddress)
    ensures Insert(GroupByDomain(rs), a.domain, a) == GroupByDomain(rs + [a])
  {
    var m, n := Insert(GroupByDomain(rs), a.domain, a), GroupByDomain(rs + [a]);
    DomainsSnoc(rs, a);
    forall d | d in n
      ensures m[d] == n[d]
    {
      GroupSnoc(rs, a, d);
    }
    assert m.Keys == n.Keys;
  }

  lemma DomainsSnoc(rs: seq<MailAddress>, a: MailAddress)
    ensures Domains(rs + [a]) == Domains(rs) + {a.domain}
  {
    assert forall b :: b in rs + [a] <==> b in rs || b == a;
  }

  lemma GroupSnoc(rs: seq<MailAddress>, a: MailAddress, d: string)
    ensures Filter(rs + [a], Has(d)) == Filter(rs, Has(d)) + if a.domain == d then [a] else []
    ensures d !in Domains(rs) ==> Filter(rs, Has(d)) == []
  {
    FilterSnoc(rs, a, Has(d));
    if d !in Domains(rs) {
      assert forall b | b in rs :: b.domain in Domains(rs);
      FilterNone(rs, Has(d));
    }
  }

  lemma NoGroups()
    ensures GroupByDomain([]) == map[]
  {
    assert Domains([]) == {};
  }

  /** One more recipient goes to the local list or to its group. */
  lemma PartitionStep(rs: seq<MailAddress>, a: MailAddress)
    ensures LocalOf(rs + [a]) == if a.isLocalResponsibility then LocalOf(rs) + [a] else LocalOf(rs)
    ensures GroupByDomain(RemoteOf(rs + [a]))
         == if a.isLocalResponsibility then GroupByDomain(RemoteOf(rs))
            else Insert(GroupByDomain(RemoteOf(rs)), a.domain, a)
  {
    FilterSnoc(rs, a, IsLocal());
    FilterSnoc(rs, a, IsRemote());
    if a.isLocalResponsibility {
      assert RemoteOf(rs) + [] == RemoteOf(rs);
    } else {
      assert LocalOf(rs) + [] == LocalOf(rs);
      InsertGroups(RemoteOf(rs), a);
    }
  }

  // ---------- conservation ----------

  predicate Distinct(ds: seq<string>) {
    forall i, j | 0 <= i < j < |ds| :: ds[i] != ds[j]
  }

  /** `groups` lists the buckets of `m` in some key order. */
  ghost predicate Enumerates(groups: seq<seq<MailAddress>>, m: Multimap) {
    exists order :: InOrder(groups, m, order)
  }

  ghost predicate InOrder(groups: seq<seq<MailAddress>>, m: Multimap, order: seq<string>) {
    && Distinct(order)
    && |order| == |groups|
    && (forall d :: d in order <==> d in m)
    && forall i | 0 <= i < |order| :: groups[i] == m[order[i]]
  }

  lemma {:induction false} FilterSplits(rs: seq<MailAddress>, p: MailAddress -> bool, q: MailAddress -> bool)
    requires forall a :: p(a) <==> !q(a)
    ensures multiset(rs) == multiset(Filter(rs, p)) + multiset(Filter(rs, q))
  {
    if rs != [] {
      var init, last := rs[..|rs| - 1], rs[|rs| - 1];
      FilterSplits(init, p, q);
      assert rs == init + [last];
      FilterSnoc(init, last, p);
      FilterSnoc(init, last, q);
      SplitSnoc(init, Filter(init, p), Filter(init, q), last, p(last));
    }
  }

  lemma SplitSnoc(s: seq<MailAddress>, t: seq<MailAddress>, u: seq<MailAddress>, a: MailAddress, toT: bool)
    requires multiset(s) == multiset(t) + multiset(u)
    ensures multiset(s + [a]) == multiset(t + if toT then [a] else []) + multiset(u + if toT then [] else [a])
  {
    if toT { assert u + [] == u; } else { assert t + [] == t; }
  }

  lemma {:induction false} FilterElsewhere(rs: seq<MailAddress>, d: string, e: string)
    requires d != e
    ensures Filter(Filter(rs, Lacks(d)), Has(e)) == Filter(rs, Has(e))
  {
    if rs != [] {
      var init, last := rs[..|rs| - 1], rs[|rs| - 1];
      FilterElsewhere(init, d, e);
      if last.domain != d {
        FilterSnoc(Filter(init, Lacks(d)), last, Has(e));
      } else {
        assert Filter(rs, Lacks(d)) == Filter(init, Lacks(d));
        assert Filter(rs, Has(e)) == Filter(init, Has(e));
      }
    }
  }

  lemma HeadIn<T>(s: seq<T>)
    ensures s == [] || s[0] in s
  {
  }

  /** Whatever the key order, the groups together are exactly the recipients. */
  lemma {:induction false} GroupsConserve(rs: seq<MailAddress>, groups: seq<seq<MailAddress>>, order: seq<string>)
    requires Distinct(order) && |order| == |groups|
    requires forall a | a in rs :: a.domain in order
    requires forall i | 0 <= i < |order| :: groups[i] == Filter(rs, Has(order[i]))
    ensures multiset(Flatten(groups)) == multiset(rs)
    decreases |order|
  {
    if order == [] {
      HeadIn(rs);
    } else {
      var d := order[0];
      var others := Filter(rs, Lacks(d));
      FilterIn(rs, Lacks(d));
      forall i | 1 <= i < |order|
        ensures groups[i] == Filter(others, Has(order[i]))
      {
        FilterElsewhere(rs, d, order[i]);
      }
      GroupsConserve(others, groups[1..], order[1..]);
      FilterSplits(rs, Has(d), Lacks(d));
    }
  }

  /** Every recipient goes to the local list or to exactly one group, and none is lost or doubled. */
  lemma DeliveryConservesRecipients(rs: seq<MailAddress>, groups: seq<seq<MailAddress>>)
    requires Enumerates(groups, GroupByDomain(RemoteOf(rs)))
    ensures multiset(rs) == multiset(LocalOf(rs)) + multiset(Flatten(groups))
  {
    var remote := RemoteOf(rs);
    var order :| InOrder(groups, GroupByDomain(remote), order);
    forall a | a in remote
      ensures a.domain in order
    {
      assert a.domain in GroupByDomain(remote);
    }
    GroupsConserve(remote, groups, order);
    FilterSplits(rs, IsLocal(), IsRemote());
  }

  /** Groups of one mail: non-empty, one domain each, no domain twice. */
  predicate WellGrouped(groups: seq<seq<MailAddress>>) {
    && (forall g: seq<MailAddress> | g in groups :: g != [] && forall a | a in g :: a.domain == g[0].domain)
    && (forall i, j | 0 <= i < j < |groups| ::
          groups[i] != [] && groups[j] != [] ==> groups[i][0].domain != groups[j][0].domain)
  }

  lemma EnumeratedIsWellGrouped(groups: seq<seq<MailAddress>>, m: Multimap)
    requires Grouped(m) && Enumerates(groups, m)
    ensures WellGrouped(groups)
    ensures groups == [] <==> m == map[]
    ensures forall g: seq<MailAddress> | g in groups :: g != [] && g[0].domain in m && m[g[0].domain] == g
  {
    var order :| InOrder(groups, m, order);
    forall i | 0 <= i < |groups|
      ensures order[i] in m && groups[i] != [] && groups[i][0].domain == order[i]
    {
      assert order[i] in order;
      assert groups[i][0] in groups[i];
    }
    OrderEmptyIff(order, m);
  }

  lemma OrderEmptyIff(order: seq<string>, m: Multimap)
    requires forall d :: d in order <==> d in m
    ensures order == [] <==> m == map[]
  {
    if order != [] {
      assert order[0] in m;
    } else {
      assert m.Keys == {};
    }
  }

  // ---------- local delivery ----------

  /** The first mailbox lookup that fails, or `n`. */
  function FirstMissing(home: nat -> Option<string>, n: nat): (k: nat)
    ensures k <= n
    ensures k < n ==> home(k).None?
    ensures forall i | 0 <= i < k :: home(i).Some?
  {
    if n == 0 then 0
    else
      var k := FirstMissing(home, n - 1);
      if k < n - 1 || home(n - 1).None? then k else n
  }

  /** The first store that fails, or `n`. */
  function FirstRefused(storeOk: nat -> bool, n: nat): (k: nat)
    ensures k <= n
    ensures k < n ==> !storeOk(k)
    ensures forall i | 0 <= i < k :: storeOk(i)
  {
    if n == 0 then 0
    else
      var k := FirstRefused(storeOk, n - 1);
      if k < n - 1 || !storeOk(n - 1) then k else n
  }

  function Stores(envelope: Envelope, rs: seq<MailAddress>, home: nat -> Option<string>, n: nat): (r: seq<Stored>)
    requires n <= |rs| && forall i | 0 <= i < n :: home(i).Some?
    ensures |r| == n
    ensures forall i | 0 <= i < n :: r[i] == Stored(envelope, rs[i], home(i).value)
  {
    if n == 0 then [] else Stores(envelope, rs, home, n - 1) + [Stored(envelope, rs[n - 1], home(n - 1).value)]
  }

  /**
   The outcome of `deliver_local_mail`: `home(i)` and `storeOk(i)` are the answers to the i-th mailbox
   lookup and the i-th store.
   */
  function DeliverLocal(envelope: Envelope, rs: seq<MailAddress>, home: nat -> Option<string>, storeOk: nat -> bool)
    : (seq<Stored>, Result<(), MailboxDeliveryError>)
  {
    var missing := FirstMissing(home, |rs|);
    if missing < |rs| then ([], Failure(NoSuchUser(rs[missing].address)))
    else
      var n := FirstRefused(storeOk, |rs|);
      (Stores(envelope, rs, home, n), if n == |rs| then Success(()) else Failure(MailboxIO))
  }

  datatype Handed = Handed(stored: seq<Stored>, queued: seq<QueueAdd>, result: Result<(), MailboxDeliveryError>)

  /** The outcome of `deliver_mail`. */
  function DeliverMail(envelope: Envelope, home: nat -> Option<string>, storeOk: nat -> bool): Handed {
    var local := LocalOf(envelope.recipients);
    var remote := GroupByDomain(RemoteOf(envelope.recipients));
    var queued := if remote == map[] then [] else [QueueAdd(envelope, remote)];
    if local == [] then Handed([], queued, Success(()))
    else
      var (stored, result) := DeliverLocal(envelope, local, home, storeOk);
      Handed(stored, queued, result)
  }

  /** Either nothing is stored, or a prefix of the local recipients in order, and Ok means all of them. */
  lemma LocalDeliveryIsPrefix(envelope: Envelope, home: nat -> Option<string>, storeOk: nat -> bool)
    ensures var h := DeliverMail(envelope, home, storeOk);
            var local := LocalOf(envelope.recipients);
            && (h.result.Success? <==> forall i | 0 <= i < |local| :: home(i).Some? && storeOk(i))
            && |h.stored| <= |local|
            && (forall i | 0 <= i < |h.stored| ::
                  home(i).Some? && storeOk(i) && h.stored[i] == Stored(envelope, local[i], home(i).value))
            && (h.result.Success? <==> |h.stored| == |local|)
            && ((exists i | 0 <= i < |local| :: home(i).None?) ==> h.stored == [])
  {
  }

  /** Where the prefix ends: at the first store that fails, once all lookups succeeded. */
  lemma LocalDeliveryStops(envelope: Envelope, home: nat -> Option<string>, storeOk: nat -> bool)
    ensures var h := DeliverMail(envelope, home, storeOk);
            var local := LocalOf(envelope.recipients);
            (forall i | 0 <= i < |local| :: home(i).Some?) ==>
              && (|h.stored| < |local| ==> !storeOk(|h.stored|))
              && (h.result == Failure(MailboxIO) <==> |h.stored| < |local|)
  {
    LocalDeliveryIsPrefix(envelope, home, storeOk);
  }

  lemma RemoteGroupsExist(rs: seq<MailAddress>)
    ensures GroupByDomain(RemoteOf(rs)) != map[] <==> exists a :: a in rs && !a.isLocalResponsibility
  {
    var m := GroupByDomain(RemoteOf(rs));
    if a :| a in rs && !a.isLocalResponsibility {
      FilterKeeps(rs, IsRemote(), a);
      assert a.domain in m;
    }
    if d :| d in m {
      var a :| a in RemoteOf(rs) && a.domain == d;
      FilterIn(rs, IsRemote());
    }
  }

  /** Only remote recipients of the mail are in its groups, each in the group of its domain. */
  predicate RemotePart(groups: Multimap, rs: seq<MailAddress>) {
    Grouped(groups) && forall d, a | d in groups && a in groups[d] :: a in rs && !a.isLocalResponsibility
  }

  /** The queue is given the mail exactly when some recipient is remote, whatever happens locally. */
  lemma QueuedIffRemote(envelope: Envelope, home: nat -> Option<string>, storeOk: nat -> bool)
    ensures var queued := DeliverMail(envelope, home, storeOk).queued;
            && |queued| <= 1
            && (queued != [] <==> exists a :: a in envelope.recipients && !a.isLocalResponsibility)
            && forall q | q in queued :: q.envelope == envelope && RemotePart(q.groups, envelope.recipients)
  {
    RemoteGroupsExist(envelope.recipients);
    var remote := RemoteOf(envelope.recipients);
    GroupsAreGrouped(remote);
    FilterIn(envelope.recipients, IsRemote());
    forall d
      ensures forall a | a in Filter(remote, Has(d)) :: a in remote
    {
      FilterIn(remote, Has(d));
    }
  }
}
