/** The outgoing queue (src/queue.rs): a stack of mails with their recipients grouped by domain. */
module OutgoingQueue {
  import opened Wrappers
  import opened Text
  import opened Addresses
  import opened Delivery
  import opened MxHosts
  import C = Client

  datatype RemoteDeliveryError =
    | NoSmtpHostFound(cause: ClientError)
    | IoError
    | SmtpError(text: string)
    | Timeout

  function RemoteError(e: ClientError): RemoteDeliveryError {
    match e
    case NoSmtpHostError => NoSmtpHostFound(e)
    case DnsLookupError(_) => NoSmtpHostFound(e)
    case IoError => RemoteDeliveryError.IoError
    case SmtpError(text) => RemoteDeliveryError.SmtpError(text)
    case Timeout => RemoteDeliveryError.Timeout
  }

  datatype Entry = Entry(envelope: Envelope, rcptGroups: seq<seq<MailAddress>>)
  /** One call of `SmtpClient::deliver`. */
  datatype Attempt = Attempt(envelope: Envelope, recipients: seq<MailAddress>)

  predicate GoodEntry(e: Entry) {
    e.rcptGroups != [] && WellGrouped(e.rcptGroups)
  }

  /** The entry `Queue::add` makes of its arguments, in some key order. */
  ghost predicate EntryFor(e: Entry, q: QueueAdd) {
    e.envelope == q.envelope && Enumerates(e.rcptGroups, q.groups)
  }

  lemma DrainedIsGood(envelope: Envelope, groups: seq<seq<MailAddress>>, m: Multimap, order: seq<string>)
    requires Grouped(m) && m != map[] && Distinct(order) && |order| == |groups|
    requires forall d :: d in order <==> d in m
    requires forall i | 0 <= i < |order| :: groups[i] == m[order[i]]
    ensures GoodEntry(Entry(envelope, groups)) && EntryFor(Entry(envelope, groups), QueueAdd(envelope, m))
  {
    assert InOrder(groups, m, order);
    EnumeratedIsWellGrouped(groups, m);
  }

  function AttemptsOf(e: Entry): (r: seq<Attempt>)
    ensures |r| == |e.rcptGroups|
    ensures forall i | 0 <= i < |r| :: r[i] == Attempt(e.envelope, e.rcptGroups[i])
  {
    seq(|e.rcptGroups|, i requires 0 <= i < |e.rcptGroups| => Attempt(e.envelope, e.rcptGroups[i]))
  }

  /** How the delivery to the i-th group of an entry ends. */
  ghost function GroupResult<P>(nets: nat -> C.Network<P>, hostname: string, e: Entry, i: nat)
    : Result<(), RemoteDeliveryError>
    requires GoodEntry(e) && i < |e.rcptGroups|
  {
    assert e.rcptGroups[i] in e.rcptGroups;
    var r := C.DeliveryResult(nets(i), hostname, e.envelope, e.rcptGroups[i]);
    if r.Failure? then Failure(RemoteError(r.error)) else Success(())
  }

  ghost function Results<P>(nets: nat -> C.Network<P>, hostname: string, e: Entry)
    : (r: seq<Result<(), RemoteDeliveryError>>)
    requires GoodEntry(e)
    ensures |r| == |e.rcptGroups|
  {
    seq(|e.rcptGroups|, i requires 0 <= i < |e.rcptGroups| => GroupResult(nets, hostname, e, i))
  }

  /** Those results that are errors, in order. */
  function Errors(results: seq<Result<(), RemoteDeliveryError>>): seq<RemoteDeliveryError> {
    if results == [] then []
    else
      var last := results[|results| - 1];
      Errors(results[..|results| - 1]) + if last.Failure? then [last.error] else []
  }

  lemma ErrorsNext(results: seq<Result<(), RemoteDeliveryError>>, i: nat)
    requires i < |results|
    ensures Errors(results[..i + 1]) == Errors(results[..i]) + if results[i].Failure? then [results[i].error] else []
  {
    assert results[..i + 1][..i] == results[..i];
  }

  lemma AttemptedNext(before: seq<Attempt>, ts: seq<Attempt>, i: nat)
    requires i < |ts|
    ensures (before + ts[..i]) + [ts[i]] == before + ts[..i + 1]
  {
  }

  class Queue {
    /** The name this server has in its configuration. */
    const hostname: string
    var entries: seq<Entry>
    /** Every delivery handed to the SMTP client so far. */
    ghost var attempts: seq<Attempt>

    ghost predicate Valid()
      reads this
    {
      forall e | e in entries :: GoodEntry(e)
    }

    ghost function View(): History
      reads this
    {
      History(entries, attempts)
    }

    constructor (hostname: string)
      ensures Valid() && View() == Empty() && this.hostname == hostname
    {
      this.hostname := hostname;
      entries := [];
      attempts := [];
    }

    /** `Queue::add`.  The keys of the multimap come out in no particular order. */
    method Add(envelope: Envelope, recipients: Multimap)
      requires Valid() && Grouped(recipients)
      modifies this
      ensures Valid()
      ensures recipients == map[] ==> View() == old(View())
      ensures recipients != map[] ==>
                && |entries| == |old(entries)| + 1
                && EntryFor(entries[|entries| - 1], QueueAdd(envelope, recipients))
                && View() == Do(old(View()), AddOp(entries[|entries| - 1]))
    {
      if recipients == map[] {
        return;
      }
      var rcptGroups := Groups(envelope, recipients);
      entries := entries + [Entry(envelope, rcptGroups)];
    }

    /** The groups of an entry: the buckets of the multimap. */
    static method Groups(ghost envelope: Envelope, recipients: Multimap) returns (rcptGroups: seq<seq<MailAddress>>)
      requires Grouped(recipients) && recipients != map[]
      ensures GoodEntry(Entry(envelope, rcptGroups))
      ensures EntryFor(Entry(envelope, rcptGroups), QueueAdd(envelope, recipients))
    {
      var domains := Keys(recipients);
      rcptGroups := Drain(recipients, domains);
      DrainedIsGood(envelope, rcptGroups, recipients, domains);
    }

    /** Removes the buckets one key after the other. */
    static method Drain(recipients: Multimap, domains: seq<string>) returns (rcptGroups: seq<seq<MailAddress>>)
      requires Distinct(domains) && forall d | d in domains :: d in recipients
      ensures |rcptGroups| == |domains|
      ensures forall k | 0 <= k < |domains| :: rcptGroups[k] == recipients[domains[k]]
    {
      rcptGroups := [];
      var remaining := recipients;
      for i := 0 to |domains|
        invariant |rcptGroups| == i
        invariant forall k | 0 <= k < i :: rcptGroups[k] == recipients[domains[k]]
        invariant forall k | i <= k < |domains| ::
                    domains[k] in remaining && remaining[domains[k]] == recipients[domains[k]]
      {
        rcptGroups := rcptGroups + [remaining[domains[i]]];
        remaining := remaining - {domains[i]};
      }
    }

    static method Keys(m: Multimap) returns (domains: seq<string>)
      ensures Distinct(domains)
      ensures forall d :: d in domains <==> d in m
    {
      domains := [];
      var keys := m.Keys;
      while keys != {}
        invariant Distinct(domains)
        invariant forall d :: d in m <==> d in domains || d in keys
        invariant forall d | d in domains :: d !in keys
        decreases |keys|
      {
        var d :| d in keys;
        keys := keys - {d};
        domains := domains + [d];
      }
    }

    /** `Queue::fire`: `nets(i)` is the net as it is when the i-th group is delivered. */
    method Fire<P>(nets: nat -> C.Network<P>) returns (errors: seq<RemoteDeliveryError>)
      requires Valid()
      modifies this
      ensures Valid()
      ensures View() == Do(old(View()), FireOp)
      ensures forall e | e in old(entries) :: GoodEntry(e)
      ensures errors == if old(entries) == [] then []
                        else var e := old(entries)[|old(entries)| - 1];
                             Errors(Results(nets, hostname, e))
    {
      errors := [];
      if entries == [] {
        return;
      }
      var entry := entries[|entries| - 1];
      assert GoodEntry(entry);
      entries := entries[..|entries| - 1];
      errors := DeliverAll(entry, nets);
    }

    /** The loop of `Queue::fire`. */
    method DeliverAll<P>(entry: Entry, nets: nat -> C.Network<P>) returns (errors: seq<RemoteDeliveryError>)
      requires GoodEntry(entry)
      modifies this`attempts
      ensures attempts == old(attempts) + AttemptsOf(entry)
      ensures errors == Errors(Results(nets, hostname, entry))
    {
      errors := [];
      ghost var ts, results := AttemptsOf(entry), Results(nets, hostname, entry);
      for i := 0 to |entry.rcptGroups|
        invariant attempts == old(attempts) + ts[..i]
        invariant errors == Errors(results[..i])
      {
        AttemptedNext(old(attempts), ts, i);
        ErrorsNext(results, i);
        var r := DeliverGroup(entry, i, nets);
        match r {
          case Success(_) =>
          case Failure(err) => errors := errors + [err];
        }
      }
      assert ts[..|ts|] == ts && results[..|results|] == results;
    }

    /** One turn of that loop. */
    method DeliverGroup<P>(entry: Entry, i: nat, nets: nat -> C.Network<P>)
      returns (r: Result<(), RemoteDeliveryError>)
      requires GoodEntry(entry) && i < |entry.rcptGroups|
      modifies this`attempts
      ensures attempts == old(attempts) + [AttemptsOf(entry)[i]]
      ensures r == Results(nets, hostname, entry)[i]
    {
      assert entry.rcptGroups[i] in entry.rcptGroups;
      r := Deliver(entry.envelope, entry.rcptGroups[i], nets(i));
    }

    /** `Queue::deliver`: the client takes the domain of the first recipient for that of the whole group. */
    method Deliver<P>(envelope: Envelope, recipients: seq<MailAddress>, net: C.Network<P>)
      returns (r: Result<(), RemoteDeliveryError>)
      requires recipients != [] && forall a | a in recipients :: a.domain == recipients[0].domain
      modifies this`attempts
      ensures attempts == old(attempts) + [Attempt(envelope, recipients)]
      ensures var d := C.DeliveryResult(net, hostname, envelope, recipients);
              r == if d.Failure? then Failure(RemoteError(d.error)) else Success(())
    {
      attempts := attempts + [Attempt(envelope, recipients)];
      var d := C.Deliver(net, hostname, envelope, recipients);
      r := if d.Failure? then Failure(RemoteError(d.error)) else Success(());
    }
  }

  // ---------- histories ----------

  datatype History = History(entries: seq<Entry>, attempts: seq<Attempt>)
  datatype Op = AddOp(entry: Entry) | FireOp

  function Empty(): History { History([], []) }

  /** From `before` to `after` the queue got exactly the mails `adds`, in order, each in some key order. */
  ghost predicate Grew(before: History, after: History, adds: seq<QueueAdd>) {
    && after.attempts == before.attempts
    && before.entries <= after.entries
    && |after.entries| == |before.entries| + |adds|
    && forall k | 0 <= k < |adds| :: EntryFor(after.entries[|before.entries| + k], adds[k])
  }

  lemma GrewMore(a: History, b: History, c: History, adds: seq<QueueAdd>, more: seq<QueueAdd>)
    requires Grew(a, b, adds) && Grew(b, c, more)
    ensures Grew(a, c, adds + more)
  {
    forall k | 0 <= k < |adds + more|
      ensures EntryFor(c.entries[|a.entries| + k], (adds + more)[k])
    {
      if k < |adds| {
        assert c.entries[|a.entries| + k] == b.entries[|a.entries| + k];
      } else {
        assert c.entries[|a.entries| + k] == c.entries[|b.entries| + (k - |adds|)];
      }
    }
  }

  function Do(h: History, op: Op): History {
    match op
    case AddOp(e) => h.(entries := h.entries + [e])
    case FireOp =>
      if h.entries == [] then h
      else
        var last := |h.entries| - 1;
        History(h.entries[..last], h.attempts + AttemptsOf(h.entries[last]))
  }

  function DoAll(h: History, ops: seq<Op>): History
    decreases |ops|
  {
    if ops == [] then h else DoAll(Do(h, ops[0]), ops[1..])
  }

  lemma {:induction false} DoAllConcat(h: History, a: seq<Op>, b: seq<Op>)
    ensures DoAll(h, a + b) == DoAll(DoAll(h, a), b)
    decreases |a|
  {
    if a == [] {
      assert a + b == b;
    } else {
      assert (a + b)[1..] == a[1..] + b;
      DoAllConcat(Do(h, a[0]), a[1..], b);
    }
  }

  function AddOps(es: seq<Entry>): (r: seq<Op>)
    ensures |r| == |es|
  {
    seq(|es|, i requires 0 <= i < |es| => AddOp(es[i]))
  }

  lemma {:induction false} DoAdds(h: History, es: seq<Entry>)
    ensures DoAll(h, AddOps(es)) == History(h.entries + es, h.attempts)
    decreases |es|
  {
    if es == [] {
      assert h.entries + [] == h.entries;
    } else {
      assert AddOps(es)[1..] == AddOps(es[1..]);
      DoAdds(Do(h, AddOp(es[0])), es[1..]);
      assert h.entries + [es[0]] + es[1..] == h.entries + es;
    }
  }

  function AllAttempts(es: seq<Entry>): seq<Attempt> {
    if es == [] then [] else AllAttempts(es[..|es| - 1]) + AttemptsOf(es[|es| - 1])
  }

  function Added(ops: seq<Op>): seq<Entry> {
    if ops == [] then []
    else (if ops[0].AddOp? then [ops[0].entry] else []) + Added(ops[1..])
  }

  lemma {:induction false} AllAttemptsConcat(a: seq<Entry>, b: seq<Entry>)
    ensures AllAttempts(a + b) == AllAttempts(a) + AllAttempts(b)
  {
    if b == [] {
      assert a + b == a;
    } else {
      var init, last := b[..|b| - 1], b[|b| - 1];
      AllAttemptsConcat(a, init);
      assert (a + b)[..|a + b| - 1] == a + init;
      Assoc(AllAttempts(a), AllAttempts(init), AttemptsOf(last));
    }
  }

  /** All attempts to come of entries, in any order. */
  function Pending(es: seq<Entry>): multiset<Attempt> {
    multiset(AllAttempts(es))
  }

  lemma PendingConcat(a: seq<Entry>, b: seq<Entry>)
    ensures Pending(a + b) == Pending(a) + Pending(b)
  {
    AllAttemptsConcat(a, b);
  }

  lemma PendingOne(e: Entry)
    ensures Pending([e]) == multiset(AttemptsOf(e))
  {
    assert AllAttempts([e]) == AttemptsOf(e) by {
      assert [e][..0] == [];
    }
  }

  /** What one operation adds, attempts and leaves. */
  lemma DoConserves(h: History, op: Op)
    ensures var g := Do(h, op);
            multiset(h.attempts) + Pending(h.entries) + Pending(if op.AddOp? then [op.entry] else [])
            == multiset(g.attempts) + Pending(g.entries)
  {
    match op
    case AddOp(e) => PendingConcat(h.entries, [e]);
    case FireOp =>
      if h.entries != [] {
        var init, last := h.entries[..|h.entries| - 1], h.entries[|h.entries| - 1];
        assert h.entries == init + [last];
        PendingConcat(init, [last]);
        PendingOne(last);
      }
  }

  /** Every group added was attempted exactly once or is still pending. */
  lemma {:induction false} QueueConserves(h: History, ops: seq<Op>)
    ensures var g := DoAll(h, ops);
            multiset(h.attempts) + Pending(h.entries) + Pending(Added(ops)) == multiset(g.attempts) + Pending(g.entries)
    decreases |ops|
  {
    if ops != [] {
      DoConserves(h, ops[0]);
      QueueConserves(Do(h, ops[0]), ops[1..]);
      PendingConcat(if ops[0].AddOp? then [ops[0].entry] else [], Added(ops[1..]));
    }
  }

  /** The queue's length over `ops`, starting from `n`, if it never has nothing to pop. */
  function Height(n: nat, ops: seq<Op>): Option<nat>
    decreases |ops|
  {
    if ops == [] then Some(n)
    else match ops[0]
      case AddOp(_) => Height(n + 1, ops[1..])
      case FireOp => if n == 0 then None else Height(n - 1, ops[1..])
  }

  lemma {:induction false} BaseUntouched(base: seq<Entry>, h: History, ops: seq<Op>)
    requires base <= h.entries && Height(|h.entries| - |base|, ops).Some?
    ensures base <= DoAll(h, ops).entries
    ensures |DoAll(h, ops).entries| == |base| + Height(|h.entries| - |base|, ops).value
    decreases |ops|
  {
    if ops != [] {
      BaseUntouched(base, Do(h, ops[0]), ops[1..]);
    }
  }

  /**
   Last in, first out: an entry added before any stretch of operations that pops only what it added itself
   is the one the next `fire` hands out, whole, and the queue is then as it was before the entry came.
   */
  lemma LastInFirstOut(h: History, e: Entry, mid: seq<Op>)
    requires Height(0, mid) == Some(0)
    ensures var before := DoAll(Do(h, AddOp(e)), mid);
            Do(before, FireOp) == History(h.entries, before.attempts + AttemptsOf(e))
  {
    var base := h.entries + [e];
    BaseUntouched(base, Do(h, AddOp(e)), mid);
    assert base[..|h.entries|] == h.entries;
  }
}
