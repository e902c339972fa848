/**
 The accept loop of src/main.rs around sessions and queue: connections are served one after the other on the
 shared queue, which is fired once after each connection that ended without an I/O error.
 */
module Process {
  import opened Text
  import opened Sasl
  import opened Delivery
  import opened OutgoingQueue
  import opened Protocol
  import opened RelaySafety
  import opened Server
  import C = Client

  /**
   A visit of a client: whether it got the greeting, what it said, whether it left without an error, and the net as
   it is when the queue is fired then.
   */
  datatype Visit<!P> = Visit(greeted: bool, turns: seq<Turn>, closed: bool, nets: nat -> C.Network<P>)

  /** A client's session queued `q`, for a user it held at that moment. */
  ghost predicate FromSession<P>(hostname: string, visits: seq<Visit<P>>, q: QueueAdd) {
    exists c :: c in visits && c.greeted && QueuedInRun(hostname, c.turns, q)
  }

  /** The entry was made of a mail that one of the sessions queued. */
  ghost predicate EntryTraced<P>(hostname: string, visits: seq<Visit<P>>, e: Entry) {
    exists q :: FromSession(hostname, visits, q) && EntryFor(e, q)
  }

  ghost predicate AttemptTraced<P>(hostname: string, visits: seq<Visit<P>>, t: Attempt) {
    exists q :: FromSession(hostname, visits, q) && t.envelope == q.envelope
                && t.recipients != [] && t.recipients[0].domain in q.groups
                && t.recipients == q.groups[t.recipients[0].domain]
  }

  ghost predicate QueueTraced<P>(hostname: string, visits: seq<Visit<P>>, h: History) {
    && (forall e | e in h.entries :: EntryTraced(hostname, visits, e))
    && (forall t | t in h.attempts :: AttemptTraced(hostname, visits, t))
  }

  /** All mails the sessions of greeted clients handed to the queue, in order. */
  ghost function AllMails<P>(hostname: string, visits: seq<Visit<P>>): seq<QueueAdd> {
    if visits == [] then []
    else
      var n := |visits| - 1;
      AllMails(hostname, visits[..n]) + MailsOf(hostname, visits[n])
  }

  ghost function MailsOf<P>(hostname: string, c: Visit<P>): seq<QueueAdd> {
    if c.greeted then Run(Start(hostname), c.turns).0.queued else []
  }

  /** One entry was made of each mail, in order, each in some key order. */
  ghost predicate MadeOf(all: seq<Entry>, adds: seq<QueueAdd>) {
    |all| == |adds| && forall k | 0 <= k < |all| :: EntryFor(all[k], adds[k])
  }

  /** Every group of these entries was attempted exactly once or is still pending. */
  ghost predicate Conserved(h: History, all: seq<Entry>) {
    multiset(h.attempts) + Pending(h.entries) == Pending(all)
  }

  /** The connection came to its end without an I/O error. */
  ghost predicate EndedWell<P>(hostname: string, c: Visit<P>) {
    && c.greeted
    && match Run(Start(hostname), c.turns).1
       case Continue => c.closed
       case Stop => true
       case IoError => false
  }

  /** What a visit does to the queue: its mails are added in order, and if it ended well, the queue is fired once. */
  ghost predicate VisitOps<P>(hostname: string, c: Visit<P>, ops: seq<Op>) {
    exists es :: MadeOf(es, MailsOf(hostname, c)) && ops == AddOps(es) + if EndedWell(hostname, c) then [FireOp] else []
  }

  ghost predicate AllOps<P>(hostname: string, visits: seq<Visit<P>>, parts: seq<seq<Op>>) {
    |parts| == |visits| && forall i | 0 <= i < |visits| :: VisitOps(hostname, visits[i], parts[i])
  }

  /** How many entries the visits leave in the queue. */
  ghost function Backlog<P>(hostname: string, visits: seq<Visit<P>>): nat {
    if visits == [] then 0
    else
      var last := |visits| - 1;
      var n := Backlog(hostname, visits[..last]) + |MailsOf(hostname, visits[last])|;
      if EndedWell(hostname, visits[last]) && n > 0 then n - 1 else n
  }

  /**
   The accept loop over any sequence of clients, from an empty queue.  `parts` are the queue's operations, visit by
   visit: the mails of each session are added in order, and then the queue is fired once, exactly if the connection
   ended without an error.  So what is in the queue, and what it attempted to deliver, comes from the clients' mails,
   every group of every one of those mails was attempted exactly once or is still there, and the number of entries left
   is known.
   */
  method Serve<P>(hostname: string, queue: Queue, visits: seq<Visit<P>>) returns (ghost parts: seq<seq<Op>>)
    requires queue.Valid() && queue.View() == Empty()
    modifies queue
    ensures queue.Valid() && QueueTraced(hostname, visits, queue.View())
    ensures AllOps(hostname, visits, parts) && queue.View() == DoAll(Empty(), Flatten(parts))
    ensures var all := Added(Flatten(parts));
            MadeOf(all, AllMails(hostname, visits)) && Conserved(queue.View(), all)
    ensures |queue.entries| == Backlog(hostname, visits)
  {
    parts := [];
    for i := 0 to |visits|
      invariant queue.Valid() && QueueTraced(hostname, visits, queue.View())
      invariant AllOps(hostname, visits[..i], parts) && queue.View() == DoAll(Empty(), Flatten(parts))
    {
      ghost var ops := ServeOne(hostname, queue, visits, i);
      OneMoreVisit(hostname, visits, i, parts, ops);
      parts := parts + [ops];
    }
    assert visits[..|visits|] == visits;
    OpsConserve(hostname, visits, parts);
    OpsLeave(hostname, visits, parts);
  }

  /** One connection, and the fire after it. */
  method ServeOne<P>(hostname: string, queue: Queue, visits: seq<Visit<P>>, i: nat) returns (ghost ops: seq<Op>)
    requires queue.Valid() && i < |visits| && QueueTraced(hostname, visits, queue.View())
    modifies queue
    ensures queue.Valid() && QueueTraced(hostname, visits, queue.View())
    ensures VisitOps(hostname, visits[i], ops) && queue.View() == DoAll(old(queue.View()), ops)
  {
    ops := [];
    if !visits[i].greeted {
      NoOps(hostname, visits[i]);
      return;
    }
    var server := new SmtpServer(hostname, queue);
    var ok;
    ghost var adds;
    ok, adds := server.SocketLoop(visits[i].turns, visits[i].closed);
    assert server.View().queued == Run(Start(hostname), visits[i].turns).0.queued == adds;
    SessionTraced(hostname, visits, visits[i], old(queue.View()), queue.View(), adds);
    ops := SessionOps(old(queue.View()), queue.View(), adds);
    if ok {
      FireTraced(hostname, visits, queue.View());
      DoAllConcat(old(queue.View()), ops, [FireOp]);
      assert DoAll(queue.View(), [FireOp]) == Do(queue.View(), FireOp);
      ops := ops + [FireOp];
      var _ := queue.Fire(visits[i].nets);
    } else {
      assert ops == ops + [];
    }
  }

  lemma NoOps<P>(hostname: string, c: Visit<P>)
    requires !c.greeted
    ensures VisitOps(hostname, c, [])
  {
    assert MadeOf([], MailsOf(hostname, c)) && [] == AddOps([]) + [];
  }

  /** The operations of a session that handed the mails `adds` to the queue. */
  lemma SessionOps(before: History, after: History, adds: seq<QueueAdd>) returns (ops: seq<Op>)
    requires Grew(before, after, adds)
    ensures DoAll(before, ops) == after
    ensures exists es :: MadeOf(es, adds) && ops == AddOps(es)
  {
    var more := after.entries[|before.entries|..];
    assert after.entries == before.entries + more;
    NewEntriesMade(before, after, adds);
    DoAdds(before, more);
    ops := AddOps(more);
  }

  lemma OneMoreVisit<P>(hostname: string, visits: seq<Visit<P>>, i: nat, parts: seq<seq<Op>>, ops: seq<Op>)
    requires i < |visits| && AllOps(hostname, visits[..i], parts) && VisitOps(hostname, visits[i], ops)
    ensures AllOps(hostname, visits[..i + 1], parts + [ops])
    ensures DoAll(Empty(), Flatten(parts + [ops])) == DoAll(DoAll(Empty(), Flatten(parts)), ops)
  {
    PartSnoc(parts, ops);
    forall k | 0 <= k < i + 1
      ensures VisitOps(hostname, visits[..i + 1][k], (parts + [ops])[k])
    {
      assert k < i ==> visits[..i + 1][k] == visits[..i][k];
    }
  }

  lemma PartSnoc(parts: seq<seq<Op>>, ops: seq<Op>)
    ensures DoAll(Empty(), Flatten(parts + [ops])) == DoAll(DoAll(Empty(), Flatten(parts)), ops)
  {
    FlattenSnoc(parts, ops);
    DoAllConcat(Empty(), Flatten(parts), ops);
  }

  lemma {:induction false} AddedConcat(a: seq<Op>, b: seq<Op>)
    ensures Added(a + b) == Added(a) + Added(b)
  {
    if a == [] {
      assert a + b == b;
    } else {
      AddedConcat(a[1..], b);
      var first: seq<Entry> := if a[0].AddOp? then [a[0].entry] else [];
      assert (a + b)[0] == a[0] && (a + b)[1..] == a[1..] + b;
      assert Added(a + b) == first + Added(a[1..] + b) && Added(a) == first + Added(a[1..]);
      Assoc(first, Added(a[1..]), Added(b));
    }
  }

  lemma {:induction false} AddedIs(es: seq<Entry>)
    ensures Added(AddOps(es)) == es
  {
    if es != [] {
      assert AddOps(es)[1..] == AddOps(es[1..]);
      AddedIs(es[1..]);
    }
  }

  /** The operations of one visit: what they add, and how many entries they leave. */
  lemma VisitAdds<P>(hostname: string, c: Visit<P>, ops: seq<Op>, h: History)
    requires VisitOps(hostname, c, ops)
    ensures MadeOf(Added(ops), MailsOf(hostname, c))
    ensures var n := |h.entries| + |MailsOf(hostname, c)|;
            |DoAll(h, ops).entries| == if EndedWell(hostname, c) && n > 0 then n - 1 else n
  {
    var es :| MadeOf(es, MailsOf(hostname, c)) && ops == AddOps(es) + if EndedWell(hostname, c) then [FireOp] else [];
    var fires := if EndedWell(hostname, c) then [FireOp] else [];
    AddedIs(es);
    AddedConcat(AddOps(es), fires);
    assert Added(fires) == [] && es + [] == es;
    DoAdds(h, es);
    DoAllConcat(h, AddOps(es), fires);
    assert DoAll(History(h.entries + es, h.attempts), fires)
        == if fires == [] then History(h.entries + es, h.attempts) else Do(History(h.entries + es, h.attempts), FireOp);
  }

  lemma LastPart(parts: seq<seq<Op>>)
    requires parts != []
    ensures var n := |parts| - 1;
            && Added(Flatten(parts)) == Added(Flatten(parts[..n])) + Added(parts[n])
            && DoAll(Empty(), Flatten(parts)) == DoAll(DoAll(Empty(), Flatten(parts[..n])), parts[n])
  {
    var n := |parts| - 1;
    assert parts == parts[..n] + [parts[n]];
    FlattenSnoc(parts[..n], parts[n]);
    AddedConcat(Flatten(parts[..n]), parts[n]);
    DoAllConcat(Empty(), Flatten(parts[..n]), parts[n]);
  }

  lemma LastVisit<P>(hostname: string, visits: seq<Visit<P>>, parts: seq<seq<Op>>)
    requires visits != [] && AllOps(hostname, visits, parts)
    ensures var n := |visits| - 1;
            AllOps(hostname, visits[..n], parts[..n]) && VisitOps(hostname, visits[n], parts[n])
  {
  }

  /** All operations together add one entry for each mail. */
  lemma {:induction false} OpsAdd<P>(hostname: string, visits: seq<Visit<P>>, parts: seq<seq<Op>>)
    requires AllOps(hostname, visits, parts)
    ensures MadeOf(Added(Flatten(parts)), AllMails(hostname, visits))
    decreases |visits|
  {
    if visits != [] {
      var n := |visits| - 1;
      LastVisit(hostname, visits, parts);
      LastPart(parts);
      OpsAdd(hostname, visits[..n], parts[..n]);
      VisitAdds(hostname, visits[n], parts[n], Empty());
      MadeOfMore(Added(Flatten(parts[..n])), AllMails(hostname, visits[..n]), Added(parts[n]),
                 MailsOf(hostname, visits[n]));
    }
  }

  lemma OpsConserve<P>(hostname: string, visits: seq<Visit<P>>, parts: seq<seq<Op>>)
    requires AllOps(hostname, visits, parts)
    ensures var all := Added(Flatten(parts));
            MadeOf(all, AllMails(hostname, visits)) && Conserved(DoAll(Empty(), Flatten(parts)), all)
  {
    OpsAdd(hostname, visits, parts);
    QueueConserves(Empty(), Flatten(parts));
  }

  lemma {:induction false} OpsLeave<P>(hostname: string, visits: seq<Visit<P>>, parts: seq<seq<Op>>)
    requires AllOps(hostname, visits, parts)
    ensures |DoAll(Empty(), Flatten(parts)).entries| == Backlog(hostname, visits)
    decreases |visits|
  {
    if visits != [] {
      var n := |visits| - 1;
      LastVisit(hostname, visits, parts);
      LastPart(parts);
      OpsLeave(hostname, visits[..n], parts[..n]);
      VisitAdds(hostname, visits[n], parts[n], DoAll(Empty(), Flatten(parts[..n])));
    }
  }

  lemma {:induction false} NoBacklog<P>(hostname: string, visits: seq<Visit<P>>)
    requires forall c | c in visits ::
               |MailsOf(hostname, c)| <= 1 && (MailsOf(hostname, c) != [] ==> EndedWell(hostname, c))
    ensures Backlog(hostname, visits) == 0
  {
    if visits != [] {
      assert visits[|visits| - 1] in visits;
      NoBacklog(hostname, visits[..|visits| - 1]);
    }
  }

  /**
   If every session queues at most one mail, and every connection that queued one ends without an error, then in the
   end the queue is empty, and every group of every mail was attempted exactly once.
   */
  lemma ServedAtOnce<P>(hostname: string, visits: seq<Visit<P>>, parts: seq<seq<Op>>)
    requires AllOps(hostname, visits, parts)
    requires forall c | c in visits ::
               |MailsOf(hostname, c)| <= 1 && (MailsOf(hostname, c) != [] ==> EndedWell(hostname, c))
    ensures var h := DoAll(Empty(), Flatten(parts));
            h.entries == [] && multiset(h.attempts) == Pending(Added(Flatten(parts)))
  {
    NoBacklog(hostname, visits);
    OpsLeave(hostname, visits, parts);
    OpsConserve(hostname, visits, parts);
  }

  lemma NewEntriesMade(before: History, after: History, adds: seq<QueueAdd>)
    requires Grew(before, after, adds)
    ensures MadeOf(after.entries[|before.entries|..], adds)
  {
    var more := after.entries[|before.entries|..];
    forall k | 0 <= k < |adds|
      ensures EntryFor(more[k], adds[k])
    {
      assert more[k] == after.entries[|before.entries| + k];
    }
  }

  lemma MadeOfMore(all: seq<Entry>, mails: seq<QueueAdd>, more: seq<Entry>, adds: seq<QueueAdd>)
    requires MadeOf(all, mails) && MadeOf(more, adds)
    ensures MadeOf(all + more, mails + adds)
  {
  }

  /** A mail among all mails has its entry, and that entry's groups are among all groups. */
  lemma MailHasEntry(all: seq<Entry>, adds: seq<QueueAdd>, q: QueueAdd) returns (e: Entry)
    requires MadeOf(all, adds) && q in adds
    ensures e in all && EntryFor(e, q)
  {
    var k :| 0 <= k < |adds| && adds[k] == q;
    e := all[k];
  }

  lemma {:induction false} EntryPending(all: seq<Entry>, e: Entry, t: Attempt)
    requires e in all && t in AttemptsOf(e)
    ensures t in Pending(all)
  {
    var n := |all| - 1;
    assert all == all[..n] + [all[n]];
    PendingConcat(all[..n], [all[n]]);
    PendingOne(all[n]);
    if e != all[n] {
      EntryPending(all[..n], e, t);
    }
  }

  lemma {:induction false} MailOfVisit<P>(hostname: string, visits: seq<Visit<P>>, c: Visit<P>, q: QueueAdd)
    requires c in visits && q in MailsOf(hostname, c)
    ensures q in AllMails(hostname, visits)
  {
    var n := |visits| - 1;
    if c != visits[n] {
      assert c in visits[..n];
      MailOfVisit(hostname, visits[..n], c, q);
    }
  }

  /** Each group of a mail some greeted client's session queued was attempted, or waits in the queue. */
  lemma GroupNotLost<P>(hostname: string, visits: seq<Visit<P>>, h: History, all: seq<Entry>, c: Visit<P>, q: QueueAdd,
                        domain: string)
    requires MadeOf(all, AllMails(hostname, visits)) && Conserved(h, all)
    requires c in visits && q in MailsOf(hostname, c) && domain in q.groups
    ensures var t := Attempt(q.envelope, q.groups[domain]);
            t in h.attempts || t in Pending(h.entries)
  {
    MailOfVisit(hostname, visits, c, q);
    var e := MailHasEntry(all, AllMails(hostname, visits), q);
    var order :| InOrder(e.rcptGroups, q.groups, order);
    var i :| 0 <= i < |order| && order[i] == domain;
    var t := Attempt(q.envelope, q.groups[domain]);
    assert AttemptsOf(e)[i] == t;
    EntryPending(all, e, t);
    assert t in multiset(h.attempts) + Pending(h.entries);
  }

  lemma SessionTraced<P>(hostname: string, visits: seq<Visit<P>>, c: Visit<P>, before: History, after: History,
                      adds: seq<QueueAdd>)
    requires c in visits && c.greeted && adds == Run(Start(hostname), c.turns).0.queued
    requires QueueTraced(hostname, visits, before) && Grew(before, after, adds)
    ensures QueueTraced(hostname, visits, after)
  {
    QueuedOnlyForUsers(hostname, c.turns);
    forall e | e in after.entries
      ensures EntryTraced(hostname, visits, e)
    {
      var i: nat :| i < |after.entries| && after.entries[i] == e;
      if i < |before.entries| {
        assert e == before.entries[i];
      } else {
        var q := adds[i - |before.entries|];
        assert q in adds;
        assert FromSession(hostname, visits, q);
        assert after.entries[|before.entries| + (i - |before.entries|)] == e;
      }
    }
  }

  lemma FireTraced<P>(hostname: string, visits: seq<Visit<P>>, h: History)
    requires QueueTraced(hostname, visits, h) && forall e | e in h.entries :: GoodEntry(e)
    ensures QueueTraced(hostname, visits, Do(h, FireOp))
  {
    if h.entries != [] {
      var last := h.entries[|h.entries| - 1];
      assert last in h.entries;
      forall t | t in AttemptsOf(last)
        ensures AttemptTraced(hostname, visits, t)
      {
        AttemptOfTraced(hostname, visits, last, t);
      }
    }
  }

  lemma AttemptOfTraced<P>(hostname: string, visits: seq<Visit<P>>, e: Entry, t: Attempt)
    requires EntryTraced(hostname, visits, e) && t in AttemptsOf(e)
    ensures AttemptTraced(hostname, visits, t)
  {
    var q :| FromSession(hostname, visits, q) && EntryFor(e, q);
    QueuedIsRight(hostname, visits, q);
    EnumeratedIsWellGrouped(e.rcptGroups, q.groups);
    var i :| 0 <= i < |AttemptsOf(e)| && AttemptsOf(e)[i] == t;
    assert e.rcptGroups[i] in e.rcptGroups;
  }

  lemma QueuedIsRight<P>(hostname: string, visits: seq<Visit<P>>, q: QueueAdd)
    requires FromSession(hostname, visits, q)
    ensures QueuedRightly(hostname, q)
  {
    var c :| c in visits && c.greeted && QueuedInRun(hostname, c.turns, q);
    var k: nat, u: User :| QueuedAt(hostname, c.turns, k, q, u);
    RunRelaySafe(Start(hostname), c.turns[..k]);
  }

  /** The attempt is for a whole group of the mail that turn `k` of the client queued for user `u`. */
  ghost predicate AttemptFor<P>(hostname: string, c: Visit<P>, k: nat, q: QueueAdd, u: User, t: Attempt) {
    && c.greeted && QueuedAt(hostname, c.turns, k, q, u)
    && t.envelope == q.envelope
    && t.recipients != [] && t.recipients[0].domain in q.groups
    && t.recipients == q.groups[t.recipients[0].domain]
  }

  /**
   Relay safety of the whole process: every delivery it ever attempts to another server, after any sequence of
   clients, is for recipients outside its own domain, all in one domain, of a mail that some client's session
   queued while it held an authorized user, whose password the database had accepted in that session; and a sender
   with a local mailbox is that user.
   */
  lemma AttemptsAreAuthorized<P>(hostname: string, visits: seq<Visit<P>>, h: History, t: Attempt)
    requires QueueTraced(hostname, visits, h) && t in h.attempts
    ensures t.recipients != []
    ensures forall r | r in t.recipients :: r.domain == t.recipients[0].domain != hostname && r in t.envelope.recipients
    ensures exists c, k: nat, q, u :: c in visits && AttemptFor(hostname, c, k, q, u, t)
  {
    assert AttemptTraced(hostname, visits, t);
    var q :| FromSession(hostname, visits, q) && t.envelope == q.envelope
             && t.recipients != [] && t.recipients[0].domain in q.groups
             && t.recipients == q.groups[t.recipients[0].domain];
    QueuedIsRight(hostname, visits, q);
    var c :| c in visits && c.greeted && QueuedInRun(hostname, c.turns, q);
    var k: nat, u: User :| QueuedAt(hostname, c.turns, k, q, u);
    assert AttemptFor(hostname, c, k, q, u, t);
  }
}
