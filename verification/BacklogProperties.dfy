/** Conservation and order of forwarded events, over every run. */
module BacklogProperties {
  import opened Configuration
  import opened Broker
  import opened Forwarder
  import opened RunInduction

  // ---- Reading the histories ----

  /** What left the queue, in order. */
  function Bodies(departed: seq<Departure>): seq<string> {
    if departed == [] then [] else Bodies(departed[..|departed| - 1]) + [departed[|departed| - 1].body]
  }

  function PublishedOf(departed: seq<Departure>): seq<string> {
    if departed == [] then []
    else
      var last := departed[|departed| - 1];
      PublishedOf(departed[..|departed| - 1]) + (if last.Published? then [last.body] else [])
  }

  function EvictedOf(departed: seq<Departure>): seq<string> {
    if departed == [] then []
    else
      var last := departed[|departed| - 1];
      EvictedOf(departed[..|departed| - 1]) + (if last.Evicted? then [last.body] else [])
  }

  function BacklogOf(sent: seq<Sent>): seq<string> {
    if sent == [] then []
    else
      var last := sent[|sent| - 1];
      BacklogOf(sent[..|sent| - 1]) + (if last.Backlog? then [last.body] else [])
  }

  function DirectOf(sent: seq<Sent>): seq<string> {
    if sent == [] then []
    else
      var last := sent[|sent| - 1];
      DirectOf(sent[..|sent| - 1]) + (if last.Direct? then [last.body] else [])
  }

  function AllSent(sent: seq<Sent>): seq<string> {
    seq(|sent|, i requires 0 <= i < |sent| => sent[i].body)
  }

  lemma DepartedSnoc(departed: seq<Departure>, d: Departure)
    ensures Bodies(departed + [d]) == Bodies(departed) + [d.body]
    ensures PublishedOf(departed + [d]) == PublishedOf(departed) + (if d.Published? then [d.body] else [])
    ensures EvictedOf(departed + [d]) == EvictedOf(departed) + (if d.Evicted? then [d.body] else [])
  {
    assert (departed + [d])[..|departed|] == departed;
  }

  lemma SentSnoc(sent: seq<Sent>, m: Sent)
    ensures BacklogOf(sent + [m]) == BacklogOf(sent) + (if m.Backlog? then [m.body] else [])
    ensures DirectOf(sent + [m]) == DirectOf(sent) + (if m.Direct? then [m.body] else [])
    ensures m.Direct? ==> BacklogOf(sent + [m]) == BacklogOf(sent)
    ensures m.Backlog? ==> DirectOf(sent + [m]) == DirectOf(sent)
  {
    assert (sent + [m])[..|sent|] == sent;
  }

  // ---- Three properties that every step keeps ----

  /** Everything pushed either left from the head, in order, or is still there, in order; what was
      published from the queue is exactly what left it that way. */
  ghost predicate Ordered(sent: seq<Sent>, q: Queue, arrivals: seq<string>) {
    q.pushed == Bodies(q.departed) + q.list && PublishedOf(q.departed) == BacklogOf(sent)
  }

  lemma ShippingKeepsOrder(sent: seq<Sent>, q: Queue, arrivals: seq<string>)
    requires Ordered(sent, q, arrivals) && q.list != []
    ensures Ordered(sent + [Backlog(q.list[0])], Shipped(q), arrivals)
  {
    DepartedSnoc(q.departed, Published(q.list[0]));
    SentSnoc(sent, Backlog(q.list[0]));
    assert q.list == [q.list[0]] + q.list[1..];
  }

  lemma StoringKeepsOrder(sent: seq<Sent>, q: Queue, arrivals: seq<string>, limit: nat, body: string)
    requires Ordered(sent, q, arrivals)
    ensures Ordered(sent, Store(q, limit, body), arrivals + [body])
  {
    var list := Store(q, limit, body).list;
    if limit > 0 && q.length >= limit && q.list != [] {
      DepartedSnoc(q.departed, Evicted(q.list[0]));
      assert q.list == [q.list[0]] + q.list[1..];
      assert q.pushed + [body] == Bodies(q.departed) + [q.list[0]] + list;
    } else {
      assert q.pushed + [body] == Bodies(q.departed) + list;
    }
  }

  lemma OrderedIsStable()
    ensures Stable(Ordered)
  {
    forall sent, q: Queue, arrivals | Ordered(sent, q, arrivals) && q.list != []
      ensures Ordered(sent + [Backlog(q.list[0])], Shipped(q), arrivals)
    {
      ShippingKeepsOrder(sent, q, arrivals);
    }
    forall sent, q: Queue, arrivals, limit: nat, body | Ordered(sent, q, arrivals)
      ensures Ordered(sent, Store(q, limit, body), arrivals + [body])
    {
      StoringKeepsOrder(sent, q, arrivals, limit, body);
    }
    forall sent, q: Queue, arrivals, body: string | Ordered(sent, q, arrivals)
      ensures Ordered(sent + [Direct(body)], q, arrivals + [body])
    {
      SentSnoc(sent, Direct(body));
    }
  }

  /** Every event that passed the masks was sent directly or pushed; beyond those, only what Redis
      held at load was pushed. */
  ghost predicate Balanced(sent: seq<Sent>, q: Queue, arrivals: seq<string>, stored: seq<string>) {
    multiset(arrivals) + multiset(stored) == multiset(DirectOf(sent)) + multiset(q.pushed)
  }

  ghost function Accounted(stored: seq<string>): Property {
    (sent: seq<Sent>, q: Queue, arrivals: seq<string>) => Balanced(sent, q, arrivals, stored)
  }

  lemma ShippingKeepsBalance(sent: seq<Sent>, q: Queue, arrivals: seq<string>, stored: seq<string>)
    requires Balanced(sent, q, arrivals, stored) && q.list != []
    ensures Balanced(sent + [Backlog(q.list[0])], Shipped(q), arrivals, stored)
  {
    SentSnoc(sent, Backlog(q.list[0]));
  }

  lemma DirectKeepsBalance(sent: seq<Sent>, q: Queue, arrivals: seq<string>, stored: seq<string>, body: string)
    requires Balanced(sent, q, arrivals, stored)
    ensures Balanced(sent + [Direct(body)], q, arrivals + [body], stored)
  {
    SentSnoc(sent, Direct(body));
    var one := multiset{body};
    assert DirectOf(sent + [Direct(body)]) == DirectOf(sent) + [body];
    assert multiset(arrivals + [body]) + multiset(stored) == multiset(arrivals) + multiset(stored) + one;
    assert multiset(DirectOf(sent) + [body]) + multiset(q.pushed)
        == multiset(DirectOf(sent)) + multiset(q.pushed) + one;
  }

  lemma StoringKeepsBalance(sent: seq<Sent>, q: Queue, arrivals: seq<string>, stored: seq<string>,
                            limit: nat, body: string)
    requires Balanced(sent, q, arrivals, stored)
    ensures Balanced(sent, Store(q, limit, body), arrivals + [body], stored)
  {
    var one := multiset{body};
    assert Store(q, limit, body).pushed == q.pushed + [body];
    assert multiset(arrivals + [body]) + multiset(stored) == multiset(arrivals) + multiset(stored) + one;
    assert multiset(q.pushed + [body]) == multiset(q.pushed) + one;
  }

  lemma AccountedIsStable(stored: seq<string>)
    ensures Stable(Accounted(stored))
  {
    var p := Accounted(stored);
    forall sent, q: Queue, arrivals | p(sent, q, arrivals) && q.list != []
      ensures p(sent + [Backlog(q.list[0])], Shipped(q), arrivals)
    {
      ShippingKeepsBalance(sent, q, arrivals, stored);
    }
    forall sent, q: Queue, arrivals, limit: nat, body: string | p(sent, q, arrivals)
      ensures p(sent, Store(q, limit, body), arrivals + [body])
    {
      StoringKeepsBalance(sent, q, arrivals, stored, limit, body);
    }
    forall sent, q: Queue, arrivals, body: string | p(sent, q, arrivals)
      ensures p(sent + [Direct(body)], q, arrivals + [body])
    {
      DirectKeepsBalance(sent, q, arrivals, stored, body);
    }
  }

  /** The drain publishes a prefix of the list, in order, and leaves the rest as it was; it succeeds
      exactly when nothing is left. */
  lemma {:induction false} DrainPublishesPrefix(script: Script, link: Link, q: Queue)
    returns (k: nat)
    ensures var (after, rest, ok) := Drain(script, link, q);
            && k <= |q.list| && rest.list == q.list[k..] && (ok <==> k == |q.list|)
            && rest.pushed == q.pushed && rest.growth == q.growth
            && |after.sent| == |link.sent| + k && after.sent[..|link.sent|] == link.sent
            && forall i | 0 <= i < k :: after.sent[|link.sent| + i] == Backlog(q.list[i])
    decreases |q.list|
  {
    if q.list == [] {
      k := 0;
    } else {
      var (next, ok) := Publish(script, link, Backlog(q.list[0]));
      if ok {
        var (after, rest, done) := Drain(script, next, Shipped(q));
        var m := DrainPublishesPrefix(script, next, Shipped(q));
        k := m + 1;
        assert after.sent[..|next.sent|][..|link.sent|] == after.sent[..|link.sent|];
        assert after.sent[..|next.sent|][|link.sent|] == after.sent[|link.sent|];
        assert q.list[1..][m..] == q.list[k..];
        forall i | 0 <= i < k ensures after.sent[|link.sent| + i] == Backlog(q.list[i]) {
          if i > 0 {
            assert after.sent[|next.sent| + (i - 1)] == Backlog(q.list[1..][i - 1]);
          }
        }
      } else {
        k := 0;
        assert q.list[0..] == q.list;
      }
    }
  }

  lemma CountLast(s: seq<string>, last: string)
    ensures multiset(s + [last]) == multiset(s) + multiset{last}
  {
  }

  lemma {:induction false} DeparturesSplit(departed: seq<Departure>)
    ensures multiset(Bodies(departed)) == multiset(PublishedOf(departed)) + multiset(EvictedOf(departed))
  {
    if departed != [] {
      var before, last := departed[..|departed| - 1], departed[|departed| - 1];
      DeparturesSplit(before);
      CountLast(Bodies(before), last.body);
      CountLast(if last.Published? then PublishedOf(before) else EvictedOf(before), last.body);
      assert PublishedOf(before) + [] == PublishedOf(before) && EvictedOf(before) + [] == EvictedOf(before);
    }
  }

  lemma {:induction false} SentSplit(sent: seq<Sent>)
    ensures multiset(AllSent(sent)) == multiset(DirectOf(sent)) + multiset(BacklogOf(sent))
  {
    if sent != [] {
      var before, last := sent[..|sent| - 1], sent[|sent| - 1];
      SentSplit(before);
      assert AllSent(sent) == AllSent(before) + [last.body];
      CountLast(AllSent(before), last.body);
      CountLast(if last.Direct? then DirectOf(before) else BacklogOf(before), last.body);
      assert DirectOf(before) + [] == DirectOf(before) && BacklogOf(before) + [] == BacklogOf(before);
    }
  }

  lemma HistoryAfterRun(w: World, argv: seq<string>, stored: seq<string>, events: seq<Event>)
    ensures var s := Run(w, Loaded(w, argv, stored).0, events);
            Holds(Ordered, s) && Holds(Accounted(stored), s)
  {
    var s := Loaded(w, argv, stored).0;
    OrderedIsStable();
    RunKeeps(Ordered, w, s, events);
    AccountedIsStable(stored);
    RunKeeps(Accounted(stored), w, s, events);
  }

  /** No event is lost, invented or duplicated: what arrived, and what Redis held at load, is what the
      broker accepted, what was evicted, and what is still stored. */
  lemma NothingIsLost(w: World, argv: seq<string>, stored: seq<string>, events: seq<Event>)
    ensures var s := Run(w, Loaded(w, argv, stored).0, events);
            multiset(s.arrivals) + multiset(stored)
            == multiset(AllSent(s.link.sent)) + multiset(EvictedOf(s.queue.departed)) + multiset(s.queue.list)
  {
    HistoryAfterRun(w, argv, stored, events);
    var s := Run(w, Loaded(w, argv, stored).0, events);
    DeparturesSplit(s.queue.departed);
    SentSplit(s.link.sent);
  }

  /** The stored list is always the part of the push history that has not left yet, and stored events
      are published in the order they were pushed, each at most once. */
  lemma BacklogKeepsOrder(w: World, argv: seq<string>, stored: seq<string>, events: seq<Event>)
    ensures var q := Run(w, Loaded(w, argv, stored).0, events).queue;
            && |q.departed| <= |q.pushed| && q.list == q.pushed[|q.departed|..]
            && (forall i | 0 <= i < |q.departed| :: q.departed[i].body == q.pushed[i])
            && BacklogOf(Run(w, Loaded(w, argv, stored).0, events).link.sent) == PublishedOf(q.departed)
  {
    HistoryAfterRun(w, argv, stored, events);
    BodiesByIndex(Run(w, Loaded(w, argv, stored).0, events).queue.departed);
  }

  lemma {:induction false} BodiesByIndex(departed: seq<Departure>)
    ensures |Bodies(departed)| == |departed|
    ensures forall i | 0 <= i < |departed| :: Bodies(departed)[i] == departed[i].body
  {
    if departed != [] {
      BodiesByIndex(departed[..|departed| - 1]);
    }
  }

  /** A fresh event that the broker accepts goes out before everything stored: the older events follow it in this
      call or stay in the list. So the order of arrival is broken exactly if the list was not empty. */
  lemma FreshEventOvertakes(script: Script, link: Link, q: Queue, limit: nat, body: string)
    requires link.conn != NoConn && Publish(script, link, Direct(body)).1
    ensures var (after, rest) := PublishEvent(script, link, q, limit, body);
            var n := |link.sent|;
            && n < |after.sent| && after.sent[..n] == link.sent && after.sent[n] == Direct(body)
            && BacklogOf(after.sent[n + 1..]) + rest.list == q.list
            && (|after.sent| > n + 1 || rest.list != [] <==> q.list != [])
  {
    var next := Publish(script, link, Direct(body)).0;
    var k := DrainPublishesPrefix(script, next, q);
    var (after, rest) := PublishEvent(script, link, q, limit, body);
    var n := |link.sent|;
    assert after.sent[..n + 1] == next.sent == link.sent + [Direct(body)];
    assert after.sent[n] == after.sent[..n + 1][n] && after.sent[..n] == after.sent[..n + 1][..n];
    BacklogByIndex(after.sent[n + 1..], q.list[..k]);
  }

  lemma {:induction false} BacklogByIndex(sent: seq<Sent>, bodies: seq<string>)
    requires |sent| == |bodies| && forall i | 0 <= i < |sent| :: sent[i] == Backlog(bodies[i])
    ensures BacklogOf(sent) == bodies
  {
    if sent != [] {
      BacklogByIndex(sent[..|sent| - 1], bodies[..|sent| - 1]);
    }
  }
}
