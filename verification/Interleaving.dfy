/** Spreading nodes over hosts (redis-trib.rb, the first half of alloc_slots): nodes are grouped by host
    and then taken from the groups in turns. */
module Interleaving {
  import opened ClusterNodes

  // ---- Per host ----

  /** The nodes on one host, in order. */
  function OnHost(nodes: seq<ClusterNode>, host: string): seq<ClusterNode> {
    if nodes == [] then []
    else
      var n := |nodes| - 1;
      OnHost(nodes[..n], host) + (if nodes[n].host == host then [nodes[n]] else [])
  }

  lemma {:induction false} OnHostAppend(a: seq<ClusterNode>, b: seq<ClusterNode>, host: string)
    ensures OnHost(a + b, host) == OnHost(a, host) + OnHost(b, host)
  {
    if b == [] {
      assert a + b == a;
    } else {
      var n := |b| - 1;
      OnHostAppend(a, b[..n], host);
      assert (a + b)[..|a + b| - 1] == a + b[..n];
    }
  }

  lemma {:induction false} OnHostAll(nodes: seq<ClusterNode>, host: string)
    requires forall i | 0 <= i < |nodes| :: nodes[i].host == host
    ensures OnHost(nodes, host) == nodes
  {
    if nodes != [] {
      OnHostAll(nodes[..|nodes| - 1], host);
    }
  }

  lemma {:induction false} OnHostNone(nodes: seq<ClusterNode>, host: string)
    requires forall i | 0 <= i < |nodes| :: nodes[i].host != host
    ensures OnHost(nodes, host) == []
  {
    if nodes != [] {
      OnHostNone(nodes[..|nodes| - 1], host);
    }
  }

  // ---- Groups ----

  /** Queue `i` holds nodes of host `hosts[i]` only, and the hosts differ. */
  ghost predicate ByHost(queues: seq<seq<ClusterNode>>, hosts: seq<string>) {
    && |queues| == |hosts|
    && (forall i, j | 0 <= i < j < |hosts| :: hosts[i] != hosts[j])
    && forall i | 0 <= i < |queues| :: forall k | 0 <= k < |queues[i]| :: queues[i][k].host == hosts[i]
  }

  /** `ips`: one queue a host, each with all nodes of that host in order. */
  ghost predicate Groups(queues: seq<seq<ClusterNode>>, hosts: seq<string>, nodes: seq<ClusterNode>) {
    && ByHost(queues, hosts)
    && (forall i | 0 <= i < |queues| :: queues[i] == OnHost(nodes, hosts[i]))
    && forall k | 0 <= k < |nodes| :: nodes[k].host in hosts
  }

  /** Host `a` first appears before host `b` does, if `b` appears at all. */
  ghost predicate Precedes(nodes: seq<ClusterNode>, a: string, b: string) {
    exists i :: 0 <= i < |nodes| && nodes[i].host == a && Unseen(nodes, i, b)
  }

  /** No node up to the one at `i` is on the host. */
  ghost predicate Unseen(nodes: seq<ClusterNode>, i: nat, host: string)
    requires i < |nodes|
  {
    forall k :: 0 <= k <= i ==> nodes[k].host != host
  }

  ghost predicate Appears(nodes: seq<ClusterNode>, host: string) {
    exists k :: 0 <= k < |nodes| && nodes[k].host == host
  }

  /** The hosts of the nodes, in the order they first appear. */
  ghost predicate FirstSeen(nodes: seq<ClusterNode>, hosts: seq<string>) {
    && (forall i :: 0 <= i < |hosts| ==> Appears(nodes, hosts[i]))
    && (forall i, j :: 0 <= i < j < |hosts| ==> Precedes(nodes, hosts[i], hosts[j]))
  }

  lemma PrecedesAppend(nodes: seq<ClusterNode>, n: ClusterNode, a: string, b: string)
    requires Precedes(nodes, a, b)
    ensures Precedes(nodes + [n], a, b)
  {
    var i :| 0 <= i < |nodes| && nodes[i].host == a && Unseen(nodes, i, b);
    assert (nodes + [n])[i].host == a && Unseen(nodes + [n], i, b);
  }

  lemma SeenAgain(nodes: seq<ClusterNode>, hosts: seq<string>, n: ClusterNode)
    requires FirstSeen(nodes, hosts)
    ensures FirstSeen(nodes + [n], hosts)
  {
    forall i | 0 <= i < |hosts|
      ensures Appears(nodes + [n], hosts[i])
    {
      var k :| 0 <= k < |nodes| && nodes[k].host == hosts[i];
      assert (nodes + [n])[k].host == hosts[i];
    }
    forall i, j | 0 <= i < j < |hosts|
      ensures Precedes(nodes + [n], hosts[i], hosts[j])
    {
      PrecedesAppend(nodes, n, hosts[i], hosts[j]);
    }
  }

  /** A host that was not seen before comes last. */
  lemma SeenFirst(nodes: seq<ClusterNode>, hosts: seq<string>, n: ClusterNode)
    requires FirstSeen(nodes, hosts) && n.host !in hosts && forall k | 0 <= k < |nodes| :: nodes[k].host in hosts
    ensures FirstSeen(nodes + [n], hosts + [n.host])
  {
    SeenAgain(nodes, hosts, n);
    assert (nodes + [n])[|nodes|].host == n.host && Appears(nodes + [n], n.host);
    forall i, j | 0 <= i < j < |hosts| + 1
      ensures Precedes(nodes + [n], (hosts + [n.host])[i], (hosts + [n.host])[j])
    {
      if j == |hosts| {
        var k :| 0 <= k < |nodes| && nodes[k].host == hosts[i];
        assert (nodes + [n])[k].host == hosts[i] && Unseen(nodes + [n], k, n.host);
      }
    }
  }

  function Total(queues: seq<seq<ClusterNode>>): nat {
    if queues == [] then 0 else Total(queues[..|queues| - 1]) + |queues[|queues| - 1]|
  }

  method IndexOf(hosts: seq<string>, host: string) returns (i: nat)
    ensures i <= |hosts| && (i < |hosts| ==> hosts[i] == host) && (i == |hosts| ==> host !in hosts)
  {
    i := 0;
    while i < |hosts| && hosts[i] != host
      invariant i <= |hosts| && host !in hosts[..i]
    {
      i := i + 1;
    }
    assert hosts[..|hosts|] == hosts;
  }

  lemma {:induction false} TotalUpdate(queues: seq<seq<ClusterNode>>, g: nat, queue: seq<ClusterNode>)
    requires g < |queues|
    ensures Total(queues[g := queue]) == Total(queues) - |queues[g]| + |queue|
  {
    var n := |queues| - 1;
    if g < n {
      TotalUpdate(queues[..n], g, queue);
      assert queues[g := queue][..n] == queues[..n][g := queue];
    } else {
      assert queues[g := queue][..n] == queues[..n];
    }
  }

  lemma OnHostSnoc(nodes: seq<ClusterNode>, n: ClusterNode, host: string)
    ensures OnHost(nodes + [n], host) == OnHost(nodes, host) + (if n.host == host then [n] else [])
  {
    assert (nodes + [n])[..|nodes|] == nodes;
  }

  lemma AddGroup(queues: seq<seq<ClusterNode>>, hosts: seq<string>, nodes: seq<ClusterNode>, host: string)
    requires Groups(queues, hosts, nodes) && host !in hosts
    ensures Groups(queues + [[]], hosts + [host], nodes) && Total(queues + [[]]) == Total(queues)
  {
    NoneSeen(nodes, hosts, host);
    assert (queues + [[]])[..|queues|] == queues;
  }

  lemma AddToGroup(queues: seq<seq<ClusterNode>>, hosts: seq<string>, nodes: seq<ClusterNode>, n: ClusterNode, g: nat)
    requires Groups(queues, hosts, nodes) && g < |queues| && hosts[g] == n.host
    ensures Groups(queues[g := queues[g] + [n]], hosts, nodes + [n])
    ensures Total(queues[g := queues[g] + [n]]) == Total(queues) + 1
  {
    var longer := queues[g := queues[g] + [n]];
    TotalUpdate(queues, g, queues[g] + [n]);
    forall i | 0 <= i < |longer| ensures longer[i] == OnHost(nodes + [n], hosts[i]) {
      OnHostSnoc(nodes, n, hosts[i]);
    }
    forall i | 0 <= i < |longer| ensures forall k | 0 <= k < |longer[i]| :: longer[i][k].host == hosts[i] {
    }
  }

  /** One node joins the queue of its host, which is a new one if the host was not seen before. */
  method PlaceNode(ips: seq<seq<ClusterNode>>, hosts: seq<string>, n: ClusterNode, ghost nodes: seq<ClusterNode>)
    returns (queues: seq<seq<ClusterNode>>, seen: seq<string>)
    requires Groups(ips, hosts, nodes) && FirstSeen(nodes, hosts)
    ensures Groups(queues, seen, nodes + [n]) && FirstSeen(nodes + [n], seen)
    ensures Total(queues) == Total(ips) + 1 && queues != []
  {
    queues, seen := ips, hosts;
    var g := IndexOf(hosts, n.host);
    if g == |hosts| {
      AddGroup(ips, hosts, nodes, n.host);
      SeenFirst(nodes, hosts, n);
      queues, seen := ips + [[]], hosts + [n.host];
    } else {
      SeenAgain(nodes, hosts, n);
    }
    AddToGroup(queues, seen, nodes, n, g);
    queues := queues[g := queues[g] + [n]];
  }

  /** The first `k` nodes are grouped. */
  ghost predicate Grouped(nodes: seq<ClusterNode>, k: nat, ips: seq<seq<ClusterNode>>, hosts: seq<string>)
    requires k <= |nodes|
  {
    Groups(ips, hosts, nodes[..k]) && FirstSeen(nodes[..k], hosts) && Total(ips) == k
  }

  lemma NoneGrouped(nodes: seq<ClusterNode>)
    ensures Grouped(nodes, 0, [], [])
  {
  }

  lemma OneMoreGrouped(nodes: seq<ClusterNode>, k: nat, ips: seq<seq<ClusterNode>>, hosts: seq<string>)
    requires k < |nodes| && Groups(ips, hosts, nodes[..k] + [nodes[k]]) && FirstSeen(nodes[..k] + [nodes[k]], hosts)
    requires Total(ips) == k + 1
    ensures Grouped(nodes, k + 1, ips, hosts)
  {
    assert nodes[..k + 1] == nodes[..k] + [nodes[k]];
  }

  lemma AllGrouped(nodes: seq<ClusterNode>, ips: seq<seq<ClusterNode>>, hosts: seq<string>)
    requires Grouped(nodes, |nodes|, ips, hosts)
    ensures Groups(ips, hosts, nodes) && FirstSeen(nodes, hosts) && Total(ips) == |nodes|
    ensures nodes != [] ==> ips != []
  {
    assert nodes[..|nodes|] == nodes;
  }

  method PlaceNext(nodes: seq<ClusterNode>, k: nat, ips: seq<seq<ClusterNode>>, hosts: seq<string>)
    returns (queues: seq<seq<ClusterNode>>, seen: seq<string>)
    requires k < |nodes| && Grouped(nodes, k, ips, hosts)
    ensures Grouped(nodes, k + 1, queues, seen)
  {
    queues, seen := PlaceNode(ips, hosts, nodes[k], nodes[..k]);
    OneMoreGrouped(nodes, k, queues, seen);
  }

  /** Splits the nodes by host, in the order the hosts first appear. */
  method GroupByHost(nodes: seq<ClusterNode>) returns (ips: seq<seq<ClusterNode>>, hosts: seq<string>)
    ensures Groups(ips, hosts, nodes) && FirstSeen(nodes, hosts)
    ensures Total(ips) == |nodes| && (nodes != [] ==> ips != [])
  {
    ips, hosts := [], [];
    NoneGrouped(nodes);
    for k := 0 to |nodes|
      invariant Grouped(nodes, k, ips, hosts)
    {
      ips, hosts := PlaceNext(nodes, k, ips, hosts);
    }
    AllGrouped(nodes, ips, hosts);
  }

  lemma NoneSeen(nodes: seq<ClusterNode>, hosts: seq<string>, host: string)
    requires (forall k | 0 <= k < |nodes| :: nodes[k].host in hosts) && host !in hosts
    ensures OnHost(nodes, host) == []
  {
    OnHostNone(nodes, host);
  }

  // ---- Turns ----

  /** What one turn takes: the head of every queue that is not empty. */
  function Heads(queues: seq<seq<ClusterNode>>): seq<ClusterNode> {
    if queues == [] then []
    else
      var n := |queues| - 1;
      Heads(queues[..n]) + Head(queues[n])
  }

  function Head(queue: seq<ClusterNode>): seq<ClusterNode> {
    if queue == [] then [] else [queue[0]]
  }

  function Tail(queue: seq<ClusterNode>): seq<ClusterNode> {
    if queue == [] then [] else queue[1..]
  }

  function Tails(queues: seq<seq<ClusterNode>>): seq<seq<ClusterNode>> {
    seq(|queues|, i requires 0 <= i < |queues| => Tail(queues[i]))
  }

  lemma TotalOfTails(queues: seq<seq<ClusterNode>>)
    requires queues != []
    ensures var n := |queues| - 1;
      Total(Tails(queues)) == Total(Tails(queues[..n])) + |Tail(queues[n])|
  {
    var n := |queues| - 1;
    assert Tails(queues)[..n] == Tails(queues[..n]) && Tails(queues)[n] == Tail(queues[n]);
  }

  lemma {:induction false} TurnShrinks(queues: seq<seq<ClusterNode>>)
    ensures Total(Tails(queues)) + |Heads(queues)| == Total(queues)
    ensures Total(queues) > 0 ==> |Heads(queues)| > 0
  {
    if queues != [] {
      var n := |queues| - 1;
      TurnShrinks(queues[..n]);
      TotalOfTails(queues);
      if Total(queues[..n]) == 0 {
        assert Total(queues) > 0 ==> Head(queues[n]) != [];
      }
    }
  }

  /** Turn after turn until every queue is empty. */
  function RoundRobin(queues: seq<seq<ClusterNode>>): seq<ClusterNode>
    decreases Total(queues)
  {
    TurnShrinks(queues);
    if Total(queues) == 0 then [] else Heads(queues) + RoundRobin(Tails(queues))
  }

  lemma RoundRobinTurn(queues: seq<seq<ClusterNode>>)
    ensures RoundRobin(queues) == Heads(queues) + RoundRobin(Tails(queues))
  {
    TurnShrinks(queues);
  }

  lemma {:induction false} TotalZero(queues: seq<seq<ClusterNode>>, i: nat)
    requires i < |queues|
    ensures Total(queues) == 0 ==> queues[i] == []
    ensures |queues[i]| <= Total(queues)
  {
    var n := |queues| - 1;
    if i < n {
      TotalZero(queues[..n], i);
    }
  }

  /** The queues after a sweep has passed the first `i` of them. */
  function Swept(queues: seq<seq<ClusterNode>>, i: nat): seq<seq<ClusterNode>>
    requires i <= |queues|
  {
    Tails(queues[..i]) + queues[i..]
  }

  lemma SweepOne(queues: seq<seq<ClusterNode>>, i: nat)
    requires i < |queues|
    ensures Swept(queues, i)[i] == queues[i]
    ensures queues[i] == [] ==> Swept(queues, i + 1) == Swept(queues, i)
    ensures queues[i] != [] ==> Swept(queues, i + 1) == Swept(queues, i)[i := queues[i][1..]]
    ensures queues[i] == [] ==> Heads(queues[..i + 1]) == Heads(queues[..i])
    ensures queues[i] != [] ==> Heads(queues[..i + 1]) == Heads(queues[..i]) + [queues[i][0]]
    ensures Total(Swept(queues, i + 1)) + |Head(queues[i])| == Total(Swept(queues, i))
  {
    assert queues[..i + 1][..i] == queues[..i];
    assert Tails(queues[..i + 1]) == Tails(queues[..i]) + [Tail(queues[i])];
    assert Swept(queues, i + 1) == Swept(queues, i)[i := Tail(queues[i])];
    TotalUpdate(Swept(queues, i), i, Tail(queues[i]));
  }

  lemma SweepEnds(queues: seq<seq<ClusterNode>>)
    ensures Swept(queues, 0) == queues && Heads(queues[..0]) == []
    ensures Swept(queues, |queues|) == Tails(queues) && Heads(queues[..|queues|]) == Heads(queues)
  {
    assert queues[..|queues|] == queues;
  }

  /** One host's turn: its next node if it has one, otherwise the check for termination. */
  method TakeTurn(left: seq<seq<ClusterNode>>, i: nat, interleaved: seq<ClusterNode>, nodesCount: nat)
    returns (next: seq<seq<ClusterNode>>, taken: seq<ClusterNode>, done: bool)
    requires i < |left|
    ensures left[i] == [] ==> next == left && taken == interleaved && done == (|interleaved| == nodesCount)
    ensures left[i] != [] ==> next == left[i := left[i][1..]] && taken == interleaved + [left[i][0]] && !done
  {
    if left[i] == [] {
      return left, interleaved, |interleaved| == nodesCount;
    }
    return left[i := left[i][1..]], interleaved + [left[i][0]], false;
  }

  /** Where a sweep stands after `i` hosts. */
  ghost predicate Sweeping(queues: seq<seq<ClusterNode>>, before: seq<ClusterNode>, nodesCount: nat, i: nat,
                           left: seq<seq<ClusterNode>>, taken: seq<ClusterNode>, stop: bool)
    requires i <= |queues|
  {
    && left == Swept(queues, i) && taken == before + Heads(queues[..i])
    && |taken| + Total(left) == nodesCount
    && (stop ==> Total(left) == 0)
    && (Total(queues) == 0 ==> Total(left) == 0 && (i > 0 ==> stop))
  }

  lemma SweepingOn(queues: seq<seq<ClusterNode>>, before: seq<ClusterNode>, nodesCount: nat, i: nat,
                   left: seq<seq<ClusterNode>>, taken: seq<ClusterNode>, stop: bool,
                   next: seq<seq<ClusterNode>>, more: seq<ClusterNode>, done: bool)
    requires i < |queues| && Sweeping(queues, before, nodesCount, i, left, taken, stop)
    requires |left| == |queues|
    requires left[i] == [] ==> next == left && more == taken && done == (|taken| == nodesCount)
    requires left[i] != [] ==> next == left[i := left[i][1..]] && more == taken + [left[i][0]] && !done
    ensures Sweeping(queues, before, nodesCount, i + 1, next, more, stop || done)
  {
    SweepOne(queues, i);
    TotalZero(left, i);
    assert next == Swept(queues, i + 1);
    if left[i] != [] {
      assert more == before + (Heads(queues[..i]) + [left[i][0]]);
    }
  }

  /** One sweep over the hosts. `stop` is set by an empty queue once all nodes have been taken. */
  method Sweep(queues: seq<seq<ClusterNode>>, interleaved: seq<ClusterNode>, nodesCount: nat)
    returns (left: seq<seq<ClusterNode>>, taken: seq<ClusterNode>, stop: bool)
    requires |interleaved| + Total(queues) == nodesCount
    ensures left == Tails(queues) && taken == interleaved + Heads(queues)
    ensures stop ==> Total(left) == 0
    ensures Total(queues) == 0 && queues != [] ==> stop
  {
    left, taken, stop := queues, interleaved, false;
    SweepEnds(queues);
    for i := 0 to |queues|
      invariant |left| == |queues| && Sweeping(queues, interleaved, nodesCount, i, left, taken, stop)
    {
      var next, more, done := TakeTurn(left, i, taken, nodesCount);
      SweepingOn(queues, interleaved, nodesCount, i, left, taken, stop, next, more, done);
      left, taken, stop := next, more, stop || done;
    }
  }

  lemma TurnTaken(all: seq<ClusterNode>, taken: seq<ClusterNode>, queues: seq<seq<ClusterNode>>)
    requires all == taken + RoundRobin(queues)
    ensures all == (taken + Heads(queues)) + RoundRobin(Tails(queues))
    ensures Total(Tails(queues)) + |Heads(queues)| == Total(queues)
    ensures Total(queues) > 0 ==> Total(Tails(queues)) < Total(queues)
  {
    TurnShrinks(queues);
    RoundRobinTurn(queues);
  }

  lemma NoTurnsLeft(queues: seq<seq<ClusterNode>>)
    requires Total(queues) == 0
    ensures RoundRobin(queues) == []
  {
  }

  /** The interleaving loop. */
  method Interleave(ips: seq<seq<ClusterNode>>, nodesCount: nat) returns (interleaved: seq<ClusterNode>)
    requires ips != [] && Total(ips) == nodesCount
    ensures interleaved == RoundRobin(ips)
  {
    var queues := ips;
    interleaved := [];
    var stop := false;
    ghost var all := RoundRobin(ips);
    while !stop
      invariant queues != [] && |interleaved| + Total(queues) == nodesCount
      invariant all == interleaved + RoundRobin(queues)
      invariant stop ==> Total(queues) == 0
      decreases Total(queues), !stop
    {
      TurnTaken(all, interleaved, queues);
      queues, interleaved, stop := Sweep(queues, interleaved, nodesCount);
    }
    NoTurnsLeft(queues);
  }

  // ---- Order and fairness ----

  lemma HeadOnHost(queue: seq<ClusterNode>, host: string, other: string)
    requires forall k | 0 <= k < |queue| :: queue[k].host == host
    ensures OnHost(Head(queue), other) == if other == host then Head(queue) else []
  {
    if queue != [] {
      OnHostSnoc([], queue[0], other);
      assert [] + Head(queue) == Head(queue);
    }
  }

  lemma {:induction false} HeadsElsewhere(queues: seq<seq<ClusterNode>>, hosts: seq<string>, host: string)
    requires ByHost(queues, hosts) && host !in hosts
    ensures OnHost(Heads(queues), host) == []
    decreases |queues|
  {
    if queues != [] {
      var n := |queues| - 1;
      HeadsElsewhere(queues[..n], hosts[..n], host);
      OnHostAppend(Heads(queues[..n]), Head(queues[n]), host);
      assert hosts[n] in hosts;
      HeadOnHost(queues[n], hosts[n], host);
    }
  }

  lemma FirstGroupsByHost(queues: seq<seq<ClusterNode>>, hosts: seq<string>)
    requires ByHost(queues, hosts) && queues != []
    ensures var n := |queues| - 1; ByHost(queues[..n], hosts[..n]) && hosts[n] !in hosts[..n]
  {
  }

  lemma {:induction false} HeadsOnHost(queues: seq<seq<ClusterNode>>, hosts: seq<string>, i: nat)
    requires ByHost(queues, hosts) && i < |queues|
    ensures OnHost(Heads(queues), hosts[i]) == Head(queues[i])
    decreases |queues|
  {
    var n := |queues| - 1;
    FirstGroupsByHost(queues, hosts);
    OnHostAppend(Heads(queues[..n]), Head(queues[n]), hosts[i]);
    HeadOnHost(queues[n], hosts[n], hosts[i]);
    if i < n {
      HeadsOnHost(queues[..n], hosts[..n], i);
      assert hosts[..n][i] == hosts[i] && queues[..n][i] == queues[i];
    } else {
      HeadsElsewhere(queues[..n], hosts[..n], hosts[n]);
    }
  }

  lemma TailsByHost(queues: seq<seq<ClusterNode>>, hosts: seq<string>)
    requires ByHost(queues, hosts)
    ensures ByHost(Tails(queues), hosts)
  {
  }

  /** Taking turns keeps the order within each host and loses no node. */
  lemma {:induction false} RoundRobinOnHost(queues: seq<seq<ClusterNode>>, hosts: seq<string>, i: nat)
    requires ByHost(queues, hosts) && i < |queues|
    ensures OnHost(RoundRobin(queues), hosts[i]) == queues[i]
    decreases Total(queues)
  {
    TurnShrinks(queues);
    TotalZero(queues, i);
    if Total(queues) > 0 {
      TailsByHost(queues, hosts);
      RoundRobinOnHost(Tails(queues), hosts, i);
      HeadsOnHost(queues, hosts, i);
      OnHostAppend(Heads(queues), RoundRobin(Tails(queues)), hosts[i]);
    }
  }

  /** How many of the first `p` nodes are on a host. */
  ghost function HostShare(nodes: seq<ClusterNode>, p: nat, host: string): nat
    requires p <= |nodes|
  {
    |OnHost(nodes[..p], host)|
  }

  lemma {:induction false} ShareMonotone(nodes: seq<ClusterNode>, p: nat, host: string)
    requires p <= |nodes|
    ensures HostShare(nodes, p, host) <= |OnHost(nodes, host)|
  {
    assert nodes == nodes[..p] + nodes[p..];
    OnHostAppend(nodes[..p], nodes[p..], host);
  }

  lemma ShareInHeads(queues: seq<seq<ClusterNode>>, hosts: seq<string>, p: nat, i: nat)
    requires ByHost(queues, hosts) && i < |queues| && p <= |Heads(queues)| && p <= |RoundRobin(queues)|
    ensures HostShare(RoundRobin(queues), p, hosts[i]) <= 1
  {
    RoundRobinTurn(queues);
    assert RoundRobin(queues)[..p] == Heads(queues)[..p];
    ShareMonotone(Heads(queues), p, hosts[i]);
    HeadsOnHost(queues, hosts, i);
  }

  lemma ShareBeyondHeads(queues: seq<seq<ClusterNode>>, hosts: seq<string>, p: nat, i: nat)
    requires ByHost(queues, hosts) && i < |queues| && |Heads(queues)| <= p <= |RoundRobin(queues)|
    ensures var q := p - |Heads(queues)|;
            q <= |RoundRobin(Tails(queues))| &&
            HostShare(RoundRobin(queues), p, hosts[i])
            == |Head(queues[i])| + HostShare(RoundRobin(Tails(queues)), q, hosts[i])
  {
    RoundRobinTurn(queues);
    var q := p - |Heads(queues)|;
    var rest := RoundRobin(Tails(queues));
    assert RoundRobin(queues)[..p] == Heads(queues) + rest[..q];
    OnHostAppend(Heads(queues), rest[..q], hosts[i]);
    HeadsOnHost(queues, hosts, i);
  }

  /** In every prefix no host is ahead of another by more than one node, unless the other has none left. */
  lemma {:induction false} RoundRobinIsFair(queues: seq<seq<ClusterNode>>, hosts: seq<string>, p: nat, i: nat, j: nat)
    requires ByHost(queues, hosts) && i < |queues| && j < |queues| && p <= |RoundRobin(queues)|
    ensures HostShare(RoundRobin(queues), p, hosts[i]) <= HostShare(RoundRobin(queues), p, hosts[j]) + 1
         || HostShare(RoundRobin(queues), p, hosts[j]) == |queues[j]|
    decreases Total(queues)
  {
    TurnShrinks(queues);
    if p <= |Heads(queues)| {
      ShareInHeads(queues, hosts, p, i);
    } else {
      ShareBeyondHeads(queues, hosts, p, i);
      ShareBeyondHeads(queues, hosts, p, j);
      TailsByHost(queues, hosts);
      assert |Head(queues[j])| + |Tails(queues)[j]| == |queues[j]|;
      ShareMonotone(RoundRobin(Tails(queues)), p - |Heads(queues)|, hosts[j]);
      RoundRobinOnHost(Tails(queues), hosts, j);
      RoundRobinIsFair(Tails(queues), hosts, p - |Heads(queues)|, i, j);
    }
  }
}
