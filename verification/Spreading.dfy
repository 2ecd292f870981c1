/** The order in which alloc_slots takes the nodes (redis-trib.rb): what the turns of the hosts come to, and that this
    describes the order completely. */
module Spreading {
  import opened ClusterNodes
  import opened Interleaving

  // ---- The hosts take their turns in the order they first appear ----

  lemma HeadsShare(queues: seq<seq<ClusterNode>>, hosts: seq<string>, p: nat, host: string)
    requires ByHost(queues, hosts) && queues != [] && p <= |Heads(queues[..|queues| - 1])|
    ensures var n := |queues| - 1;
      && p <= |Heads(queues)|
      && HostShare(Heads(queues), p, host) == HostShare(Heads(queues[..n]), p, host)
      && (host == hosts[n] ==> HostShare(Heads(queues), p, host) == 0)
  {
    var n := |queues| - 1;
    FirstGroupsByHost(queues, hosts);
    assert Heads(queues)[..p] == Heads(queues[..n])[..p];
    if host == hosts[n] {
      HeadsElsewhere(queues[..n], hosts[..n], host);
      ShareMonotone(Heads(queues[..n]), p, host);
    }
  }

  lemma AllHeadsShare(queues: seq<seq<ClusterNode>>, hosts: seq<string>, i: nat)
    requires ByHost(queues, hosts) && i < |queues|
    ensures HostShare(Heads(queues), |Heads(queues)|, hosts[i]) == if queues[i] == [] then 0 else 1
  {
    assert Heads(queues)[..|Heads(queues)|] == Heads(queues);
    HeadsOnHost(queues, hosts, i);
  }

  lemma OneHeadMore(queues: seq<seq<ClusterNode>>)
    requires queues != []
    ensures |Heads(queues)| <= |Heads(queues[..|queues| - 1])| + 1
  {
  }

  lemma WholeTurn(queues: seq<seq<ClusterNode>>, hosts: seq<string>, i: nat, j: nat)
    requires ByHost(queues, hosts) && i < j < |queues|
    ensures var heads := Heads(queues);
      HostShare(heads, |heads|, hosts[i]) >= HostShare(heads, |heads|, hosts[j]) || queues[i] == []
  {
    AllHeadsShare(queues, hosts, i);
    AllHeadsShare(queues, hosts, j);
  }

  /** Within one turn, a later host comes after an earlier one. */
  lemma {:induction false} HeadsInTurn(queues: seq<seq<ClusterNode>>, hosts: seq<string>, p: nat, i: nat, j: nat)
    requires ByHost(queues, hosts) && i < j < |queues| && p <= |Heads(queues)|
    ensures HostShare(Heads(queues), p, hosts[i]) >= HostShare(Heads(queues), p, hosts[j]) || queues[i] == []
    decreases |queues|
  {
    var n := |queues| - 1;
    if p <= |Heads(queues[..n])| {
      HeadsShare(queues, hosts, p, hosts[i]);
      HeadsShare(queues, hosts, p, hosts[j]);
      if j < n {
        FirstGroupsByHost(queues, hosts);
        assert hosts[..n][i] == hosts[i] && hosts[..n][j] == hosts[j] && queues[..n][i] == queues[i];
        HeadsInTurn(queues[..n], hosts[..n], p, i, j);
      }
    } else {
      OneHeadMore(queues);
      WholeTurn(queues, hosts, i, j);
    }
  }

  lemma FirstTurn(queues: seq<seq<ClusterNode>>, hosts: seq<string>, p: nat, i: nat, j: nat)
    requires ByHost(queues, hosts) && i < j < |queues| && p <= |Heads(queues)| && p <= |RoundRobin(queues)|
    ensures var all := RoundRobin(queues);
      HostShare(all, p, hosts[i]) >= HostShare(all, p, hosts[j]) || queues[i] == []
  {
    RoundRobinTurn(queues);
    assert RoundRobin(queues)[..p] == Heads(queues)[..p];
    HeadsInTurn(queues, hosts, p, i, j);
  }

  /** `before` is ahead of `after`, or all of its `size` nodes have been taken. */
  predicate Ahead(before: nat, after: nat, size: nat) {
    before >= after || before == size
  }

  /** A host whose queue is not empty takes one node in each turn. */
  lemma TurnAhead(first: seq<ClusterNode>, second: seq<ClusterNode>, restFirst: nat, restSecond: nat)
    requires Ahead(restFirst, restSecond, |Tail(first)|) && restFirst <= |Tail(first)|
    ensures Ahead(|Head(first)| + restFirst, |Head(second)| + restSecond, |first|)
  {
  }

  lemma ShareIsBounded(queues: seq<seq<ClusterNode>>, hosts: seq<string>, p: nat, i: nat)
    requires ByHost(queues, hosts) && i < |queues| && p <= |RoundRobin(queues)|
    ensures HostShare(RoundRobin(queues), p, hosts[i]) <= |queues[i]|
  {
    RoundRobinOnHost(queues, hosts, i);
    ShareMonotone(RoundRobin(queues), p, hosts[i]);
  }

  /** In every prefix an earlier host has at least as many nodes as a later one, unless it has none left. */
  lemma {:induction false} RoundRobinInTurn(queues: seq<seq<ClusterNode>>, hosts: seq<string>, p: nat, i: nat, j: nat)
    requires ByHost(queues, hosts) && i < j < |queues| && p <= |RoundRobin(queues)|
    ensures var all := RoundRobin(queues);
      Ahead(HostShare(all, p, hosts[i]), HostShare(all, p, hosts[j]), |queues[i]|)
    decreases Total(queues)
  {
    TurnShrinks(queues);
    if p <= |Heads(queues)| {
      FirstTurn(queues, hosts, p, i, j);
      ShareIsBounded(queues, hosts, p, i);
    } else {
      var q, rest := p - |Heads(queues)|, Tails(queues);
      ShareBeyondHeads(queues, hosts, p, i);
      ShareBeyondHeads(queues, hosts, p, j);
      TailsByHost(queues, hosts);
      RoundRobinInTurn(rest, hosts, q, i, j);
      ShareIsBounded(rest, hosts, q, i);
      TurnAhead(queues[i], queues[j], HostShare(RoundRobin(rest), q, hosts[i]),
                HostShare(RoundRobin(rest), q, hosts[j]));
    }
  }

  // ---- What the order is ----

  /** No host is ahead of another by more than one of the first `p` nodes, unless the other has none left. */
  ghost predicate BalancedAt(nodes: seq<ClusterNode>, order: seq<ClusterNode>, p: nat)
    requires p <= |order|
  {
    forall a, b :: HostShare(order, p, a) <= HostShare(order, p, b) + 1
                || HostShare(order, p, b) == |OnHost(nodes, b)|
  }

  /** Nor is a later host ahead of one that appeared before it. */
  ghost predicate InTurnAt(nodes: seq<ClusterNode>, order: seq<ClusterNode>, p: nat)
    requires p <= |order|
  {
    forall a, b :: Precedes(nodes, a, b) ==>
      HostShare(order, p, a) >= HostShare(order, p, b) || HostShare(order, p, a) == |OnHost(nodes, a)|
  }

  /** The nodes of every host in their order, and in every prefix balanced and in turn. */
  ghost predicate IsSpread(nodes: seq<ClusterNode>, order: seq<ClusterNode>) {
    && |order| == |nodes|
    && (forall host :: OnHost(order, host) == OnHost(nodes, host))
    && (forall p: nat :: p <= |order| ==> BalancedAt(nodes, order, p) && InTurnAt(nodes, order, p))
  }

  lemma ShareSnoc(order: seq<ClusterNode>, p: nat, host: string)
    requires p < |order|
    ensures HostShare(order, p + 1, host) == HostShare(order, p, host) + if order[p].host == host then 1 else 0
    ensures order[p].host == host ==>
      HostShare(order, p, host) < |OnHost(order, host)| && OnHost(order, host)[HostShare(order, p, host)] == order[p]
  {
    assert order[..p + 1] == order[..p] + [order[p]];
    OnHostSnoc(order[..p], order[p], host);
    assert order == order[..p + 1] + order[p + 1..];
    OnHostAppend(order[..p + 1], order[p + 1..], host);
  }

  lemma OneIsFirst(nodes: seq<ClusterNode>, a: string, b: string, i: nat)
    requires a != b && i < |nodes| && nodes[i].host == a
    ensures Precedes(nodes, a, b) || Precedes(nodes, b, a)
    decreases i
  {
    if !Unseen(nodes, i, b) {
      var k :| 0 <= k <= i && nodes[k].host == b;
      OneIsFirst(nodes, b, a, k);
    }
  }

  lemma OnSomeHost(nodes: seq<ClusterNode>, host: string)
    requires OnHost(nodes, host) != []
    ensures exists i :: 0 <= i < |nodes| && nodes[i].host == host
  {
    if forall i | 0 <= i < |nodes| :: nodes[i].host != host {
      OnHostNone(nodes, host);
    }
  }

  /** After the same beginning, two spread orders do not continue with different hosts `a` and `b`, `a` the earlier. */
  lemma SameNextHost(nodes: seq<ClusterNode>, x: seq<ClusterNode>, y: seq<ClusterNode>, p: nat, a: string, b: string)
    requires IsSpread(nodes, x) && IsSpread(nodes, y) && p < |nodes| && x[..p] == y[..p]
    requires Precedes(nodes, a, b) && a != b
    ensures !(x[p].host == a && y[p].host == b)
  {
    assert BalancedAt(nodes, x, p + 1) && InTurnAt(nodes, y, p + 1);
    ShareSnoc(x, p, a);
    ShareSnoc(x, p, b);
    ShareSnoc(y, p, a);
    ShareSnoc(y, p, b);
  }

  lemma SameNext(nodes: seq<ClusterNode>, x: seq<ClusterNode>, y: seq<ClusterNode>, p: nat)
    requires IsSpread(nodes, x) && IsSpread(nodes, y) && p < |nodes| && x[..p] == y[..p]
    ensures x[p] == y[p]
  {
    var a, b := x[p].host, y[p].host;
    ShareSnoc(x, p, a);
    ShareSnoc(y, p, b);
    if a != b {
      OnSomeHost(nodes, a);
      var i :| 0 <= i < |nodes| && nodes[i].host == a;
      OneIsFirst(nodes, a, b, i);
      if Precedes(nodes, a, b) {
        SameNextHost(nodes, x, y, p, a, b);
      } else {
        SameNextHost(nodes, y, x, p, b, a);
      }
    }
  }

  /** There is one such order. */
  lemma SpreadIsUnique(nodes: seq<ClusterNode>, x: seq<ClusterNode>, y: seq<ClusterNode>)
    requires IsSpread(nodes, x) && IsSpread(nodes, y)
    ensures x == y
  {
    SameBeginning(nodes, x, y, |nodes|);
    assert x[..|nodes|] == x && y[..|nodes|] == y;
  }

  lemma {:induction false} SameBeginning(nodes: seq<ClusterNode>, x: seq<ClusterNode>, y: seq<ClusterNode>, p: nat)
    requires IsSpread(nodes, x) && IsSpread(nodes, y) && p <= |nodes|
    ensures x[..p] == y[..p]
  {
    if p > 0 {
      SameBeginning(nodes, x, y, p - 1);
      SameNext(nodes, x, y, p - 1);
      assert x[..p] == x[..p - 1] + [x[p - 1]] && y[..p] == y[..p - 1] + [y[p - 1]];
    }
  }

  // ---- The whole step ----

  /** Groups and interleaves. */
  method Spread(nodes: seq<ClusterNode>) returns (interleaved: seq<ClusterNode>)
    requires nodes != []
    ensures IsSpread(nodes, interleaved)
  {
    var ips, hosts := GroupByHost(nodes);
    interleaved := Interleave(ips, |nodes|);
    RoundRobinLength(ips);
    forall host ensures OnHost(interleaved, host) == OnHost(nodes, host) {
      SpreadOnHost(ips, hosts, nodes, host);
    }
    forall p: nat | p <= |interleaved|
      ensures BalancedAt(nodes, interleaved, p) && InTurnAt(nodes, interleaved, p)
    {
      forall a, b
        ensures HostShare(interleaved, p, a) <= HostShare(interleaved, p, b) + 1
             || HostShare(interleaved, p, b) == |OnHost(nodes, b)|
      {
        SpreadIsFair(ips, hosts, nodes, p, a, b);
      }
      forall a, b | Precedes(nodes, a, b)
        ensures HostShare(interleaved, p, a) >= HostShare(interleaved, p, b)
             || HostShare(interleaved, p, a) == |OnHost(nodes, a)|
      {
        SpreadIsInTurn(ips, hosts, nodes, p, a, b);
      }
    }
  }

  lemma {:induction false} RoundRobinLength(queues: seq<seq<ClusterNode>>)
    ensures |RoundRobin(queues)| == Total(queues)
    decreases Total(queues)
  {
    TurnShrinks(queues);
    if Total(queues) > 0 {
      RoundRobinLength(Tails(queues));
    }
  }

  lemma {:induction false} RoundRobinElsewhere(queues: seq<seq<ClusterNode>>, hosts: seq<string>, host: string)
    requires ByHost(queues, hosts) && host !in hosts
    ensures OnHost(RoundRobin(queues), host) == []
    decreases Total(queues)
  {
    TurnShrinks(queues);
    if Total(queues) > 0 {
      TailsByHost(queues, hosts);
      HeadsElsewhere(queues, hosts, host);
      RoundRobinElsewhere(Tails(queues), hosts, host);
      OnHostAppend(Heads(queues), RoundRobin(Tails(queues)), host);
    }
  }

  lemma SpreadOnHost(queues: seq<seq<ClusterNode>>, hosts: seq<string>, nodes: seq<ClusterNode>, host: string)
    requires Groups(queues, hosts, nodes)
    ensures OnHost(RoundRobin(queues), host) == OnHost(nodes, host)
  {
    if i :| 0 <= i < |hosts| && hosts[i] == host {
      RoundRobinOnHost(queues, hosts, i);
    } else {
      RoundRobinElsewhere(queues, hosts, host);
      NoneSeen(nodes, hosts, host);
    }
  }

  lemma SpreadIsFair(queues: seq<seq<ClusterNode>>, hosts: seq<string>, nodes: seq<ClusterNode>, p: nat, a: string,
                     b: string)
    requires Groups(queues, hosts, nodes) && p <= |RoundRobin(queues)|
    ensures HostShare(RoundRobin(queues), p, a) <= HostShare(RoundRobin(queues), p, b) + 1
         || HostShare(RoundRobin(queues), p, b) == |OnHost(nodes, b)|
  {
    ShareMonotone(RoundRobin(queues), p, a);
    ShareMonotone(RoundRobin(queues), p, b);
    SpreadOnHost(queues, hosts, nodes, a);
    SpreadOnHost(queues, hosts, nodes, b);
    if a in hosts && b in hosts {
      var i :| 0 <= i < |hosts| && hosts[i] == a;
      var j :| 0 <= j < |hosts| && hosts[j] == b;
      RoundRobinIsFair(queues, hosts, p, i, j);
    } else if a !in hosts {
      NoneSeen(nodes, hosts, a);
    } else {
      NoneSeen(nodes, hosts, b);
    }
  }

  lemma FirstIsEarlier(nodes: seq<ClusterNode>, hosts: seq<string>, i: nat, j: nat)
    requires FirstSeen(nodes, hosts) && i < |hosts| && j < |hosts| && Precedes(nodes, hosts[i], hosts[j])
    ensures i < j
  {
    var k :| 0 <= k < |nodes| && nodes[k].host == hosts[i] && Unseen(nodes, k, hosts[j]);
  }

  lemma SpreadIsInTurn(queues: seq<seq<ClusterNode>>, hosts: seq<string>, nodes: seq<ClusterNode>, p: nat, a: string,
                       b: string)
    requires Groups(queues, hosts, nodes) && FirstSeen(nodes, hosts) && p <= |RoundRobin(queues)|
    requires Precedes(nodes, a, b)
    ensures HostShare(RoundRobin(queues), p, a) >= HostShare(RoundRobin(queues), p, b)
         || HostShare(RoundRobin(queues), p, a) == |OnHost(nodes, a)|
  {
    ShareMonotone(RoundRobin(queues), p, b);
    SpreadOnHost(queues, hosts, nodes, b);
    if b in hosts {
      var k :| 0 <= k < |nodes| && nodes[k].host == a && Unseen(nodes, k, b);
      var i :| 0 <= i < |hosts| && hosts[i] == a;
      var j :| 0 <= j < |hosts| && hosts[j] == b;
      FirstIsEarlier(nodes, hosts, i, j);
      RoundRobinInTurn(queues, hosts, p, i, j);
    } else {
      NoneSeen(nodes, hosts, b);
    }
  }
}
