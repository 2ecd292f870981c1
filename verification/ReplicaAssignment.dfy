/** Choosing the replicas of every master (redis-trib.rb, the last part of alloc_slots). */
module ReplicaAssignment {
  import opened ClusterNodes
  import opened Extrema

  /** The nodes given to a master and the nodes still spare after that. */
  datatype Share = Share(given: seq<ClusterNode>, left: seq<ClusterNode>)

  /** The nodes given to each master in turn and the nodes still spare after the last one. */
  datatype Pass = Pass(given: seq<seq<ClusterNode>>, left: seq<ClusterNode>)

  /** The first spare node on another host, or simply the first one. */
  function Pick(spares: seq<ClusterNode>, host: string): (p: nat)
    requires spares != []
    ensures p < |spares|
    ensures spares[p].host != host ==> forall k :: 0 <= k < p ==> spares[k].host == host
    ensures spares[p].host == host ==> p == 0 && forall k :: 0 <= k < |spares| ==> spares[k].host == host
  {
    var p := FirstElsewhere(spares, host);
    if p < |spares| then p else 0
  }

  function FirstElsewhere(spares: seq<ClusterNode>, host: string): (p: nat)
    ensures p <= |spares|
    ensures forall k :: 0 <= k < p ==> spares[k].host == host
    ensures p < |spares| ==> spares[p].host != host
  {
    if spares == [] || spares[0].host != host then 0 else 1 + FirstElsewhere(spares[1..], host)
  }

  function Without<T>(s: seq<T>, k: nat): seq<T>
    requires k < |s|
  {
    s[..k] + s[k + 1..]
  }

  /** One pick. */
  function Taken(share: Share, host: string): Share
    requires share.left != []
  {
    var p := Pick(share.left, host);
    Share(share.given + [share.left[p]], Without(share.left, p))
  }

  /** `count` picks for one master, as long as there are spare nodes. */
  function Served(spares: seq<ClusterNode>, host: string, count: nat): (share: Share)
    ensures |share.given| == if count <= |spares| then count else |spares|
    ensures |share.left| == |spares| - |share.given|
  {
    if count == 0 then Share([], spares)
    else
      var before := Served(spares, host, count - 1);
      if before.left == [] then before
      else
        Taken(before, host)
  }

  /** One round over the masters, with `count` picks each. */
  function Round(masters: seq<ClusterNode>, spares: seq<ClusterNode>, count: nat): (pass: Pass)
    ensures |pass.given| == |masters|
  {
    if masters == [] then Pass([], spares)
    else
      var before := Round(masters[..|masters| - 1], spares, count);
      var share := Served(before.left, masters[|masters| - 1].host, count);
      Pass(before.given + [share.given], share.left)
  }

  /** Picks per master in the second round: one at most, and none if no replicas are wanted. */
  function ExtraPicks(replicas: nat): nat {
    if replicas == 0 then 0 else 1
  }

  // ---- Nothing is lost or given twice ----

  lemma WithoutOne<T>(s: seq<T>, k: nat)
    requires k < |s| && Distinct(s)
    ensures Distinct(Without(s, k)) && s[k] !in Without(s, k)
    ensures forall x :: x in s <==> x == s[k] || x in Without(s, k)
  {
    assert s == s[..k] + [s[k]] + s[k + 1..];
  }

  /** The spare nodes are exactly the given and the left ones, without repetition. */
  ghost predicate Parts(spares: seq<ClusterNode>, share: Share) {
    && Distinct(share.given) && Distinct(share.left)
    && (forall n :: n in spares ==> n in share.given || n in share.left)
    && (forall n :: n in share.given ==> n in spares && n !in share.left)
    && (forall n :: n in share.left ==> n in spares)
  }

  lemma PartsStep(spares: seq<ClusterNode>, share: Share, p: nat)
    requires Parts(spares, share) && p < |share.left|
    ensures Parts(spares, Share(share.given + [share.left[p]], Without(share.left, p)))
  {
    WithoutOne(share.left, p);
  }

  lemma {:induction false} ServedIsParts(spares: seq<ClusterNode>, host: string, count: nat)
    requires Distinct(spares)
    ensures Parts(spares, Served(spares, host, count))
  {
    if count > 0 {
      ServedIsParts(spares, host, count - 1);
      var before := Served(spares, host, count - 1);
      if before.left != [] {
        PartsStep(spares, before, Pick(before.left, host));
      }
    }
  }

  /** Every spare node is given to exactly one master, once, or is left. */
  ghost predicate Splits(spares: seq<ClusterNode>, pass: Pass) {
    && Distinct(pass.left)
    && (forall i :: 0 <= i < |pass.given| ==> Distinct(pass.given[i]))
    && (forall n :: n in pass.left ==> n in spares)
    && (forall i, n :: 0 <= i < |pass.given| && n in pass.given[i] ==> n in spares && n !in pass.left)
    && (forall i, j, n :: 0 <= i < j < |pass.given| && n in pass.given[i] ==> n !in pass.given[j])
    && (forall n :: n in spares && n !in pass.left ==> exists i :: 0 <= i < |pass.given| && n in pass.given[i])
  }

  lemma SplitsStep(spares: seq<ClusterNode>, pass: Pass, share: Share)
    requires Splits(spares, pass) && Parts(pass.left, share)
    ensures Splits(spares, Pass(pass.given + [share.given], share.left))
  {
    var after, m := pass.given + [share.given], |pass.given|;
    assert after[m] == share.given && forall i :: 0 <= i < m ==> after[i] == pass.given[i];
  }

  lemma {:induction false} RoundSplits(masters: seq<ClusterNode>, spares: seq<ClusterNode>, count: nat)
    requires Distinct(spares)
    ensures Splits(spares, Round(masters, spares, count))
  {
    if masters != [] {
      var m := |masters| - 1;
      var before := Round(masters[..m], spares, count);
      RoundSplits(masters[..m], spares, count);
      ServedIsParts(before.left, masters[m].host, count);
      SplitsStep(spares, before, Served(before.left, masters[m].host, count));
    }
  }

  // ---- How many replicas a master gets ----

  lemma {:induction false} RoundCounts(masters: seq<ClusterNode>, spares: seq<ClusterNode>, count: nat)
    ensures var pass := Round(masters, spares, count);
      |pass.left| == Max(0, |spares| - |masters| * count) &&
      forall i :: 0 <= i < |masters| ==> |pass.given[i]| == Min(count, Max(0, |spares| - i * count))
  {
    if masters != [] {
      var m := |masters| - 1;
      RoundCounts(masters[..m], spares, count);
      assert |masters| * count == m * count + count;
    }
  }

  lemma NodesDivide(m: nat, spares: nat, replicas: nat)
    requires m == (m + spares) / (replicas + 1)
    ensures spares == m * replicas + (m + spares) % (replicas + 1)
  {
    assert m + spares == m * (replicas + 1) + (m + spares) % (replicas + 1);
    assert m * (replicas + 1) == m * replicas + m;
  }

  lemma EnoughSpares(i: nat, m: nat, replicas: nat) returns (before: nat, all: nat)
    requires i < m
    ensures before == i * replicas && all == m * replicas && before + replicas <= all
  {
    before, all := i * replicas, m * replicas;
    var gap := m - i - 1;
    assert gap * replicas >= 0;
    assert gap * replicas == m * replicas - i * replicas - replicas;
  }

  /** With `nodes` nodes and nodes / (replicas + 1) masters: the first round gives every master what was asked
      for, the second gives one more to as many masters as there are nodes over, in order. */
  lemma EveryMasterIsServed(masters: seq<ClusterNode>, spares: seq<ClusterNode>, replicas: nat)
    requires |masters| == (|masters| + |spares|) / (replicas + 1)
    ensures var over := (|masters| + |spares|) % (replicas + 1);
      var first := Round(masters, spares, replicas);
      var second := Round(masters, first.left, ExtraPicks(replicas));
      && |first.left| == over
      && (forall i :: 0 <= i < |masters| ==> |first.given[i]| == replicas)
      && (forall i :: 0 <= i < |masters| ==> |second.given[i]| == if i < over then 1 else 0)
      && |second.left| == Max(0, over - |masters|)
  {
    var first := Round(masters, spares, replicas);
    NodesDivide(|masters|, |spares|, replicas);
    RoundCounts(masters, spares, replicas);
    forall i | 0 <= i < |masters|
      ensures |first.given[i]| == replicas
    {
      var before, all := EnoughSpares(i, |masters|, replicas);
    }
    RoundCounts(masters, first.left, ExtraPicks(replicas));
  }

  /** All nodes are used exactly when there are no more nodes over than masters. */
  lemma AllNodesAreUsedIff(masters: seq<ClusterNode>, spares: seq<ClusterNode>, replicas: nat)
    requires |masters| == (|masters| + |spares|) / (replicas + 1)
    ensures var first := Round(masters, spares, replicas);
      Round(masters, first.left, ExtraPicks(replicas)).left == []
      <==> (|masters| + |spares|) % (replicas + 1) <= |masters|
  {
    EveryMasterIsServed(masters, spares, replicas);
  }

  /** For example, 19 nodes and 4 replicas leave one node unused. */
  lemma OneOfNineteenIsUnused(masters: seq<ClusterNode>, spares: seq<ClusterNode>)
    requires |masters| == 19 / (4 + 1) && |masters| + |spares| == 19
    ensures var first := Round(masters, spares, 4);
      |masters| == 3 && |Round(masters, first.left, ExtraPicks(4)).left| == 1
  {
    EveryMasterIsServed(masters, spares, 4);
  }

  // ---- Avoiding the master's host ----

  function Elsewhere(nodes: seq<ClusterNode>, host: string): nat {
    if nodes == [] then 0
    else Elsewhere(nodes[..|nodes| - 1], host) + if nodes[|nodes| - 1].host != host then 1 else 0
  }

  lemma {:induction false} ElsewhereOfConcat(a: seq<ClusterNode>, b: seq<ClusterNode>, host: string)
    ensures Elsewhere(a + b, host) == Elsewhere(a, host) + Elsewhere(b, host)
  {
    if b == [] {
      assert a + b == a;
    } else {
      assert (a + b)[..|a + b| - 1] == a + b[..|b| - 1];
      ElsewhereOfConcat(a, b[..|b| - 1], host);
    }
  }

  lemma {:induction false} ElsewhereIsZeroIff(nodes: seq<ClusterNode>, host: string)
    ensures Elsewhere(nodes, host) == 0 <==> forall k :: 0 <= k < |nodes| ==> nodes[k].host == host
  {
    if nodes != [] {
      ElsewhereIsZeroIff(nodes[..|nodes| - 1], host);
    }
  }

  lemma ElsewhereBetween(a: seq<ClusterNode>, n: ClusterNode, b: seq<ClusterNode>, host: string)
    ensures Elsewhere(a + [n] + b, host) == Elsewhere(a + b, host) + Elsewhere([n], host)
  {
    ElsewhereOfConcat(a + [n], b, host);
    ElsewhereOfConcat(a, [n], host);
    ElsewhereOfConcat(a, b, host);
  }

  lemma ElsewhereWithout(nodes: seq<ClusterNode>, p: nat, host: string)
    requires p < |nodes|
    ensures Elsewhere(nodes, host) == Elsewhere(Without(nodes, p), host) + Elsewhere([nodes[p]], host)
  {
    ElsewhereBetween(nodes[..p], nodes[p], nodes[p + 1..], host);
    assert nodes == nodes[..p] + [nodes[p]] + nodes[p + 1..];
  }

  lemma ElsewhereOfOne(n: ClusterNode, host: string)
    ensures Elsewhere([n], host) == if n.host != host then 1 else 0
  {
    assert [n][..0] == [];
  }

  lemma AvoidStep(share: Share, next: Share, host: string)
    requires share.left != []
    requires next == Taken(share, host)
    ensures var gain := if Elsewhere(share.left, host) > 0 then 1 else 0;
      Elsewhere(next.given, host) == Elsewhere(share.given, host) + gain &&
      Elsewhere(next.left, host) == Elsewhere(share.left, host) - gain
  {
    var p := Pick(share.left, host);
    ElsewhereOfConcat(share.given, [share.left[p]], host);
    ElsewhereWithout(share.left, p, host);
    ElsewhereOfOne(share.left[p], host);
    ElsewhereIsZeroIff(share.left, host);
  }

  /** One more pick, if any node is left. */
  function NextShare(share: Share, host: string): Share {
    if share.left == [] then share else Taken(share, host)
  }

  lemma ServedNext(spares: seq<ClusterNode>, host: string, count: nat)
    requires count > 0
    ensures Served(spares, host, count) == NextShare(Served(spares, host, count - 1), host)
  {
  }

  lemma PickAvoidsHost(before: Share, next: Share, host: string)
    requires next == NextShare(before, host)
    ensures var gain := if Elsewhere(before.left, host) > 0 then 1 else 0;
      Elsewhere(next.given, host) == Elsewhere(before.given, host) + gain &&
      Elsewhere(next.left, host) == Elsewhere(before.left, host) - gain
  {
    if before.left != [] {
      AvoidStep(before, next, host);
    }
  }

  lemma ServedGains(spares: seq<ClusterNode>, host: string, count: nat)
    ensures var before, next := Served(spares, host, count), Served(spares, host, count + 1);
      var gain := if Elsewhere(before.left, host) > 0 then 1 else 0;
      Elsewhere(next.given, host) == Elsewhere(before.given, host) + gain &&
      Elsewhere(next.left, host) == Elsewhere(before.left, host) - gain
  {
    ServedNext(spares, host, count + 1);
    PickAvoidsHost(Served(spares, host, count), Served(spares, host, count + 1), host);
  }

  /** Gaining one at each step while there is one left to gain. */
  lemma {:induction false} GainsAddUp(given: nat -> int, left: nat -> int, total: nat, count: nat)
    requires given(0) == 0 && left(0) == total
    requires forall k: nat :: given(k + 1) - given(k) == left(k) - left(k + 1) == if left(k) > 0 then 1 else 0
    ensures given(count) == Min(count, total) && given(count) + left(count) == total
  {
    if count > 0 {
      GainsAddUp(given, left, total, count - 1);
      var k: nat := count - 1;
      assert given(k + 1) - given(k) == left(k) - left(k + 1) == if left(k) > 0 then 1 else 0;
    }
  }

  /** A master gets as many nodes on other hosts as any choice of `count` spare nodes could contain. */
  lemma ServedAvoidsHost(spares: seq<ClusterNode>, host: string, count: nat)
    ensures var share := Served(spares, host, count);
      Elsewhere(share.given, host) == Min(count, Elsewhere(spares, host)) &&
      Elsewhere(share.given, host) + Elsewhere(share.left, host) == Elsewhere(spares, host)
  {
    var given := (k: nat) => Elsewhere(Served(spares, host, k).given, host) as int;
    var left := (k: nat) => Elsewhere(Served(spares, host, k).left, host) as int;
    forall k: nat
      ensures given(k + 1) - given(k) == left(k) - left(k + 1) == if left(k) > 0 then 1 else 0
    {
      ServedGains(spares, host, k);
    }
    GainsAddUp(given, left, Elsewhere(spares, host), count);
  }

  // ---- The loops ----

  lemma {:induction false} ServedStops(spares: seq<ClusterNode>, host: string, fewer: nat, count: nat)
    requires fewer <= count && Served(spares, host, fewer).left == []
    ensures Served(spares, host, count) == Served(spares, host, fewer)
  {
    if fewer < count {
      ServedStops(spares, host, fewer, count - 1);
    }
  }

  method ServeMaster(master: ClusterNode, spares: seq<ClusterNode>, spareCount: nat, count: nat)
    returns (interleaved: seq<ClusterNode>, nodesCount: nat)
    requires Distinct(spares) && spareCount == |spares|
    modifies spares`replicate, spares`dirty
    ensures interleaved == Served(spares, master.host, count).left && nodesCount == |interleaved|
    ensures forall n :: n in spares ==>
      n.replicate == if n in interleaved then old(n.replicate) else Some(master.name)
  {
    interleaved, nodesCount := spares, spareCount;
    var assignedReplicas := 0;
    ghost var share := Share([], spares);
    while assignedReplicas < count
      invariant assignedReplicas <= count && share == Served(spares, master.host, assignedReplicas)
      invariant Parts(spares, share) && interleaved == share.left && nodesCount == |interleaved|
      invariant forall n :: n in spares ==>
        n.replicate == if n in interleaved then old(n.replicate) else Some(master.name)
    {
      if nodesCount == 0 {
        ServedStops(spares, master.host, assignedReplicas, count);
        break;
      }
      var p := Pick(interleaved, master.host);
      var replica := interleaved[p];
      PartsStep(spares, share, p);
      WithoutOne(interleaved, p);
      interleaved := Without(interleaved, p);
      share := Share(share.given + [replica], interleaved);
      replica.SetAsReplica(master.name);
      nodesCount := nodesCount - 1;
      assignedReplicas := assignedReplicas + 1;
    }
  }

  /** Every node given to a master replicates it. */
  ghost predicate Following(masters: seq<ClusterNode>, given: seq<seq<ClusterNode>>)
    requires |given| == |masters|
    reads set i, n | 0 <= i < |given| && n in given[i] :: n
  {
    forall i, n :: 0 <= i < |masters| && n in given[i] ==> n.replicate == Some(masters[i].name)
  }

  lemma FollowingStep(masters: seq<ClusterNode>, given: seq<seq<ClusterNode>>, master: ClusterNode,
                      nodes: seq<ClusterNode>)
    requires |given| == |masters| && Following(masters, given)
    requires forall n :: n in nodes ==> n.replicate == Some(master.name)
    ensures Following(masters + [master], given + [nodes])
  {
    var after := given + [nodes];
    assert after[|masters|] == nodes && forall i :: 0 <= i < |masters| ==> after[i] == given[i];
  }

  /** One master after others: the nodes given before are not touched. */
  method ServeNext(ghost before: seq<ClusterNode>, ghost pass: Pass, master: ClusterNode, spares: seq<ClusterNode>,
                   spareCount: nat, count: nat)
    returns (interleaved: seq<ClusterNode>, nodesCount: nat)
    requires Distinct(spares) && spareCount == |spares|
    requires |pass.given| == |before| && Following(before, pass.given)
    requires forall i, n :: 0 <= i < |before| && n in pass.given[i] ==> n !in spares
    modifies spares`replicate, spares`dirty
    ensures interleaved == Served(spares, master.host, count).left && nodesCount == |interleaved|
    ensures Following(before + [master], pass.given + [Served(spares, master.host, count).given])
    ensures forall n :: n in interleaved ==> n in spares
    ensures forall n :: n in spares && n in interleaved ==> n.replicate == old(n.replicate)
  {
    ServedIsParts(spares, master.host, count);
    interleaved, nodesCount := ServeMaster(master, spares, spareCount, count);
    FollowingStep(before, pass.given, master, Served(spares, master.host, count).given);
  }

  method ServeMasters(masters: seq<ClusterNode>, spares: seq<ClusterNode>, spareCount: nat, count: nat)
    returns (interleaved: seq<ClusterNode>, nodesCount: nat)
    requires Distinct(spares) && spareCount == |spares|
    modifies spares`replicate, spares`dirty
    ensures var pass := Round(masters, spares, count);
      && interleaved == pass.left && nodesCount == |interleaved| && Splits(spares, pass)
      && Following(masters, pass.given)
    ensures forall n :: n in spares && n in interleaved ==> n.replicate == old(n.replicate)
  {
    interleaved, nodesCount := spares, spareCount;
    for k := 0 to |masters|
      invariant interleaved == Round(masters[..k], spares, count).left && nodesCount == |interleaved|
      invariant Following(masters[..k], Round(masters[..k], spares, count).given)
      invariant forall n :: n in spares && n in interleaved ==> n.replicate == old(n.replicate)
    {
      assert masters[..k + 1][..k] == masters[..k];
      assert masters[..k + 1] == masters[..k] + [masters[k]];
      ghost var pass := Round(masters[..k], spares, count);
      RoundSplits(masters[..k], spares, count);
      assert forall j :: 0 <= j < |interleaved| ==> interleaved[j] in spares;
      interleaved, nodesCount := ServeNext(masters[..k], pass, masters[k], interleaved, nodesCount, count);
    }
    assert masters[..|masters|] == masters;
    RoundSplits(masters, spares, count);
  }

  /** The two rounds over the masters, requested and unused. */
  method AssignReplicas(masters: seq<ClusterNode>, spares: seq<ClusterNode>, replicas: nat)
    returns (interleaved: seq<ClusterNode>)
    requires Distinct(spares)
    modifies spares`replicate, spares`dirty
    ensures var first := Round(masters, spares, replicas);
      var second := Round(masters, first.left, ExtraPicks(replicas));
      && interleaved == second.left
      && Following(masters, first.given) && Following(masters, second.given)
    ensures forall n :: n in interleaved ==> n in spares
    ensures forall n :: n in spares && n in interleaved ==> n.replicate == old(n.replicate)
    ensures forall n :: n in spares && n !in interleaved ==> FollowsOne(masters, n)
    ensures NamesDiffer(masters) && (forall n :: n in spares ==> old(n.replicate) == None) ==>
      var first := Round(masters, spares, replicas);
      var second := Round(masters, first.left, ExtraPicks(replicas));
      forall i :: 0 <= i < |masters| ==>
        |ReplicasOf(spares, masters[i].name)| == |first.given[i]| + |second.given[i]|
  {
    var nodesCount;
    interleaved, nodesCount := ServeMasters(masters, spares, |spares|, replicas);
    ghost var first := Round(masters, spares, replicas);
    assert forall j :: 0 <= j < |interleaved| ==> interleaved[j] in spares;
    interleaved, nodesCount := ServeMasters(masters, interleaved, nodesCount, ExtraPicks(replicas));
    ghost var second := Round(masters, first.left, ExtraPicks(replicas));
    GivenFollow(masters, spares, first);
    GivenFollow(masters, first.left, second);
    if NamesDiffer(masters) && forall n :: n in spares ==> old(n.replicate) == None {
      AllCounted(masters, spares, first, second);
    }
  }

  predicate FollowsOne(masters: seq<ClusterNode>, n: ClusterNode)
    reads n`replicate
  {
    exists i :: 0 <= i < |masters| && n.replicate == Some(masters[i].name)
  }

  lemma GivenFollow(masters: seq<ClusterNode>, spares: seq<ClusterNode>, pass: Pass)
    requires |pass.given| == |masters| && Splits(spares, pass) && Following(masters, pass.given)
    ensures forall n :: n in spares && n !in pass.left ==> FollowsOne(masters, n)
  {
    forall n | n in spares && n !in pass.left
      ensures FollowsOne(masters, n)
    {
      var i :| 0 <= i < |pass.given| && n in pass.given[i];
      assert n.replicate == Some(masters[i].name);
    }
  }

  // ---- How many nodes replicate a master in the end ----

  /** The nodes that replicate the one of a given name. */
  ghost function ReplicasOf(nodes: seq<ClusterNode>, name: string): set<ClusterNode>
    reads nodes`replicate
  {
    set n | n in nodes && n.replicate == Some(name)
  }

  predicate NamesDiffer(nodes: seq<ClusterNode>) {
    forall i, j :: 0 <= i < j < |nodes| ==> nodes[i].name != nodes[j].name
  }

  lemma {:induction false} DistinctSize<T>(s: seq<T>)
    requires Distinct(s)
    ensures |set x | x in s| == |s|
  {
    if s == [] {
      assert (set x | x in s) == {};
    } else {
      var k := |s| - 1;
      DistinctSize(s[..k]);
      assert s == s[..k] + [s[k]] && s[k] !in s[..k];
      assert (set x | x in s) == (set x | x in s[..k]) + {s[k]};
    }
  }

  /** In both rounds, master `i` is given different nodes. */
  lemma BothGiven(masters: seq<ClusterNode>, spares: seq<ClusterNode>, first: Pass, second: Pass, i: nat)
    requires |first.given| == |second.given| == |masters| && i < |masters|
    requires Splits(spares, first) && Splits(first.left, second)
    ensures Distinct(first.given[i] + second.given[i])
    ensures forall n :: n in first.given[i] + second.given[i] ==> n in spares
  {
    var a, b := first.given[i], second.given[i];
    forall n | n in b
      ensures n !in a && n in spares
    {
      assert n in first.left;
    }
    DistinctAppend(a, b);
  }

  lemma OnlyItsOwnFollow(masters: seq<ClusterNode>, spares: seq<ClusterNode>, first: Pass, second: Pass, i: nat,
                         n: ClusterNode)
    requires |first.given| == |second.given| == |masters| && i < |masters| && NamesDiffer(masters)
    requires Splits(spares, first) && Splits(first.left, second)
    requires Following(masters, first.given) && Following(masters, second.given)
    requires n in spares && n !in second.left && n.replicate == Some(masters[i].name)
    ensures n in first.given[i] + second.given[i]
  {
    if n in first.left {
      var j :| 0 <= j < |masters| && n in second.given[j];
      assert masters[j].name == masters[i].name;
    } else {
      var j :| 0 <= j < |masters| && n in first.given[j];
      assert masters[j].name == masters[i].name;
    }
  }

  /** After both rounds a master has as many replicas as it was given nodes. */
  lemma ReplicasCounted(masters: seq<ClusterNode>, spares: seq<ClusterNode>, first: Pass, second: Pass, i: nat)
    requires |first.given| == |second.given| == |masters| && i < |masters| && NamesDiffer(masters)
    requires Splits(spares, first) && Splits(first.left, second)
    requires Following(masters, first.given) && Following(masters, second.given)
    requires forall n :: n in spares && n in second.left ==> n.replicate == None
    ensures |ReplicasOf(spares, masters[i].name)| == |first.given[i]| + |second.given[i]|
  {
    var both := first.given[i] + second.given[i];
    BothGiven(masters, spares, first, second, i);
    DistinctSize(both);
    forall n | n in spares && n.replicate == Some(masters[i].name)
      ensures n in both
    {
      OnlyItsOwnFollow(masters, spares, first, second, i, n);
    }
    assert ReplicasOf(spares, masters[i].name) == set n | n in both;
  }

  lemma AllCounted(masters: seq<ClusterNode>, spares: seq<ClusterNode>, first: Pass, second: Pass)
    requires |first.given| == |second.given| == |masters| && NamesDiffer(masters)
    requires Splits(spares, first) && Splits(first.left, second)
    requires Following(masters, first.given) && Following(masters, second.given)
    requires forall n :: n in spares && n in second.left ==> n.replicate == None
    ensures forall i :: 0 <= i < |masters| ==>
      |ReplicasOf(spares, masters[i].name)| == |first.given[i]| + |second.given[i]|
  {
    forall i | 0 <= i < |masters|
      ensures |ReplicasOf(spares, masters[i].name)| == |first.given[i]| + |second.given[i]|
    {
      ReplicasCounted(masters, spares, first, second, i);
    }
  }
}
