/** Laying out a new cluster (redis-trib.rb, alloc_slots as a whole): spread the nodes over the hosts, make the
    first ones masters, divide the slots among them and make the others their replicas. */
module ClusterCreation {
  import opened ClusterNodes
  import Interleaving
  import Spreading
  import SlotAllocation
  import ReplicaAssignment
  import SlotRanges

  // ---- The spread nodes are a permutation ----

  lemma CountSnoc<T>(s: seq<T>, last: T, x: T)
    ensures multiset(s + [last])[x] == multiset(s)[x] + if x == last then 1 else 0
  {
    assert multiset(s + [last]) == multiset(s) + multiset([last]);
  }

  lemma {:induction false} CountOnHost(nodes: seq<ClusterNode>, n: ClusterNode)
    ensures multiset(Interleaving.OnHost(nodes, n.host))[n] == multiset(nodes)[n]
  {
    if nodes != [] {
      var k := |nodes| - 1;
      CountOnHost(nodes[..k], n);
      assert nodes == nodes[..k] + [nodes[k]];
      CountSnoc(nodes[..k], nodes[k], n);
      if nodes[k].host == n.host {
        CountSnoc(Interleaving.OnHost(nodes[..k], n.host), nodes[k], n);
      } else {
        assert Interleaving.OnHost(nodes, n.host) == Interleaving.OnHost(nodes[..k], n.host);
      }
    }
  }

  /** Having the same nodes on every host is having the same nodes. */
  lemma SameOnEveryHost(a: seq<ClusterNode>, b: seq<ClusterNode>)
    requires forall host :: Interleaving.OnHost(a, host) == Interleaving.OnHost(b, host)
    ensures multiset(a) == multiset(b)
  {
    forall n: ClusterNode
      ensures multiset(a)[n] == multiset(b)[n]
    {
      assert Interleaving.OnHost(a, n.host) == Interleaving.OnHost(b, n.host);
      CountOnHost(a, n);
      CountOnHost(b, n);
    }
  }

  lemma TwoAreNotDistinct<T>(s: seq<T>, i: nat, j: nat)
    requires i < j < |s| && s[i] == s[j]
    ensures multiset(s)[s[i]] >= 2
  {
    assert s == s[..j] + [s[j]] + s[j + 1..];
    assert s[i] in s[..j];
  }

  lemma {:induction false} DistinctCounts<T>(s: seq<T>, x: T)
    requires Distinct(s)
    ensures multiset(s)[x] <= 1
  {
    if s != [] {
      var k := |s| - 1;
      DistinctCounts(s[..k], x);
      assert s == s[..k] + [s[k]];
      if x == s[k] {
        assert x !in s[..k];
      }
    }
  }

  lemma PermutationIsDistinct<T>(a: seq<T>, b: seq<T>)
    requires multiset(a) == multiset(b) && Distinct(b)
    ensures Distinct(a)
  {
    forall i, j | 0 <= i < j < |a|
      ensures a[i] != a[j]
    {
      if a[i] == a[j] {
        TwoAreNotDistinct(a, i, j);
        DistinctCounts(b, a[i]);
      }
    }
  }

  // ---- The whole layout ----

  /** `check_create_parameters` asks for three masters, and says how many nodes that takes. */
  lemma ThreeMastersIff(nodes: nat, replicas: nat)
    ensures nodes / (replicas + 1) >= 3 <==> nodes >= 3 * (replicas + 1)
  {
    var d := replicas + 1;
    var q := nodes / d;
    assert nodes == q * d + nodes % d;
    if q >= 3 {
      var more := q - 3;
      assert more * d >= 0 && more * d == q * d - 3 * d;
    } else {
      var fewer := 2 - q;
      assert fewer * d >= 0 && fewer * d == 2 * d - q * d;
    }
  }

  /** Each master serves its own range of slots and nothing else. */
  ghost predicate ServesRanges(masters: seq<ClusterNode>, rounding: SlotAllocation.Rounding)
    reads masters`slots
  {
    forall i :: 0 <= i < |masters| ==> masters[i].slots == SlotAllocation.MasterSlots(|masters|, rounding, i)
  }

  predicate IsServed(masters: seq<ClusterNode>, slot: nat)
    reads masters`slots
  {
    exists i :: 0 <= i < |masters| && slot in masters[i].slots
  }

  /** Every slot of the cluster is served by exactly one of the masters, and they serve no other slot. */
  ghost predicate Covered(masters: seq<ClusterNode>)
    reads masters`slots
  {
    && (forall slot: nat :: slot < SlotRanges.HASH_SLOTS <==> IsServed(masters, slot))
    && (forall i, j :: 0 <= i < j < |masters| ==> masters[i].slots !! masters[j].slots)
  }

  lemma RangesCover(masters: seq<ClusterNode>, rounding: SlotAllocation.Rounding)
    requires 0 < |masters| <= SlotRanges.HASH_SLOTS && SlotAllocation.Accurate(|masters|, rounding)
    requires ServesRanges(masters, rounding)
    ensures Covered(masters)
  {
    var count := |masters|;
    SlotAllocation.SlotsAreTiled(count, rounding);
    forall i, slot: nat | 0 <= i < count
      ensures slot in masters[i].slots <==> SlotAllocation.Owns(count, rounding, i, slot)
    {
      SlotRanges.SpanContains(SlotAllocation.FirstSlot(count, rounding, i), SlotAllocation.LastSlot(count, rounding, i),
                              slot);
    }
    forall slot: nat
      ensures IsServed(masters, slot) <==> SlotAllocation.IsAssigned(count, rounding, slot)
    {
      if IsServed(masters, slot) {
        var i :| 0 <= i < count && slot in masters[i].slots;
        assert SlotAllocation.Owns(count, rounding, i, slot);
      }
    }
    forall i, j | 0 <= i < j < count
      ensures masters[i].slots !! masters[j].slots
    {
      forall slot | slot in masters[i].slots
        ensures slot !in masters[j].slots
      {
        assert SlotAllocation.Owns(count, rounding, i, slot);
      }
    }
  }

  /** The nodes left unused, if there are more over than masters. */
  function Unused(nodes: nat, replicas: nat): nat {
    var over := nodes % (replicas + 1) - nodes / (replicas + 1);
    if over > 0 then over else 0
  }

  /** As far as the hosts have nodes, the masters are spread evenly: no host has two more of them than another that has
      a node left. Each host gives its first nodes, and an earlier host gives at least as many as a later one. */
  ghost predicate EvenlySpread(nodes: seq<ClusterNode>, masters: seq<ClusterNode>) {
    && (forall host :: Interleaving.OnHost(masters, host) <= Interleaving.OnHost(nodes, host))
    && (forall a, b ::
          || |Interleaving.OnHost(masters, a)| <= |Interleaving.OnHost(masters, b)| + 1
          || Interleaving.OnHost(masters, b) == Interleaving.OnHost(nodes, b))
    && (forall a, b :: Interleaving.Precedes(nodes, a, b) ==>
          || |Interleaving.OnHost(masters, a)| >= |Interleaving.OnHost(masters, b)|
          || Interleaving.OnHost(masters, a) == Interleaving.OnHost(nodes, a))
  }

  lemma FirstNodes(nodes: seq<ClusterNode>, masters: seq<ClusterNode>, spares: seq<ClusterNode>, host: string)
    requires Spreading.IsSpread(nodes, masters + spares)
    ensures Interleaving.OnHost(masters, host) <= Interleaving.OnHost(nodes, host)
    ensures Interleaving.HostShare(masters + spares, |masters|, host) == |Interleaving.OnHost(masters, host)|
  {
    Interleaving.OnHostAppend(masters, spares, host);
    assert (masters + spares)[..|masters|] == masters;
  }

  lemma MastersAreSpread(nodes: seq<ClusterNode>, masters: seq<ClusterNode>, spares: seq<ClusterNode>)
    requires Spreading.IsSpread(nodes, masters + spares)
    ensures EvenlySpread(nodes, masters)
  {
    var p := |masters|;
    assert Spreading.BalancedAt(nodes, masters + spares, p) && Spreading.InTurnAt(nodes, masters + spares, p);
    forall host
      ensures Interleaving.OnHost(masters, host) <= Interleaving.OnHost(nodes, host)
      ensures Interleaving.HostShare(masters + spares, p, host) == |Interleaving.OnHost(masters, host)|
    {
      FirstNodes(nodes, masters, spares, host);
    }
  }

  /** The masters are the first of the interleaved nodes; together with the spare ones they are a permutation. */
  method ChooseMasters(nodes: seq<ClusterNode>, mastersCount: nat)
    returns (masters: seq<ClusterNode>, spares: seq<ClusterNode>)
    requires Distinct(nodes) && 0 < mastersCount <= |nodes|
    ensures multiset(masters + spares) == multiset(nodes)
    ensures Distinct(masters + spares)
    ensures forall n :: n in nodes <==> n in masters || n in spares
    ensures |masters| == mastersCount && |masters| + |spares| == |nodes|
    ensures Spreading.IsSpread(nodes, masters + spares) && EvenlySpread(nodes, masters)
  {
    var interleaved := Spreading.Spread(nodes);
    masters, spares := interleaved[..mastersCount], interleaved[mastersCount..];
    assert interleaved == masters + spares;
    MastersAreSpread(nodes, masters, spares);
    SameOnEveryHost(interleaved, nodes);
    PermutationIsDistinct(interleaved, nodes);
    assert forall n :: n in nodes <==> n in multiset(interleaved);
  }

  /** The nodes given to a master, the requested replicas and then the extra ones. */
  function GivenTo(masters: seq<ClusterNode>, spares: seq<ClusterNode>, replicas: nat, i: nat): seq<ClusterNode>
    requires i < |masters|
  {
    var first := ReplicaAssignment.Round(masters, spares, replicas);
    first.given[i] + ReplicaAssignment.Round(masters, first.left, ReplicaAssignment.ExtraPicks(replicas)).given[i]
  }

  /** The nodes given to nobody. */
  function GivenToNone(masters: seq<ClusterNode>, spares: seq<ClusterNode>, replicas: nat): seq<ClusterNode> {
    var first := ReplicaAssignment.Round(masters, spares, replicas);
    ReplicaAssignment.Round(masters, first.left, ReplicaAssignment.ExtraPicks(replicas)).left
  }

  /** How many replicas master `i` ends with: the number asked for, and one more for each of the first masters while
      there are nodes over. */
  function ReplicaCount(nodes: nat, replicas: nat, i: nat): nat {
    replicas + if i < nodes % (replicas + 1) then 1 else 0
  }

  /** Lays out fresh nodes. Masters replicate nobody and cover the slots; every other node has no slots and, but
      for the unused ones, replicates a master. */
  method AllocSlots(nodes: seq<ClusterNode>, replicas: nat, rounding: SlotAllocation.Rounding)
    returns (masters: seq<ClusterNode>, unused: seq<ClusterNode>, ghost spares: seq<ClusterNode>)
    requires Distinct(nodes) && |nodes| / (replicas + 1) >= 1
    requires forall n :: n in nodes ==> n.slots == {} && n.replicate == None
    modifies nodes`slots, nodes`replicate, nodes`dirty
    ensures |masters| == |nodes| / (replicas + 1) && |unused| == Unused(|nodes|, replicas)
    ensures Spreading.IsSpread(nodes, masters + spares) && EvenlySpread(nodes, masters)
    ensures unused == GivenToNone(masters, spares, replicas)
    ensures forall i, n :: 0 <= i < |masters| && n in GivenTo(masters, spares, replicas, i) ==>
      n.replicate == Some(masters[i].name)
    ensures forall n :: n in masters || n in unused ==> n in nodes && n.replicate == None
    ensures forall n :: n in nodes && n !in masters && n !in unused ==> ReplicaAssignment.FollowsOne(masters, n)
    ensures ReplicaAssignment.NamesDiffer(masters) ==> forall i :: 0 <= i < |masters| ==>
      |ReplicaAssignment.ReplicasOf(nodes, masters[i].name)| == ReplicaCount(|nodes|, replicas, i)
    ensures forall n :: n in nodes && n !in masters ==> n.slots == {}
    ensures |masters| <= SlotRanges.HASH_SLOTS && SlotAllocation.Accurate(|masters|, rounding) ==> Covered(masters)
  {
    var mastersCount := |nodes| / (replicas + 1);
    QuotientFits(|nodes|, replicas + 1);
    var others;
    masters, others := ChooseMasters(nodes, mastersCount);
    spares := others;
    DistinctAppend(masters, spares);
    assert forall j :: 0 <= j < |masters| ==> masters[j] in nodes;
    assert forall j :: 0 <= j < |spares| ==> spares[j] in nodes;
    unused := MakeRoles(masters, others, replicas, rounding);
    forall i | 0 <= i < |masters|
      ensures ReplicaAssignment.ReplicasOf(nodes, masters[i].name)
           == ReplicaAssignment.ReplicasOf(spares, masters[i].name)
    {
      SameReplicas(nodes, masters, spares, masters[i].name);
    }
    if |masters| <= SlotRanges.HASH_SLOTS && SlotAllocation.Accurate(|masters|, rounding) {
      RangesCover(masters, rounding);
    }
  }

  lemma QuotientFits(n: nat, d: nat)
    requires d > 0
    ensures n / d <= n
  {
    var q, k := n / d, d - 1;
    assert n == q * d + n % d;
    assert q * k >= 0;
    assert q * d == q * k + q;
  }

  lemma SameReplicas(nodes: seq<ClusterNode>, masters: seq<ClusterNode>, spares: seq<ClusterNode>, name: string)
    requires forall n :: n in nodes <==> n in masters || n in spares
    requires forall n :: n in masters ==> n.replicate == None
    ensures ReplicaAssignment.ReplicasOf(nodes, name) == ReplicaAssignment.ReplicasOf(spares, name)
  {
  }

  method MakeReplicas(masters: seq<ClusterNode>, spares: seq<ClusterNode>, replicas: nat)
    returns (unused: seq<ClusterNode>)
    requires Distinct(spares) && |masters| == (|masters| + |spares|) / (replicas + 1)
    requires forall n :: n in spares ==> n.replicate == None
    modifies spares`replicate, spares`dirty
    ensures |unused| == Unused(|masters| + |spares|, replicas) && forall n :: n in unused ==> n in spares
    ensures unused == GivenToNone(masters, spares, replicas)
    ensures forall i, n :: 0 <= i < |masters| && n in GivenTo(masters, spares, replicas, i) ==>
      n.replicate == Some(masters[i].name)
    ensures forall n :: n in unused ==> n.replicate == None
    ensures forall n :: n in spares && n !in unused ==> ReplicaAssignment.FollowsOne(masters, n)
    ensures ReplicaAssignment.NamesDiffer(masters) ==> forall i :: 0 <= i < |masters| ==>
      |ReplicaAssignment.ReplicasOf(spares, masters[i].name)| == ReplicaCount(|masters| + |spares|, replicas, i)
  {
    ReplicaAssignment.EveryMasterIsServed(masters, spares, replicas);
    unused := ReplicaAssignment.AssignReplicas(masters, spares, replicas);
  }

  method ServeSlots(masters: seq<ClusterNode>, rounding: SlotAllocation.Rounding)
    requires Distinct(masters) && masters != [] && forall n :: n in masters ==> n.slots == {}
    modifies masters`slots, masters`dirty
    ensures ServesRanges(masters, rounding)
  {
    SlotAllocation.AllocateSlots(masters, rounding);
  }

  /** Slots for the masters, and the other nodes as their replicas. */
  method MakeRoles(masters: seq<ClusterNode>, spares: seq<ClusterNode>, replicas: nat,
                   rounding: SlotAllocation.Rounding)
    returns (unused: seq<ClusterNode>)
    requires Distinct(masters + spares) && masters != []
    requires |masters| == (|masters| + |spares|) / (replicas + 1)
    requires forall n :: n in masters || n in spares ==> n.slots == {} && n.replicate == None
    modifies masters`slots, masters`dirty, spares`replicate, spares`dirty
    ensures |unused| == Unused(|masters| + |spares|, replicas) && forall n :: n in unused ==> n in spares
    ensures unused == GivenToNone(masters, spares, replicas)
    ensures forall i, n :: 0 <= i < |masters| && n in GivenTo(masters, spares, replicas, i) ==>
      n.replicate == Some(masters[i].name)
    ensures forall n :: n in masters || n in unused ==> n.replicate == None
    ensures forall n :: n in spares && n !in unused ==> ReplicaAssignment.FollowsOne(masters, n)
    ensures ReplicaAssignment.NamesDiffer(masters) ==> forall i :: 0 <= i < |masters| ==>
      |ReplicaAssignment.ReplicasOf(spares, masters[i].name)| == ReplicaCount(|masters| + |spares|, replicas, i)
    ensures forall n :: n in spares ==> n.slots == {}
    ensures ServesRanges(masters, rounding)
  {
    DistinctAppend(masters, spares);
    ServeSlots(masters, rounding);
    unused := MakeReplicas(masters, spares, replicas);
  }
}
