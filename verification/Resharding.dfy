/** The plan for moving slots to another node (redis-trib.rb, compute_reshard_table). Shares are real numbers
    plus an arbitrary rounding error; exact arithmetic is the case without error. */
module Resharding {
  import opened ClusterNodes
  import opened SlotRanges

  datatype Move = Move(source: ClusterNode, slot: nat)

  function Ceil(x: real): int {
    -((-x).Floor)
  }

  /** How many slots source `i` has to give, if it has `size` of the `total` slots. */
  function Quota(numslots: int, total: nat, i: nat, size: nat, error: real): int
    requires total > 0
  {
    var n := numslots as real / total as real * size as real + error;
    if i == 0 then Ceil(n) else n.Floor
  }

  /** Ruby's `keys[(0...n)]`: a negative end counts from the back. */
  function Slice<T>(keys: seq<T>, n: int): seq<T> {
    var end := if n < 0 then |keys| + n else n;
    if end <= 0 then [] else if end < |keys| then keys[..end] else keys
  }

  function Sizes(sources: seq<ClusterNode>): seq<nat>
    reads sources
  {
    seq(|sources|, i requires 0 <= i < |sources| reads sources => |sources[i].slots|)
  }

  function Sum(sizes: seq<nat>): nat {
    if sizes == [] then 0 else Sum(sizes[..|sizes| - 1]) + sizes[|sizes| - 1]
  }

  function TotalSlots(sources: seq<ClusterNode>): nat
    reads sources
  {
    Sum(Sizes(sources))
  }

  /** The slots source `i` has to give. */
  function Offer(slots: set<nat>, numslots: int, total: nat, i: nat, error: real): seq<nat>
    requires total > 0
  {
    Slice(SortedKeys(slots), Quota(numslots, total, i, |slots|, error))
  }

  function Offers(sources: seq<ClusterNode>, numslots: int, error: nat -> real): (offers: seq<seq<nat>>)
    requires TotalSlots(sources) > 0
    reads sources
    ensures |offers| == |sources|
  {
    var total := TotalSlots(sources);
    seq(|sources|, i requires 0 <= i < |sources| reads sources =>
      Offer(sources[i].slots, numslots, total, i, error(i)))
  }

  /** The guard on the length of `moved` lets `room` more slots pass. */
  function Limited(slots: seq<nat>, room: int): seq<nat> {
    if room <= 0 then [] else if room < |slots| then slots[..room] else slots
  }

  /** How many slots the first `i` sources give. */
  function Moved(offers: seq<seq<nat>>, numslots: int, i: nat): nat
    requires i <= |offers|
    decreases i, 0
  {
    if i == 0 then 0 else Moved(offers, numslots, i - 1) + |Given(offers, numslots, i - 1)|
  }

  /** The slots source `i` gives. */
  function Given(offers: seq<seq<nat>>, numslots: int, i: nat): seq<nat>
    requires i < |offers|
    decreases i, 1
  {
    Limited(offers[i], numslots - Moved(offers, numslots, i))
  }

  function Moves(source: ClusterNode, slots: seq<nat>): seq<Move> {
    seq(|slots|, k requires 0 <= k < |slots| => Move(source, slots[k]))
  }

  /** The moves planned for the first `i` sources, in the order they are visited. */
  function Plan(sources: seq<ClusterNode>, offers: seq<seq<nat>>, numslots: int, i: nat): (moves: seq<Move>)
    requires i <= |sources| == |offers|
    ensures |moves| == Moved(offers, numslots, i)
  {
    if i == 0 then []
    else Plan(sources, offers, numslots, i - 1) + Moves(sources[i - 1], Given(offers, numslots, i - 1))
  }

  /** The whole plan for sources in a given order. */
  function Table(sources: seq<ClusterNode>, numslots: int, error: nat -> real): seq<Move>
    requires TotalSlots(sources) > 0
    reads sources
  {
    Plan(sources, Offers(sources, numslots, error), numslots, |sources|)
  }

  // ---- The sort ----

  ghost predicate BiggestFirst(sources: seq<ClusterNode>)
    reads sources
  {
    forall i, j :: 0 <= i < j < |sources| ==> |sources[i].slots| >= |sources[j].slots|
  }

  ghost predicate IsSortOf(sorted: seq<ClusterNode>, sources: seq<ClusterNode>)
    reads sorted
  {
    multiset(sorted) == multiset(sources) && BiggestFirst(sorted)
  }

  /** The order of sources of the same size is left open. */
  method SortBySize(sources: seq<ClusterNode>) returns (sorted: seq<ClusterNode>)
    ensures IsSortOf(sorted, sources)
  {
    if sources == [] {
      return [];
    }
    var rest := SortBySize(sources[1..]);
    var p := 0;
    while p < |rest| && |rest[p].slots| > |sources[0].slots|
      invariant p <= |rest| && forall k :: 0 <= k < p ==> |rest[k].slots| > |sources[0].slots|
    {
      p := p + 1;
    }
    sorted := rest[..p] + [sources[0]] + rest[p..];
    InsertionSorts(rest, p, sources[0]);
    InsertionPermutes(rest, p, sources);
  }

  lemma InsertionSorts(rest: seq<ClusterNode>, p: nat, s: ClusterNode)
    requires BiggestFirst(rest) && p <= |rest|
    requires forall k :: 0 <= k < p ==> |rest[k].slots| > |s.slots|
    requires p < |rest| ==> |rest[p].slots| <= |s.slots|
    ensures BiggestFirst(rest[..p] + [s] + rest[p..])
  {
    var sorted := rest[..p] + [s] + rest[p..];
    assert forall k :: 0 <= k < p ==> sorted[k] == rest[k];
    assert sorted[p] == s;
    assert forall k :: p < k < |sorted| ==> sorted[k] == rest[k - 1];
  }

  lemma InsertionPermutes<T>(rest: seq<T>, p: nat, all: seq<T>)
    requires all != [] && multiset(rest) == multiset(all[1..]) && p <= |rest|
    ensures multiset(rest[..p] + [all[0]] + rest[p..]) == multiset(all)
  {
    assert all == [all[0]] + all[1..] && rest == rest[..p] + rest[p..];
  }

  lemma {:induction false} SumIsZeroIff(sizes: seq<nat>)
    ensures Sum(sizes) == 0 <==> forall i :: 0 <= i < |sizes| ==> sizes[i] == 0
  {
    if sizes != [] {
      SumIsZeroIff(sizes[..|sizes| - 1]);
    }
  }

  lemma TotalIsZeroIff(sources: seq<ClusterNode>)
    ensures TotalSlots(sources) == 0 <==> forall s :: s in sources ==> s.slots == {}
  {
    SumIsZeroIff(Sizes(sources));
    forall s | s in sources
      ensures exists i :: 0 <= i < |sources| && Sizes(sources)[i] == |s.slots|
    {
      var i :| 0 <= i < |sources| && sources[i] == s;
      assert Sizes(sources)[i] == |s.slots|;
    }
    forall i | 0 <= i < |sources|
      ensures sources[i] in sources && Sizes(sources)[i] == |sources[i].slots|
    {
    }
  }

  // ---- The loops ----

  lemma SameNodes<T>(a: seq<T>, b: seq<T>)
    requires multiset(a) == multiset(b)
    ensures |a| == |b| && forall x :: x in a <==> x in b
  {
    assert |multiset(a)| == |a| && |multiset(b)| == |b|;
    assert forall x :: x in a <==> x in multiset(a);
    assert forall x :: x in b <==> x in multiset(b);
  }

  /** The loop over the slots one source offers. */
  method TakeSlots(s: ClusterNode, slots: seq<nat>, numslots: int, before: seq<Move>) returns (moved: seq<Move>)
    ensures moved == before + Moves(s, Limited(slots, numslots - |before|))
  {
    moved := before;
    for k := 0 to |slots|
      invariant moved == before + Moves(s, Limited(slots[..k], numslots - |before|))
    {
      if |moved| < numslots {
        moved := moved + [Move(s, slots[k])];
      }
    }
    assert slots[..|slots|] == slots;
  }

  /** The loop over the sources. */
  method TakeOffers(sorted: seq<ClusterNode>, numslots: int, error: nat -> real, total: nat,
                    ghost offers: seq<seq<nat>>)
    returns (moved: seq<Move>)
    requires total > 0 && |offers| == |sorted|
    requires forall i :: 0 <= i < |sorted| ==> offers[i] == Offer(sorted[i].slots, numslots, total, i, error(i))
    ensures moved == Plan(sorted, offers, numslots, |sorted|)
  {
    moved := [];
    for i := 0 to |sorted|
      invariant moved == Plan(sorted, offers, numslots, i)
    {
      var offer := Offer(sorted[i].slots, numslots, total, i, error(i));
      assert offer == offers[i];
      moved := TakeSlots(sorted[i], offer, numslots, moved);
    }
  }

  /** The plan for sources in a given order. None stands for the FloatDomainError of rounding 0 / 0, which the
      first source runs into. */
  method PlanInOrder(sorted: seq<ClusterNode>, numslots: int, error: nat -> real) returns (r: Option<seq<Move>>)
    ensures r == None <==> sorted != [] && TotalSlots(sorted) == 0
    ensures sorted == [] ==> r == Some([])
    ensures TotalSlots(sorted) > 0 ==> r == Some(Table(sorted, numslots, error))
  {
    var total := TotalSlots(sorted);
    if total == 0 {
      return if sorted == [] then Some([]) else None;
    }
    var moved := TakeOffers(sorted, numslots, error, total, Offers(sorted, numslots, error));
    r := Some(moved);
  }

  method ComputeReshardTable(sources: seq<ClusterNode>, numslots: int, error: nat -> real)
    returns (r: Option<seq<Move>>)
    ensures r == None <==> sources != [] && forall s :: s in sources ==> s.slots == {}
    ensures sources == [] ==> r == Some([])
    ensures r.Some? && sources != [] ==> exists sorted ::
      IsSortOf(sorted, sources) && TotalSlots(sorted) > 0 && r.value == Table(sorted, numslots, error)
  {
    var sorted := SortBySize(sources);
    SameNodes(sorted, sources);
    TotalIsZeroIff(sorted);
    r := PlanInOrder(sorted, numslots, error);
  }

  // ---- Whatever the rounding ----

  lemma MovesOf(source: ClusterNode, slots: seq<nat>)
    ensures forall m :: m in Moves(source, slots) <==> m.source == source && m.slot in slots
  {
    forall m: Move | m.source == source && m.slot in slots
      ensures m in Moves(source, slots)
    {
      var k :| 0 <= k < |slots| && slots[k] == m.slot;
      assert Moves(source, slots)[k] == m;
    }
  }

  /** The plan consists of what the sources give, and nothing else. */
  lemma {:induction false} PlanMoves(sources: seq<ClusterNode>, offers: seq<seq<nat>>, numslots: int, n: nat, m: Move)
    requires n <= |sources| == |offers|
    ensures m in Plan(sources, offers, numslots, n)
      <==> exists i :: 0 <= i < n && sources[i] == m.source && m.slot in Given(offers, numslots, i)
  {
    if n > 0 {
      PlanMoves(sources, offers, numslots, n - 1, m);
      MovesOf(sources[n - 1], Given(offers, numslots, n - 1));
    }
  }

  lemma {:induction false} MovedIsLimited(offers: seq<seq<nat>>, numslots: int, i: nat)
    requires i <= |offers|
    ensures Moved(offers, numslots, i) <= if numslots > 0 then numslots else 0
  {
    if i > 0 {
      MovedIsLimited(offers, numslots, i - 1);
    }
  }

  lemma OfferIsOwned(slots: set<nat>, numslots: int, total: nat, i: nat, error: real)
    requires total > 0
    ensures var offer := Offer(slots, numslots, total, i, error);
      offer <= SortedKeys(slots) && Ascending(offer) && forall slot :: slot in offer ==> slot in slots
  {
    SortedKeysAreSorted(slots);
  }

  lemma OffersAreOwned(sources: seq<ClusterNode>, numslots: int, error: nat -> real)
    requires TotalSlots(sources) > 0
    ensures var offers := Offers(sources, numslots, error);
      |offers| == |sources| && forall i :: 0 <= i < |sources| ==>
        offers[i] <= SortedKeys(sources[i].slots) && Ascending(offers[i]) &&
        forall slot :: slot in offers[i] ==> slot in sources[i].slots
  {
    forall i | 0 <= i < |sources|
      ensures var offer := Offers(sources, numslots, error)[i];
        offer <= SortedKeys(sources[i].slots) && Ascending(offer) &&
        forall slot :: slot in offer ==> slot in sources[i].slots
    {
      OfferIsOwned(sources[i].slots, numslots, TotalSlots(sources), i, error(i));
    }
  }

  /** At most `numslots` slots are moved, all of them slots that their source owns. */
  lemma TableIsSafe(sources: seq<ClusterNode>, numslots: int, error: nat -> real)
    requires TotalSlots(sources) > 0
    ensures |Table(sources, numslots, error)| <= if numslots > 0 then numslots else 0
    ensures forall m :: m in Table(sources, numslots, error) ==> m.source in sources && m.slot in m.source.slots
  {
    var offers := Offers(sources, numslots, error);
    MovedIsLimited(offers, numslots, |sources|);
    OffersAreOwned(sources, numslots, error);
    forall m | m in Table(sources, numslots, error)
      ensures m.source in sources && m.slot in m.source.slots
    {
      PlanMoves(sources, offers, numslots, |sources|, m);
      var i :| 0 <= i < |sources| && sources[i] == m.source && m.slot in Given(offers, numslots, i);
      assert m.slot in offers[i];
    }
  }

  // ---- Repeated moves ----

  /** Sources listed twice give the same slots first. */
  ghost predicate SamePrefix(sources: seq<ClusterNode>, offers: seq<seq<nat>>) {
    && |sources| == |offers|
    && (forall i :: 0 <= i < |offers| ==> Ascending(offers[i]))
    && (forall i, j :: 0 <= i < j < |offers| && sources[i] == sources[j] && offers[i] != [] && offers[j] != [] ==>
      offers[i][0] == offers[j][0])
  }

  /** Sources `i` and `j` are not the same one giving slots twice. */
  predicate Differ(sources: seq<ClusterNode>, offers: seq<seq<nat>>, numslots: int, i: nat, j: nat)
    requires i < |sources| == |offers| && j < |sources|
  {
    sources[i] == sources[j] ==> Given(offers, numslots, i) == [] || Given(offers, numslots, j) == []
  }

  /** A source giving slots a second time gives its lowest one again. */
  lemma GivenAgain(sources: seq<ClusterNode>, offers: seq<seq<nat>>, numslots: int, i: nat, n: nat) returns (m: Move)
    requires SamePrefix(sources, offers) && i < n < |sources| && !Differ(sources, offers, numslots, i, n)
    ensures m in Plan(sources, offers, numslots, n) && m in Moves(sources[n], Given(offers, numslots, n))
  {
    m := Move(sources[n], Given(offers, numslots, n)[0]);
    assert Given(offers, numslots, i)[0] == m.slot;
    PlanMoves(sources, offers, numslots, n, m);
    MovesOf(sources[n], Given(offers, numslots, n));
  }

  lemma GivenBefore(sources: seq<ClusterNode>, offers: seq<seq<nat>>, numslots: int, n: nat, m: Move) returns (i: nat)
    requires |sources| == |offers| && n < |sources|
    requires m in Plan(sources, offers, numslots, n) && m in Moves(sources[n], Given(offers, numslots, n))
    ensures i < n && !Differ(sources, offers, numslots, i, n)
  {
    PlanMoves(sources, offers, numslots, n, m);
    MovesOf(sources[n], Given(offers, numslots, n));
    i :| 0 <= i < n && sources[i] == m.source && m.slot in Given(offers, numslots, i);
  }

  lemma NewMovesDifferIff(sources: seq<ClusterNode>, offers: seq<seq<nat>>, numslots: int, n: nat)
    requires SamePrefix(sources, offers) && n < |sources|
    ensures (forall m :: m in Plan(sources, offers, numslots, n) ==>
        m !in Moves(sources[n], Given(offers, numslots, n)))
      <==> forall i :: 0 <= i < n ==> Differ(sources, offers, numslots, i, n)
  {
    if i :| 0 <= i < n && !Differ(sources, offers, numslots, i, n) {
      var m := GivenAgain(sources, offers, numslots, i, n);
    } else if m :| m in Plan(sources, offers, numslots, n) && m in Moves(sources[n], Given(offers, numslots, n)) {
      var i := GivenBefore(sources, offers, numslots, n, m);
    }
  }

  lemma {:induction false} PlanIsDistinctIff(sources: seq<ClusterNode>, offers: seq<seq<nat>>, numslots: int, n: nat)
    requires SamePrefix(sources, offers) && n <= |sources|
    ensures Distinct(Plan(sources, offers, numslots, n))
      <==> forall i, j :: 0 <= i < j < n ==> Differ(sources, offers, numslots, i, j)
  {
    if n > 0 {
      var given := Given(offers, numslots, n - 1);
      PlanIsDistinctIff(sources, offers, numslots, n - 1);
      assert Ascending(offers[n - 1]);
      DistinctAppend(Plan(sources, offers, numslots, n - 1), Moves(sources[n - 1], given));
      NewMovesDifferIff(sources, offers, numslots, n - 1);
    }
  }

  /** Whatever the rounding, a plan moves a slot twice exactly when a source gives slots twice. */
  lemma TableIsDistinctIff(sources: seq<ClusterNode>, numslots: int, error: nat -> real)
    requires TotalSlots(sources) > 0
    ensures Distinct(Table(sources, numslots, error)) <==>
      forall i, j :: 0 <= i < j < |sources| ==> Differ(sources, Offers(sources, numslots, error), numslots, i, j)
  {
    OffersAreOwned(sources, numslots, error);
    PlanIsDistinctIff(sources, Offers(sources, numslots, error), numslots, |sources|);
  }

  /** Whatever the rounding, different sources make a plan without repetition. */
  lemma DifferentSourcesMoveOnce(sources: seq<ClusterNode>, numslots: int, error: nat -> real)
    requires TotalSlots(sources) > 0 && Distinct(sources)
    ensures Distinct(Table(sources, numslots, error))
  {
    TableIsDistinctIff(sources, numslots, error);
  }
}
