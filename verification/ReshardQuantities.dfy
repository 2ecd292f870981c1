/** How many slots a reshard plan moves, in exact arithmetic (redis-trib.rb, compute_reshard_table). */
module ReshardQuantities {
  import opened ClusterNodes
  import opened SlotRanges
  import opened Resharding

  const EXACT: nat -> real := i => 0.0

  lemma FloorTimes(x: real, total: nat, share: int) returns (product: int)
    requires total > 0 && x * total as real == share as real
    ensures product == x.Floor * total && product <= share < product + total
  {
    var q, t := x.Floor as real, total as real;
    product := x.Floor * total;
    assert q * t == product as real;
    var above, below := q + 1.0 - x, x - q;
    var high, low := above * t, below * t;
    assert high > 0.0 && low >= 0.0;
    assert high == q * t + t - x * t && low == x * t - q * t;
    assert high == (product + total - share) as real && low == (share - product) as real;
  }

  lemma ExactShare(numslots: int, total: nat, size: nat)
    requires total > 0
    ensures numslots as real / total as real * size as real * total as real == (numslots * size) as real
  {
    var x, t := numslots as real / total as real, total as real;
    assert x * t == numslots as real;
    assert x * size as real * t == x * t * size as real;
  }

  /** `total` times a quota differs from `numslots` times the size by less than `total`: upwards for the first
      source, downwards for the others. */
  lemma QuotaIsNear(numslots: int, total: nat, i: nat, size: nat) returns (product: int, share: int)
    requires total > 0
    ensures product == Quota(numslots, total, i, size, 0.0) * total && share == numslots * size
    ensures if i == 0 then share <= product < share + total else product <= share < product + total
  {
    var x := numslots as real / total as real * size as real;
    share := numslots * size;
    ExactShare(numslots, total, size);
    if i == 0 {
      assert (-x) * total as real == (-share) as real;
      var down := FloorTimes(-x, total, -share);
      product := -down;
      assert Quota(numslots, total, i, size, 0.0) == -((-x).Floor);
    } else {
      product := FloorTimes(x, total, share);
      assert Quota(numslots, total, i, size, 0.0) == x.Floor;
    }
  }

  lemma TimesGrows(a: int, b: int, k: int) returns (ak: int, bk: int)
    requires a <= b && k >= 0
    ensures ak == a * k && bk == b * k && ak <= bk
  {
    ak, bk := a * k, b * k;
    var gap := b - a;
    assert gap * k >= 0 && gap * k == b * k - a * k;
  }

  lemma TimesDecides(a: int, b: int, k: int) returns (ak: int, bk: int)
    requires k > 0
    ensures ak == a * k && bk == b * k && (ak < bk + k ==> a <= b)
  {
    ak, bk := a * k, b * k;
    if a > b {
      var one, more := TimesGrows(b + 1, a, k);
      assert one == bk + k;
    }
  }

  /** A source never has to give more than it has if `numslots` is at most the total, and gives all it has if it
      is at least the total. */
  lemma QuotaFits(numslots: int, total: nat, i: nat, size: nat)
    requires total > 0
    ensures 0 <= numslots <= total ==> 0 <= Quota(numslots, total, i, size, 0.0) <= size
    ensures total <= numslots ==> size <= Quota(numslots, total, i, size, 0.0)
  {
    var q := Quota(numslots, total, i, size, 0.0);
    var product, share := QuotaIsNear(numslots, total, i, size);
    if 0 <= numslots <= total {
      var nothing, s := TimesGrows(0, numslots, size);
      var s', all := TimesGrows(numslots, total, size);
      var a, b := TimesDecides(q, size, total);
      var c, d := TimesDecides(0, q, total);
    }
    if total <= numslots {
      var all, s := TimesGrows(total, numslots, size);
      var a, b := TimesDecides(size, q, total);
    }
  }

  lemma {:induction false} PrefixSum(sizes: seq<nat>, n: nat)
    requires n <= |sizes|
    ensures Sum(sizes[..n]) <= Sum(sizes)
  {
    if n < |sizes| {
      PrefixSum(sizes[..|sizes| - 1], n);
      assert sizes[..|sizes| - 1][..n] == sizes[..n];
    } else {
      assert sizes[..n] == sizes;
    }
  }

  lemma SumStep(sizes: seq<nat>, i: nat)
    requires i < |sizes|
    ensures Sum(sizes[..i + 1]) == Sum(sizes[..i]) + sizes[i]
  {
    assert sizes[..i + 1][..i] == sizes[..i];
  }

  /** Every source offers its exact quota. */
  ghost predicate OfferQuotas(offers: seq<seq<nat>>, sizes: seq<nat>, numslots: int) {
    && |offers| == |sizes| && Sum(sizes) > 0
    && forall i :: 0 <= i < |offers| ==> |offers[i]| == Quota(numslots, Sum(sizes), i, sizes[i], 0.0)
  }

  /** The first `m` sources give all they offer. `product` and `share` are `total` times the number of slots they
      give and `numslots` times the number of slots they have; each but the first may lose part of a slot. */
  lemma {:induction false} GivenInFull(offers: seq<seq<nat>>, sizes: seq<nat>, numslots: int, m: nat)
    returns (product: int, share: int, lost: int)
    requires OfferQuotas(offers, sizes, numslots) && m <= |sizes| && 0 < numslots
    ensures product == Moved(offers, numslots, m) * Sum(sizes) && share == numslots * Sum(sizes[..m])
    ensures m == 0 ==> product == share == 0
    ensures m > 0 ==> lost == (m - 1) * (Sum(sizes) - 1) && share - lost <= product <= share + Sum(sizes) - 1
    ensures forall i :: 0 <= i < m ==> Given(offers, numslots, i) == offers[i]
  {
    if m == 0 {
      product, share, lost := 0, 0, 0;
    } else {
      var i, total := m - 1, Sum(sizes);
      product, share, lost := GivenInFull(offers, sizes, numslots, i);
      var p, s := QuotaIsNear(numslots, total, i, sizes[i]);
      SumStep(sizes, i);
      AddShares(numslots, Sum(sizes[..i]), sizes[i], Moved(offers, numslots, i), |offers[i]|, total);
      product, share := product + p, share + s;
      lost := OneMoreLost(i, total - 1);
      PrefixSum(sizes, m);
      FitsTheRest(numslots, Sum(sizes[..m]), total, Moved(offers, numslots, i) + |offers[i]|, product, share);
    }
  }

  lemma AddShares(n: int, a: int, b: int, c: int, d: int, t: int)
    ensures n * (a + b) == n * a + n * b
    ensures (c + d) * t == c * t + d * t
  {
  }

  lemma OneMoreLost(i: nat, k: nat) returns (lost: int)
    ensures lost == i * k && (i > 0 ==> lost == (i - 1) * k + k)
  {
    lost := i * k;
  }

  lemma FitsTheRest(numslots: int, some: nat, total: nat, count: int, product: int, share: int)
    requires numslots > 0 && total > 0 && some <= total
    requires product == count * total && share == numslots * some && product < share + total
    ensures count <= numslots
  {
    var a, b := TimesGrows(some, total, numslots);
    var c, d := TimesDecides(count, numslots, total);
  }

  // ---- Up to as many slots as there are ----

  lemma ExactOffers(sources: seq<ClusterNode>, numslots: int)
    requires 0 < numslots <= TotalSlots(sources)
    ensures OfferQuotas(Offers(sources, numslots, EXACT), Sizes(sources), numslots)
  {
    var offers, total := Offers(sources, numslots, EXACT), TotalSlots(sources);
    forall i | 0 <= i < |sources|
      ensures |offers[i]| == Quota(numslots, total, i, |sources[i].slots|, 0.0)
    {
      QuotaFits(numslots, total, i, |sources[i].slots|);
      SortedKeysAreSorted(sources[i].slots);
    }
  }

  lemma FewAreLost(numslots: int, total: nat, count: int, sources: nat, product: int, share: int, lost: int)
    requires total > 0 && sources > 0 && product == count * total && share == numslots * total
    requires lost == (sources - 1) * (total - 1) && share - lost <= product
    ensures numslots - count <= if sources > 2 then sources - 2 else 0
  {
    var missing := numslots - count;
    assert missing * total == share - product;
    assert (sources - 1) * (total - 1) == (sources - 1) * total - (sources - 1);
    if sources == 1 {
      var a, b := TimesDecides(missing, 0, total);
    } else {
      assert (sources - 2) * total == (sources - 1) * total - total;
      var a, b := TimesDecides(missing, sources - 2, total);
    }
  }

  lemma CountIsNear(offers: seq<seq<nat>>, sizes: seq<nat>, numslots: int)
    requires OfferQuotas(offers, sizes, numslots) && 0 < numslots
    ensures numslots - Moved(offers, numslots, |sizes|) <= if |sizes| > 2 then |sizes| - 2 else 0
    ensures forall i :: 0 <= i < |sizes| ==> Given(offers, numslots, i) == offers[i]
  {
    var product, share, lost := GivenInFull(offers, sizes, numslots, |sizes|);
    assert sizes[..|sizes|] == sizes;
    FewAreLost(numslots, Sum(sizes), Moved(offers, numslots, |sizes|), |sizes|, product, share, lost);
  }

  /** Each source gives exactly its quota, so the guard never drops a slot; the plan never moves too many and
      with k sources misses at most k - 2 of the slots asked for. */
  lemma PlanIsProportional(sources: seq<ClusterNode>, numslots: int)
    requires 0 < numslots <= TotalSlots(sources)
    ensures var count := |Table(sources, numslots, EXACT)|;
      numslots - (if |sources| > 2 then |sources| - 2 else 0) <= count <= numslots
    ensures OfferQuotas(Offers(sources, numslots, EXACT), Sizes(sources), numslots)
    ensures forall i :: 0 <= i < |sources| ==>
      Given(Offers(sources, numslots, EXACT), numslots, i) == Offers(sources, numslots, EXACT)[i]
  {
    ExactOffers(sources, numslots);
    CountIsNear(Offers(sources, numslots, EXACT), Sizes(sources), numslots);
    TableIsSafe(sources, numslots, EXACT);
  }

  // ---- How many slots are missing ----

  /** What the shares of the first `m` sources exceed whole slots by, in units of a slot divided by `total`. */
  function Fractions(sizes: seq<nat>, numslots: nat, total: nat, m: nat): nat
    requires m <= |sizes| && total > 0
  {
    if m == 0 then 0 else Fractions(sizes, numslots, total, m - 1) + numslots * sizes[m - 1] % total
  }

  /** What the ceiling adds to the share of the first source before its fraction is cut off. */
  function FirstBonus(sizes: seq<nat>, numslots: nat, total: nat): nat
    requires sizes != [] && total > 0
  {
    if numslots * sizes[0] % total > 0 then total else 0
  }

  lemma RemainderIs(share: int, product: int, q: int, total: nat)
    requires total > 0 && product == q * total && product <= share < product + total
    ensures share % total == share - product
  {
    var p := share / total;
    assert share == p * total + share % total;
    assert (p - q) * total == p * total - q * total && (q - p) * total == q * total - p * total;
    if p > q {
      var a, b := TimesGrows(1, p - q, total);
    } else if p < q {
      var a, b := TimesGrows(1, q - p, total);
    }
  }

  lemma QuotaIsExactly(numslots: nat, total: nat, i: nat, size: nat) returns (product: int, share: int)
    requires total > 0
    ensures product == Quota(numslots, total, i, size, 0.0) * total && share == numslots * size
    ensures product == share - share % total + if i == 0 && share % total > 0 then total else 0
  {
    var q := Quota(numslots, total, i, size, 0.0);
    product, share := QuotaIsNear(numslots, total, i, size);
    if i > 0 {
      RemainderIs(share, product, q, total);
    } else if product == share {
      RemainderIs(share, product, q, total);
    } else {
      assert (q - 1) * total == product - total;
      RemainderIs(share, product - total, q - 1, total);
    }
  }

  lemma {:induction false} GivenExactly(offers: seq<seq<nat>>, sizes: seq<nat>, numslots: int, m: nat)
    returns (product: int, share: int)
    requires OfferQuotas(offers, sizes, numslots) && m <= |sizes| && 0 < numslots
    ensures product == Moved(offers, numslots, m) * Sum(sizes) && share == numslots * Sum(sizes[..m])
    ensures product == share - Fractions(sizes, numslots, Sum(sizes), m)
                     + if m > 0 then FirstBonus(sizes, numslots, Sum(sizes)) else 0
  {
    if m == 0 {
      product, share := 0, 0;
    } else {
      var i, total := m - 1, Sum(sizes);
      product, share := GivenExactly(offers, sizes, numslots, i);
      var p, s := QuotaIsExactly(numslots, total, i, sizes[i]);
      var a, b, lost := GivenInFull(offers, sizes, numslots, m);
      SumStep(sizes, i);
      AddShares(numslots, Sum(sizes[..i]), sizes[i], Moved(offers, numslots, i), |offers[i]|, total);
      product, share := product + p, share + s;
    }
  }

  /** Up to the total number of slots, the plan misses just what the fractions of the shares amount to, less the
      slot that rounding up the first one may add. So it moves all the slots asked for exactly if the fractions of
      all shares add up to one slot, or to nothing if the first source has none. */
  lemma AllAreMovedIff(sources: seq<ClusterNode>, numslots: int)
    requires 0 < numslots <= TotalSlots(sources)
    ensures var count, sizes, total := |Table(sources, numslots, EXACT)|, Sizes(sources), TotalSlots(sources);
      && sizes != []
      && (numslots - count) * total
         == Fractions(sizes, numslots, total, |sizes|) - FirstBonus(sizes, numslots, total)
      && (count == numslots
          <==> Fractions(sizes, numslots, total, |sizes|) == FirstBonus(sizes, numslots, total))
  {
    var offers, sizes, total := Offers(sources, numslots, EXACT), Sizes(sources), TotalSlots(sources);
    ExactOffers(sources, numslots);
    var product, share := GivenExactly(offers, sizes, numslots, |sizes|);
    assert sizes[..|sizes|] == sizes;
    MissingProduct(numslots, Moved(offers, numslots, |sizes|), total, product, share);
  }

  lemma MissingProduct(numslots: int, count: int, total: nat, product: int, share: int)
    requires total > 0 && product == count * total && share == numslots * total
    ensures (numslots - count) * total == share - product && (share == product <==> count == numslots)
  {
    var a, b := TimesDecides(numslots, count, total);
    var c, d := TimesDecides(count, numslots, total);
  }

  // ---- More slots than there are ----

  lemma {:induction false} AllIsGiven(offers: seq<seq<nat>>, sizes: seq<nat>, numslots: int, m: nat)
    requires |offers| == |sizes| && Sum(sizes) <= numslots && m <= |sizes|
    requires forall i :: 0 <= i < |sizes| ==> |offers[i]| == sizes[i]
    ensures Moved(offers, numslots, m) == Sum(sizes[..m])
    ensures forall i :: 0 <= i < m ==> Given(offers, numslots, i) == offers[i]
  {
    if m > 0 {
      AllIsGiven(offers, sizes, numslots, m - 1);
      SumStep(sizes, m - 1);
      PrefixSum(sizes, m);
    }
  }

  lemma WholeOffers(sources: seq<ClusterNode>, numslots: int)
    requires 0 < TotalSlots(sources) <= numslots
    ensures var offers := Offers(sources, numslots, EXACT);
      forall i :: 0 <= i < |sources| ==> offers[i] == SortedKeys(sources[i].slots) && |offers[i]| == Sizes(sources)[i]
  {
    forall i | 0 <= i < |sources|
      ensures Offers(sources, numslots, EXACT)[i] == SortedKeys(sources[i].slots)
      ensures |SortedKeys(sources[i].slots)| == Sizes(sources)[i]
    {
      QuotaFits(numslots, TotalSlots(sources), i, |sources[i].slots|);
      SortedKeysAreSorted(sources[i].slots);
    }
  }

  /** Asked for all there is, or more, the plan moves every slot of every source. */
  lemma EverythingIsMoved(sources: seq<ClusterNode>, numslots: int)
    requires 0 < TotalSlots(sources) <= numslots
    ensures |Table(sources, numslots, EXACT)| == TotalSlots(sources)
    ensures forall s, slot :: s in sources && slot in s.slots ==> Move(s, slot) in Table(sources, numslots, EXACT)
    ensures forall i :: 0 <= i < |sources| ==>
      Given(Offers(sources, numslots, EXACT), numslots, i) == SortedKeys(sources[i].slots)
  {
    var offers, sizes := Offers(sources, numslots, EXACT), Sizes(sources);
    WholeOffers(sources, numslots);
    AllIsGiven(offers, sizes, numslots, |sizes|);
    assert sizes[..|sizes|] == sizes;
    forall s, slot | s in sources && slot in s.slots
      ensures Move(s, slot) in Table(sources, numslots, EXACT)
    {
      var i :| 0 <= i < |sources| && sources[i] == s;
      SortedKeysAreSorted(s.slots);
      assert slot in Given(offers, numslots, i);
      PlanMoves(sources, offers, numslots, |sources|, Move(s, slot));
    }
  }

  // ---- Sources listed twice ----

  /** Given its quota, a source other than the first gives nothing exactly if its share is less than a slot; the
      first then gives something unless its share is nothing. */
  lemma GivesNothingIff(numslots: int, total: nat, i: nat, size: nat)
    requires total > 0 && 0 < numslots
    ensures i > 0 ==> (Quota(numslots, total, i, size, 0.0) <= 0 <==> numslots * size < total)
    ensures numslots * size >= total ==> Quota(numslots, total, i, size, 0.0) > 0
  {
    var q := Quota(numslots, total, i, size, 0.0);
    var product, share := QuotaIsNear(numslots, total, i, size);
    if q <= 0 {
      var a, zero := TimesGrows(q, 0, total);
      assert product <= 0;
    } else {
      var one, a := TimesGrows(1, q, total);
      assert product >= total;
    }
  }

  lemma ListedTwice(sources: seq<ClusterNode>, numslots: int, i: nat, j: nat)
    requires TotalSlots(sources) > 0 && i < j < |sources| && sources[i] == sources[j]
    ensures Differ(sources, Offers(sources, numslots, EXACT), numslots, i, j)
       <==> numslots * |sources[j].slots| < TotalSlots(sources)
  {
    var total, size, offers := TotalSlots(sources), |sources[j].slots|, Offers(sources, numslots, EXACT);
    if numslots <= 0 {
      var a, zero := TimesGrows(numslots, 0, size);
      assert Given(offers, numslots, j) == [];
    } else if numslots <= total {
      PlanIsProportional(sources, numslots);
      assert Sizes(sources)[i] == Sizes(sources)[j] == size;
      GivesNothingIff(numslots, total, i, size);
      GivesNothingIff(numslots, total, j, size);
    } else {
      EverythingIsMoved(sources, numslots);
      SortedKeysAreSorted(sources[j].slots);
      if size > 0 {
        var one, product := TimesGrows(1, size, numslots);
      }
    }
  }

  /** A plan moves no slot twice exactly if every source that is listed again has less than its share of one slot:
      nothing in the command that asks for the sources keeps a node from being listed twice. */
  lemma NoMoveIsRepeatedIff(sources: seq<ClusterNode>, numslots: int)
    requires TotalSlots(sources) > 0
    ensures Distinct(Table(sources, numslots, EXACT)) <==>
      forall i, j :: 0 <= i < j < |sources| && sources[i] == sources[j] ==>
        numslots * |sources[j].slots| < TotalSlots(sources)
  {
    TableIsDistinctIff(sources, numslots, EXACT);
    forall i, j | 0 <= i < j < |sources| && sources[i] == sources[j]
      ensures Differ(sources, Offers(sources, numslots, EXACT), numslots, i, j)
         <==> numslots * |sources[j].slots| < TotalSlots(sources)
    {
      ListedTwice(sources, numslots, i, j);
    }
  }

  /** For example, listing a node twice and asking for all its slots moves them twice. */
  lemma TwiceListedMovesTwice(s: ClusterNode, numslots: int)
    requires s.slots != {} && numslots >= 2 * |s.slots|
    ensures Sum(Sizes([s, s])) == 2 * |s.slots| && !Distinct(Table([s, s], numslots, EXACT))
  {
    var sources := [s, s];
    var n := |s.slots|;
    assert Sizes(sources) == [n, n] && [n, n][..1] == [n] && [n][..0] == [];
    assert Sum([n]) == n && Sum([n, n]) == 2 * n;
    NoMoveIsRepeatedIff(sources, numslots);
    var one, product := TimesGrows(1, n, numslots);
    assert sources[0] == sources[1];
  }

  // ---- A plan that is short ----

  /** Three masters with one slot each, asked for two slots, give only one. */
  lemma OneSlotShort(a: ClusterNode, b: ClusterNode, c: ClusterNode)
    requires |a.slots| == |b.slots| == |c.slots| == 1
    ensures TotalSlots([a, b, c]) == 3 && |Table([a, b, c], 2, EXACT)| == 1
  {
    var sources := [a, b, c];
    var sizes := Sizes(sources);
    assert sizes == [1, 1, 1];
    assert Sum(sizes) == 3 by {
      assert sizes[..2] == [1, 1] && [1, 1][..1] == [1] && [1][..0] == [];
      assert Sum([1]) == 1 && Sum([1, 1]) == 2;
    }
    var offers := Offers(sources, 2, EXACT);
    PlanIsProportional(sources, 2);
    assert |offers[0]| == 1 && |offers[1]| == 0 && |offers[2]| == 0;
    assert Moved(offers, 2, 1) == 1 && Moved(offers, 2, 2) == 1 && Moved(offers, 2, 3) == 1;
  }
}
