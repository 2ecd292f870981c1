/** Dividing the 16384 slots among the masters (redis-trib.rb, the middle part of alloc_slots). Float results
    are real numbers plus an arbitrary rounding error; exact arithmetic is the case without error. */
module SlotAllocation {
  import opened ClusterNodes
  import opened SlotRanges

  /** The error made when `cursor` is advanced after master `i`, and when its last slot is computed. */
  datatype Rounding = Rounding(cursor: nat -> real, end: nat -> real)

  /** Ruby's `round`: to the nearest integer, halves away from zero. */
  function NearestInteger(x: real): int {
    if x >= 0.0 then (x + 0.5).Floor else -((-x + 0.5).Floor)
  }

  function SlotsPerNode(masters: nat): real
    requires masters > 0
  {
    HASH_SLOTS as real / masters as real
  }

  /** `cursor` when the loop reaches master `i`. */
  function Cursor(masters: nat, rounding: Rounding, i: nat): real
    requires masters > 0
  {
    if i == 0 then 0.0 else Cursor(masters, rounding, i - 1) + SlotsPerNode(masters) + rounding.cursor(i - 1)
  }

  /** `last` for a master whose first slot is `first` and whose float end is `x`. */
  function LastFrom(masters: nat, i: nat, first: nat, x: real): (last: nat)
    ensures last >= first
  {
    var last := NearestInteger(x);
    var clamped := if last > HASH_SLOTS || i == masters - 1 then HASH_SLOTS - 1 else last;
    if clamped < first then first else clamped
  }

  function End(masters: nat, rounding: Rounding, i: nat): real
    requires masters > 0
  {
    Cursor(masters, rounding, i) + SlotsPerNode(masters) - 1.0 + rounding.end(i)
  }

  function FirstSlot(masters: nat, rounding: Rounding, i: nat): nat
    requires masters > 0
    decreases i, 0
  {
    if i == 0 then 0 else LastSlot(masters, rounding, i - 1) + 1
  }

  function LastSlot(masters: nat, rounding: Rounding, i: nat): nat
    requires masters > 0
    decreases i, 1
  {
    LastFrom(masters, i, FirstSlot(masters, rounding, i), End(masters, rounding, i))
  }

  ghost function MasterSlots(masters: nat, rounding: Rounding, i: nat): set<nat>
    requires masters > 0
  {
    Span(FirstSlot(masters, rounding, i), LastSlot(masters, rounding, i))
  }

  method AllocateSlots(masters: seq<ClusterNode>, rounding: Rounding)
    requires masters != [] && Distinct(masters)
    modifies masters`slots, masters`dirty
    ensures forall i :: 0 <= i < |masters| ==>
      masters[i].slots == old(masters[i].slots) + MasterSlots(|masters|, rounding, i)
  {
    var slotsPerNode := SlotsPerNode(|masters|);
    var first: nat, cursor := 0, 0.0;
    for i := 0 to |masters|
      invariant first == FirstSlot(|masters|, rounding, i) && cursor == Cursor(|masters|, rounding, i)
      invariant forall k :: 0 <= k < i ==>
        masters[k].slots == old(masters[k].slots) + MasterSlots(|masters|, rounding, k)
      invariant forall k :: i <= k < |masters| ==> masters[k].slots == old(masters[k].slots)
    {
      var last := NearestInteger(cursor + slotsPerNode - 1.0 + rounding.end(i));
      if last > HASH_SLOTS || i == |masters| - 1 {
        last := HASH_SLOTS - 1;
      }
      if last < first {
        last := first;
      }
      assert last == LastSlot(|masters|, rounding, i);
      masters[i].AddSlots(first, last);
      first := last + 1;
      cursor := cursor + slotsPerNode + rounding.cursor(i);
    }
  }

  // ---- What holds whatever the rounding ----

  predicate Owns(masters: nat, rounding: Rounding, i: nat, slot: int)
    requires masters > 0
  {
    FirstSlot(masters, rounding, i) <= slot <= LastSlot(masters, rounding, i)
  }

  predicate IsAssigned(masters: nat, rounding: Rounding, slot: int)
    requires masters > 0
  {
    exists i :: 0 <= i < masters && Owns(masters, rounding, i, slot)
  }

  /** No two masters share a slot and each has at least one, so `i` masters need at least `i` slots. */
  lemma {:induction false} RangesAreDisjoint(masters: nat, rounding: Rounding, i: nat, j: nat)
    requires masters > 0 && i < j
    ensures LastSlot(masters, rounding, i) < FirstSlot(masters, rounding, j)
    ensures FirstSlot(masters, rounding, j) - FirstSlot(masters, rounding, i) >= j - i
  {
    if j > i + 1 {
      RangesAreDisjoint(masters, rounding, i, j - 1);
    }
  }

  /** The first `i` masters own exactly the slots below the next first slot, each slot once. */
  lemma {:induction false} RangesLeaveNoGap(masters: nat, rounding: Rounding, i: nat, slot: nat) returns (k: nat)
    requires masters > 0 && slot < FirstSlot(masters, rounding, i)
    ensures k < i && Owns(masters, rounding, k, slot)
  {
    assert i > 0;
    k := i - 1;
    if slot < FirstSlot(masters, rounding, i - 1) {
      k := RangesLeaveNoGap(masters, rounding, i - 1, slot);
    }
  }

  // ---- Nearest integers of the exact ends ----

  /** The last slot of master `i` in integer arithmetic. */
  function IntegerEnd(masters: nat, i: int): int
    requires masters > 0
  {
    (2 * HASH_SLOTS * (i + 1) - masters) / (2 * masters)
  }

  function ExactEnd(masters: nat, i: nat): real
    requires masters > 0
  {
    SlotsPerNode(masters) * (i + 1) as real - 1.0
  }

  lemma AtLeastOneMultiple(k: int, d: int)
    requires k >= 1 && d > 0
    ensures k * d >= d
  {
    assert k * d == (k - 1) * d + d;
  }

  lemma QuotientIs(n: int, d: int, q: int)
    requires d > 0 && q * d <= n < q * d + d
    ensures n / d == q
  {
    var p := n / d;
    assert n == p * d + n % d;
    assert (p - q) * d == p * d - q * d && (q - p) * d == q * d - p * d;
    if p > q {
      AtLeastOneMultiple(p - q, d);
    } else if p < q {
      AtLeastOneMultiple(q - p, d);
    }
  }

  lemma QuotientGrows(n: int, m: int, d: int)
    requires d > 0 && n <= m
    ensures n / d <= m / d
  {
    var p, q := n / d, m / d;
    assert n == p * d + n % d && m == q * d + m % d;
    assert (p - q) * d == p * d - q * d;
    if p > q {
      AtLeastOneMultiple(p - q, d);
    }
  }

  lemma IntegerEndStep(masters: nat, i: int)
    requires masters > 0
    ensures HASH_SLOTS / masters <= IntegerEnd(masters, i) - IntegerEnd(masters, i - 1) <= HASH_SLOTS / masters + 1
  {
    var n, d := 2 * HASH_SLOTS * i - masters, 2 * masters;
    var k, t := HASH_SLOTS / masters, HASH_SLOTS % masters;
    var q, r := n / d, n % d;
    assert n == q * d + r;
    assert HASH_SLOTS == k * masters + t;
    assert 2 * HASH_SLOTS == k * d + 2 * t by {
      assert k * d == 2 * (k * masters);
    }
    var m := n + 2 * HASH_SLOTS;
    assert m == (q + k) * d + (r + 2 * t) by {
      assert (q + k) * d == q * d + k * d;
    }
    if r + 2 * t < d {
      QuotientIs(m, d, q + k);
    } else {
      assert (q + k + 1) * d == (q + k) * d + d;
      QuotientIs(m, d, q + k + 1);
    }
    assert m == 2 * HASH_SLOTS * (i + 1) - masters;
  }

  lemma IntegerEndLimits(masters: nat)
    requires masters > 0
    ensures IntegerEnd(masters, -1) == -1 && IntegerEnd(masters, masters - 1) == HASH_SLOTS - 1
  {
    var m: int := masters;
    QuotientIs(-m, 2 * m, -1);
    assert (HASH_SLOTS - 1) * (2 * masters) == 2 * HASH_SLOTS * masters - 2 * masters;
    QuotientIs(2 * HASH_SLOTS * masters - masters, 2 * masters, HASH_SLOTS - 1);
  }

  function Pow2(n: nat): nat
    ensures Pow2(n) > 0
  {
    if n == 0 then 1 else 2 * Pow2(n - 1)
  }

  /** If 2^n divides `m` times an odd number, it divides `m`. */
  lemma {:induction false} OddFactor(m: int, b: int, k: int, n: nat) returns (q: int)
    requires m * (2 * b + 1) == k * Pow2(n)
    ensures m == q * Pow2(n)
    decreases n
  {
    q := m;
    if n > 0 {
      var p := Pow2(n - 1);
      var half := k * p - m * b;
      assert m == 2 * half by {
        assert m * (2 * b + 1) == 2 * (m * b) + m;
        assert k * (2 * p) == 2 * (k * p);
      }
      assert half * (2 * b + 1) == k * p by {
        assert (2 * half) * (2 * b + 1) == 2 * (half * (2 * b + 1));
        assert k * (2 * p) == 2 * (k * p);
      }
      q := OddFactor(half, b, k, n - 1);
      assert q * (2 * p) == 2 * (q * p);
    }
  }

  /** With up to 16384 masters no exact end lies half way between two slots. */
  lemma NoTies(masters: nat, i: nat)
    requires 0 < masters <= HASH_SLOTS
    ensures (2 * HASH_SLOTS * (i + 1) - masters) % (2 * masters) != 0
  {
    var n, d := 2 * HASH_SLOTS * (i + 1) - masters, 2 * masters;
    var b := n / d;
    assert n == b * d + n % d;
    if n % d == 0 {
      assert masters * (2 * b + 1) == (i + 1) * 32768 by {
        assert masters * (2 * b + 1) == b * (2 * masters) + masters;
      }
      assert Pow2(15) == 32768 by {
        assert Pow2(5) == 32;
        assert Pow2(10) == 32 * Pow2(5);
        assert Pow2(15) == 32 * Pow2(10);
      }
      var q := OddFactor(masters, b, i + 1, 15);
    }
  }

  lemma ScalingDecides(a: real, b: real, t: real) returns (at: real, bt: real)
    requires t > 0.0
    ensures at == a * t && bt == b * t && (at < bt ==> a < b)
  {
    at, bt := a * t, b * t;
    if a >= b {
      var gap := a - b;
      assert gap * t >= 0.0 && gap * t == at - bt;
    }
  }

  lemma Distribute(a: real, b: real, t: real) returns (at: real, bt: real)
    ensures at == a * t && bt == b * t && (a + b) * t == at + bt
  {
    at, bt := a * t, b * t;
  }

  lemma ProductAsReal(k: int, d: int)
    ensures (k * d) as real == k as real * d as real
  {
  }

  /** `y` lies between `k` and `k + 1` if `d` times it lies less than 1 from an integer strictly between `k * d` and
      `(k + 1) * d`. */
  lemma BetweenMultiples(y: real, scaled: real, n: int, d: int, k: int)
    requires d > 0 && scaled == y * d as real && -1.0 < scaled - n as real < 1.0
    requires k * d < n < k * d + d
    ensures k as real < y < (k + 1) as real
  {
    var low, high := k * d, (k + 1) * d;
    assert high == low + d;
    ProductAsReal(k, d);
    ProductAsReal(k + 1, d);
    var lowAt, fromLow := ScalingDecides(k as real, y, d as real);
    var toHigh, highAt := ScalingDecides(y, (k + 1) as real, d as real);
    assert lowAt == low as real && highAt == high as real;
  }

  /** Half a slot divided by the number of masters. */
  ghost function Tolerance(masters: nat): real
    requires masters > 0
  {
    1.0 / (2 * masters) as real
  }

  lemma ToleranceScaled(masters: nat)
    requires masters > 0
    ensures Tolerance(masters) * (2 * masters) as real == 1.0
  {
    var t := (2 * masters) as real;
    assert 1.0 / t * t == 1.0;
  }

  lemma ProductIsPositive(a: real, b: real)
    requires a > 0.0 && b > 0.0
    ensures a * b > 0.0
  {
  }

  lemma ScalingKeeps(a: real, b: real, k: real) returns (ak: real, bk: real)
    requires a < b && k > 0.0
    ensures ak == a * k && bk == b * k && ak < bk
  {
    ak, bk := a * k, b * k;
    var gap := b - a;
    ProductIsPositive(gap, k);
    assert gap * k == bk - ak;
  }

  lemma ProductOfNegative(a: real, k: real) returns (ak: real)
    ensures ak == a * k && (-a) * k == -ak
  {
    ak := a * k;
  }

  /** The scaled error, if the tolerance scales to 1. */
  lemma Scale(e: real, t: real, k: real) returns (scaled: real)
    requires -t < e < t && k > 0.0 && t * k == 1.0
    ensures scaled == e * k && -1.0 < scaled < 1.0
  {
    var one := ProductOfNegative(t, k);
    var low, above := ScalingKeeps(-t, e, k);
    var below, high := ScalingKeeps(e, t, k);
    scaled := above;
  }

  lemma RoundsTo(x: real, end: real, tolerance: real, n: int, d: int, k: int)
    requires d > 0 && n >= 0 && (end + 0.5) * d as real == n as real
    requires -tolerance < x - end < tolerance && tolerance * d as real == 1.0
    requires k * d < n < k * d + d
    ensures NearestInteger(x) == k
  {
    var e := x - end;
    var scaled := Scale(e, tolerance, d as real);
    var off, whole := Distribute(e, end + 0.5, d as real);
    assert e + (end + 0.5) == x + 0.5;
    BetweenMultiples(x + 0.5, off + whole, n, d, k);
    FactorIsNatural(k, d);
  }

  lemma FactorIsNatural(k: int, d: int)
    requires d > 0 && k * d + d > 0
    ensures k >= 0
  {
    if k < 0 {
      AtLeastOneMultiple(-k, d);
    }
  }

  lemma ScaledExactEnd(masters: nat, i: nat)
    requires masters > 0
    ensures (ExactEnd(masters, i) + 0.5) * (2 * masters) as real == (2 * HASH_SLOTS * (i + 1) - masters) as real
  {
    var m, p := masters as real, HASH_SLOTS as real;
    var a := (i + 1) as real;
    assert (p / m) * m == p;
    assert (p / m) * a * (2.0 * m) == 2.0 * a * p;
  }

  /** An error below half a slot divided by the number of masters changes no end. */
  lemma RoundIsStable(masters: nat, i: nat, x: real)
    requires 0 < masters <= HASH_SLOTS
    requires -Tolerance(masters) < x - ExactEnd(masters, i) < Tolerance(masters)
    ensures NearestInteger(x) == IntegerEnd(masters, i)
  {
    var n, d := 2 * HASH_SLOTS * (i + 1) - masters, 2 * masters;
    NoTies(masters, i);
    ScaledExactEnd(masters, i);
    assert n == n / d * d + n % d;
    ToleranceScaled(masters);
    RoundsTo(x, ExactEnd(masters, i), Tolerance(masters), n, d, n / d);
  }

  // ---- Small rounding errors ----

  /** The rounding errors of the first `i` steps of `cursor`, together. */
  ghost function CursorError(rounding: Rounding, i: nat): real {
    if i == 0 then 0.0 else CursorError(rounding, i - 1) + rounding.cursor(i - 1)
  }

  /** The accumulated error is below the tolerance at every master. */
  ghost predicate Accurate(masters: nat, rounding: Rounding)
    requires masters > 0
  {
    forall i :: 0 <= i < masters ==>
      -Tolerance(masters) < CursorError(rounding, i) + rounding.end(i) < Tolerance(masters)
  }

  /** Exact arithmetic is accurate; so is any in which no single error exceeds `bound`, if `masters` of them
      stay below the tolerance. For 16384 masters any bound below 2^-29 slots will do. */
  lemma SmallErrorsAreAccurate(masters: nat, rounding: Rounding, bound: real)
    requires masters > 0 && bound * masters as real < Tolerance(masters)
    requires forall i: nat :: -bound <= rounding.cursor(i) <= bound && -bound <= rounding.end(i) <= bound
    ensures Accurate(masters, rounding)
  {
    forall i | 0 <= i < masters
      ensures -Tolerance(masters) < CursorError(rounding, i) + rounding.end(i) < Tolerance(masters)
    {
      ErrorStaysBelow(rounding, bound, i, masters, Tolerance(masters));
    }
  }

  lemma ErrorStaysBelow(rounding: Rounding, bound: real, i: nat, masters: nat, tolerance: real)
    requires i < masters && bound * masters as real < tolerance
    requires forall i: nat :: -bound <= rounding.cursor(i) <= bound && -bound <= rounding.end(i) <= bound
    ensures -tolerance < CursorError(rounding, i) + rounding.end(i) < tolerance
  {
    ErrorsAddUp(rounding, bound, i);
    assert -bound <= rounding.end(i) <= bound;
    var some, all := OneMoreFits(bound, i, masters);
  }

  lemma {:induction false} ErrorsAddUp(rounding: Rounding, bound: real, i: nat)
    requires forall i: nat :: -bound <= rounding.cursor(i) <= bound
    ensures -(bound * i as real) <= CursorError(rounding, i) <= bound * i as real
  {
    if i > 0 {
      ErrorsAddUp(rounding, bound, i - 1);
      OneMore(bound, i - 1);
      assert -bound <= rounding.cursor(i - 1) <= bound;
    }
  }

  lemma OneMore(x: real, i: nat)
    ensures x * (i + 1) as real == x * i as real + x
  {
    assert (i + 1) as real == i as real + 1.0;
  }

  lemma {:induction false} OneMoreFits(x: real, i: nat, n: nat) returns (some: real, all: real)
    requires x >= 0.0 && i < n
    ensures some == x * i as real && all == x * n as real && some + x <= all
  {
    some, all := x * i as real, x * n as real;
    OneMore(x, n - 1);
    if i < n - 1 {
      var less, more := OneMoreFits(x, i, n - 1);
    }
  }

  lemma {:induction false} CursorIsExactPlusError(masters: nat, rounding: Rounding, i: nat)
    requires masters > 0
    ensures Cursor(masters, rounding, i) == SlotsPerNode(masters) * i as real + CursorError(rounding, i)
  {
    if i > 0 {
      CursorIsExactPlusError(masters, rounding, i - 1);
      OneMore(SlotsPerNode(masters), i - 1);
    }
  }

  lemma EndError(masters: nat, rounding: Rounding, i: nat)
    requires masters > 0
    ensures End(masters, rounding, i) - ExactEnd(masters, i) == CursorError(rounding, i) + rounding.end(i)
  {
    CursorIsExactPlusError(masters, rounding, i);
    OneMore(SlotsPerNode(masters), i);
  }

  lemma RoundedEnd(masters: nat, rounding: Rounding, i: nat)
    requires i < masters <= HASH_SLOTS && Accurate(masters, rounding)
    ensures NearestInteger(End(masters, rounding, i)) == IntegerEnd(masters, i)
  {
    EndError(masters, rounding, i);
    RoundIsStable(masters, i, End(masters, rounding, i));
  }

  lemma IntegerEndInRange(masters: nat, i: nat)
    requires i < masters <= HASH_SLOTS
    ensures IntegerEnd(masters, i - 1) + 1 <= IntegerEnd(masters, i) <= HASH_SLOTS - 1
    ensures i == masters - 1 ==> IntegerEnd(masters, i) == HASH_SLOTS - 1
  {
    IntegerEndLimits(masters);
    IntegerEndStep(masters, i);
    QuotientGrows(2 * HASH_SLOTS * (i + 1) - masters, 2 * HASH_SLOTS * masters - masters, 2 * masters);
    assert HASH_SLOTS / masters >= 1 by {
      assert HASH_SLOTS == HASH_SLOTS / masters * masters + HASH_SLOTS % masters;
    }
  }

  /** With at most 16384 masters an accurate rounding changes nothing, and neither does any of the clamps. */
  lemma {:induction false} FirstSlotIsExact(masters: nat, rounding: Rounding, i: nat)
    requires masters <= HASH_SLOTS && i <= masters && masters > 0 && Accurate(masters, rounding)
    ensures FirstSlot(masters, rounding, i) == IntegerEnd(masters, i - 1) + 1
    ensures i > 0 ==> LastSlot(masters, rounding, i - 1) == NearestInteger(End(masters, rounding, i - 1))
  {
    if i == 0 {
      IntegerEndLimits(masters);
    } else {
      FirstSlotIsExact(masters, rounding, i - 1);
      RoundedEnd(masters, rounding, i - 1);
      IntegerEndInRange(masters, i - 1);
    }
  }

  /** The ranges tile 0..16383 exactly, and no master has two slots more than another. */
  lemma SlotsAreTiled(masters: nat, rounding: Rounding)
    requires 0 < masters <= HASH_SLOTS && Accurate(masters, rounding)
    ensures forall slot :: 0 <= slot < HASH_SLOTS <==> IsAssigned(masters, rounding, slot)
    ensures forall i, j, slot :: 0 <= i < j < masters ==>
      !(Owns(masters, rounding, i, slot) && Owns(masters, rounding, j, slot))
    ensures forall i :: 0 <= i < masters ==>
      HASH_SLOTS / masters <= LastSlot(masters, rounding, i) - FirstSlot(masters, rounding, i) + 1
      <= HASH_SLOTS / masters + 1
  {
    SlotsAreUsedUp(masters, rounding);
    forall slot
      ensures 0 <= slot < HASH_SLOTS <==> IsAssigned(masters, rounding, slot)
    {
      if 0 <= slot < HASH_SLOTS {
        var i := RangesLeaveNoGap(masters, rounding, masters, slot);
      } else if IsAssigned(masters, rounding, slot) {
        var i :| 0 <= i < masters && Owns(masters, rounding, i, slot);
        OwnedIsBetween(masters, rounding, i, masters, slot);
      }
    }
    forall i, j, slot | 0 <= i < j < masters && Owns(masters, rounding, i, slot)
      ensures !Owns(masters, rounding, j, slot)
    {
      OwnedIsBetween(masters, rounding, i, j, slot);
    }
    forall i | 0 <= i < masters
      ensures HASH_SLOTS / masters <= LastSlot(masters, rounding, i) - FirstSlot(masters, rounding, i) + 1
         <= HASH_SLOTS / masters + 1
    {
      SizesAreEven(masters, rounding, i);
    }
  }

  lemma SlotsAreUsedUp(masters: nat, rounding: Rounding)
    requires 0 < masters <= HASH_SLOTS && Accurate(masters, rounding)
    ensures FirstSlot(masters, rounding, masters) == HASH_SLOTS
  {
    FirstSlotIsExact(masters, rounding, masters);
    IntegerEndLimits(masters);
  }

  lemma OwnedIsBetween(masters: nat, rounding: Rounding, i: nat, j: nat, slot: int)
    requires masters > 0 && i < j && Owns(masters, rounding, i, slot)
    ensures 0 <= slot < FirstSlot(masters, rounding, j)
  {
    RangesAreDisjoint(masters, rounding, i, j);
    if i > 0 {
      RangesAreDisjoint(masters, rounding, 0, i);
    }
  }

  lemma SizesAreEven(masters: nat, rounding: Rounding, i: nat)
    requires i < masters <= HASH_SLOTS && Accurate(masters, rounding)
    ensures HASH_SLOTS / masters <= LastSlot(masters, rounding, i) - FirstSlot(masters, rounding, i) + 1
         <= HASH_SLOTS / masters + 1
  {
    FirstSlotIsExact(masters, rounding, i);
    FirstSlotIsExact(masters, rounding, i + 1);
    IntegerEndStep(masters, i);
  }

  /** The allocation ends at slot 16383 exactly when there are at most 16384 masters. Beyond that the minimal step
      of one slot runs past the last slot, however the floats are rounded. */
  lemma LastSlotIsLegalIff(masters: nat, rounding: Rounding)
    requires masters > 0 && (masters <= HASH_SLOTS ==> Accurate(masters, rounding))
    ensures LastSlot(masters, rounding, masters - 1) == HASH_SLOTS - 1 <==> masters <= HASH_SLOTS
    ensures masters > HASH_SLOTS ==> LastSlot(masters, rounding, masters - 1) >= masters - 1
  {
    if masters <= HASH_SLOTS {
      FirstSlotIsExact(masters, rounding, masters);
      IntegerEndLimits(masters);
    } else {
      RangesAreDisjoint(masters, rounding, 0, masters);
    }
  }
}
