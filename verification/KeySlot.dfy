/** From a key to its hash slot (redis-trib.rb, key_to_slot). Only the hash tag is hashed when the key
    has one: the non-empty text between the first `{` and the first `}` after it, as in the section
    "Hash tags" of the Redis Cluster Specification. Keys are byte strings. */
module KeySlot {
  import BinaryNumbers
  import Crc16
  import PolynomialDivision
  import opened SlotRanges

  const OPEN: bv8 := 0x7b
  const CLOSE: bv8 := 0x7d

  /** `tag` is the hash tag of `key`, between `before` and `after`. */
  ghost predicate TagBetween(key: seq<bv8>, before: seq<bv8>, tag: seq<bv8>, after: seq<bv8>) {
    && key == before + [OPEN] + tag + [CLOSE] + after
    && OPEN !in before && CLOSE !in tag && tag != []
  }

  ghost predicate HasTag(key: seq<bv8>, tag: seq<bv8>) {
    exists before, after :: TagBetween(key, before, tag, after)
  }

  /** What is hashed for `key`: its tag if it has one, otherwise all of it. */
  ghost predicate IsHashedPart(key: seq<bv8>, part: seq<bv8>) {
    HasTag(key, part) || (part == key && forall tag :: !HasTag(key, tag))
  }

  function Slot(part: seq<bv8>): nat {
    Crc16.Crc(part) as nat % HASH_SLOTS
  }

  /** The slot of a key, from the specification alone: divide the hashed part, as a polynomial over GF(2), by
      x^16 + x^12 + x^5 + 1, and read the last fourteen coefficients of the remainder as a binary number. */
  ghost predicate IsSlotOf(key: seq<bv8>, slot: nat) {
    exists part, r: PolynomialDivision.Register ::
      && IsHashedPart(key, part)
      && PolynomialDivision.IsRemainder(Crc16.MessageBits(part), r)
      && slot == BinaryNumbers.Number(r[2..])
  }

  lemma SlotOfPart(key: seq<bv8>, part: seq<bv8>)
    requires IsHashedPart(key, part)
    ensures IsSlotOf(key, Slot(part))
  {
    var r := Crc16.RegisterBits(Crc16.Crc(part));
    Crc16.CrcIsTheRemainder(part, r);
    BinaryNumbers.LastFourteenDigits(Crc16.Crc(part));
  }

  /** `i` is the first occurrence of `c` at or after `from`, or the length of the key. */
  ghost predicate FirstAt(key: seq<bv8>, c: bv8, from: nat, i: nat) {
    from <= i <= |key| && (forall j | from <= j < i :: key[j] != c) && (i < |key| ==> key[i] == c)
  }

  method IndexFrom(key: seq<bv8>, c: bv8, from: nat) returns (i: nat)
    requires from <= |key|
    ensures FirstAt(key, c, from, i)
  {
    i := from;
    while i < |key| && key[i] != c
      invariant from <= i <= |key|
      invariant forall j | from <= j < i :: key[j] != c
    {
      i := i + 1;
    }
  }

  lemma FirstIsUnique(key: seq<bv8>, c: bv8, from: nat, i: nat, j: nat)
    requires FirstAt(key, c, from, i) && FirstAt(key, c, from, j)
    ensures i == j
  {
  }

  /** A tag sits at the first `{` and ends at the first `}` after it. */
  lemma TagPosition(key: seq<bv8>, before: seq<bv8>, tag: seq<bv8>, after: seq<bv8>)
    requires TagBetween(key, before, tag, after)
    ensures FirstAt(key, OPEN, 0, |before|) && FirstAt(key, CLOSE, |before| + 1, |before| + 1 + |tag|)
    ensures |before| + 1 + |tag| < |key| && tag == key[|before| + 1..|before| + 1 + |tag|]
  {
    assert forall i | 0 <= i < |before| :: key[i] == before[i];
    assert forall i | 0 <= i < |tag| :: key[|before| + 1 + i] == tag[i];
    assert forall j | |before| < j < |before| + 1 + |tag| :: key[j] == tag[j - |before| - 1];
  }

  /** A key has at most one tag, so the hashed part is determined. */
  lemma HashedPartIsUnique(key: seq<bv8>, p: seq<bv8>, q: seq<bv8>)
    requires IsHashedPart(key, p) && IsHashedPart(key, q)
    ensures p == q
  {
    if HasTag(key, p) && HasTag(key, q) {
      var b1, a1 :| TagBetween(key, b1, p, a1);
      var b2, a2 :| TagBetween(key, b2, q, a2);
      TagPosition(key, b1, p, a1);
      TagPosition(key, b2, q, a2);
      FirstIsUnique(key, OPEN, 0, |b1|, |b2|);
      FirstIsUnique(key, CLOSE, |b1| + 1, |b1| + 1 + |p|, |b2| + 1 + |q|);
    }
  }

  lemma NoBraceNoTag(key: seq<bv8>)
    requires FirstAt(key, OPEN, 0, |key|)
    ensures IsHashedPart(key, key)
  {
    forall before, tag, after | TagBetween(key, before, tag, after) ensures false {
      TagPosition(key, before, tag, after);
    }
  }

  /** The first braces decide: a tag if they enclose something, otherwise none at all. */
  lemma BracesDecide(key: seq<bv8>, s: nat, e: nat, part: seq<bv8>)
    requires s < |key| && FirstAt(key, OPEN, 0, s) && FirstAt(key, CLOSE, s + 1, e)
    requires part == if e < |key| && e != s + 1 then key[s + 1..e] else key
    ensures IsHashedPart(key, part)
  {
    if e < |key| && e != s + 1 {
      assert key == key[..s] + [OPEN] + part + [CLOSE] + key[e + 1..];
      assert TagBetween(key, key[..s], part, key[e + 1..]);
    } else {
      forall before, tag, after | TagBetween(key, before, tag, after) ensures false {
        TagPosition(key, before, tag, after);
        FirstIsUnique(key, OPEN, 0, s, |before|);
      }
    }
  }

  /** `key_to_slot` */
  method KeyToSlot(key: seq<bv8>) returns (slot: nat)
    ensures slot < HASH_SLOTS && IsSlotOf(key, slot)
    ensures exists part :: IsHashedPart(key, part) && slot == Slot(part)
  {
    var part := key;
    var s := IndexFrom(key, OPEN, 0);
    if s < |key| {
      var e := IndexFrom(key, CLOSE, s + 1);
      if e < |key| && e != s + 1 {
        part := key[s + 1..e];
      }
      BracesDecide(key, s, e, part);
    } else {
      NoBraceNoTag(key);
    }
    var crc := Crc16.Compute(part);
    slot := crc as nat % HASH_SLOTS;
    SlotOfPart(key, part);
  }

  /** A key has one slot. */
  lemma SlotIsUnique(key: seq<bv8>, part: seq<bv8>, slot: nat)
    requires IsHashedPart(key, part)
    ensures IsSlotOf(key, slot) <==> slot == Slot(part)
  {
    SlotOfPart(key, part);
    if IsSlotOf(key, slot) {
      var other, r: PolynomialDivision.Register :|
        && IsHashedPart(key, other)
        && PolynomialDivision.IsRemainder(Crc16.MessageBits(other), r)
        && slot == BinaryNumbers.Number(r[2..]);
      HashedPartIsUnique(key, part, other);
      Crc16.CrcIsTheRemainder(other, r);
      BinaryNumbers.LastFourteenDigits(Crc16.Crc(other));
    }
  }

  /** The documented check input "123456789" has the slot 12739, and no other. */
  lemma CheckSlot(slot: nat)
    ensures IsSlotOf([0x31, 0x32, 0x33, 0x34, 0x35, 0x36, 0x37, 0x38, 0x39], slot) <==> slot == 12739
  {
    var key: seq<bv8> := [0x31, 0x32, 0x33, 0x34, 0x35, 0x36, 0x37, 0x38, 0x39];
    NoBraceNoTag(key);
    Crc16.CheckValue();
    SlotIsUnique(key, key, slot);
  }

  /** Keys with the same tag share a slot, whatever surrounds the tag. */
  lemma SameTagSameSlot(key1: seq<bv8>, key2: seq<bv8>, tag: seq<bv8>, part1: seq<bv8>, part2: seq<bv8>)
    requires HasTag(key1, tag) && HasTag(key2, tag)
    requires IsHashedPart(key1, part1) && IsHashedPart(key2, part2)
    ensures Slot(part1) == Slot(part2) == Slot(tag)
  {
    HashedPartIsUnique(key1, part1, tag);
    HashedPartIsUnique(key2, part2, tag);
  }

  /** An empty pair of braces is no tag, even if a proper pair follows. */
  lemma EmptyBracesHashWholeKey(before: seq<bv8>, after: seq<bv8>, part: seq<bv8>)
    requires OPEN !in before
    requires IsHashedPart(before + [OPEN, CLOSE] + after, part)
    ensures part == before + [OPEN, CLOSE] + after
  {
    var key := before + [OPEN, CLOSE] + after;
    assert forall i | 0 <= i < |before| :: key[i] == before[i];
    BracesDecide(key, |before|, |before| + 1, key);
    HashedPartIsUnique(key, part, key);
  }
}
