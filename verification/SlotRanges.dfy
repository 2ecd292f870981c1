/** A node's hash slots as ranges (redis-trib.rb): compressed and printed by info_string, read back by
    load_info. */
module SlotRanges {
  import Decimal

  /** The slots of a cluster are numbered from 0. */
  const HASH_SLOTS: int := 16384

  datatype Range = Range(first: nat, last: nat)

  // ---- Sorted keys ----

  ghost predicate Ascending(keys: seq<nat>) {
    forall i, j | 0 <= i < j < |keys| :: keys[i] < keys[j]
  }

  ghost predicate IsMinimum(s: set<nat>, m: nat) {
    m in s && forall x :: x in s ==> m <= x
  }

  lemma {:induction false} MinimumExists(s: set<nat>)
    requires s != {}
    ensures exists m :: IsMinimum(s, m)
  {
    var a :| a in s;
    var rest := s - {a};
    if rest == {} {
      assert forall x :: x in s ==> x == a || x in rest;
      assert IsMinimum(s, a);
    } else {
      MinimumExists(rest);
      var m :| IsMinimum(rest, m);
      var least := if a < m then a else m;
      forall x | x in s ensures least <= x {
        assert x == a || x in rest;
      }
      assert IsMinimum(s, least);
    }
  }

  function Minimum(s: set<nat>): (m: nat)
    requires s != {}
    ensures IsMinimum(s, m)
  {
    MinimumExists(s);
    assert forall m, n :: IsMinimum(s, m) && IsMinimum(s, n) ==> m <= n && n <= m;
    var m :| m in s && forall x :: x in s ==> m <= x;
    m
  }

  /** `keys.sort` */
  function SortedKeys(s: set<nat>): seq<nat> {
    if s == {} then [] else [Minimum(s)] + SortedKeys(s - {Minimum(s)})
  }

  lemma {:induction false} SortedKeysAreSorted(s: set<nat>)
    ensures Ascending(SortedKeys(s)) && |SortedKeys(s)| == |s|
    ensures forall x :: x in SortedKeys(s) <==> x in s
  {
    if s != {} {
      var m := Minimum(s);
      var rest := SortedKeys(s - {m});
      SortedKeysAreSorted(s - {m});
      assert SortedKeys(s) == [m] + rest;
      forall i | 0 <= i < |rest| ensures m < rest[i] {
        assert rest[i] in rest;
      }
      forall x ensures x in SortedKeys(s) <==> x in s {
        assert x in SortedKeys(s) <==> x == m || x in rest;
      }
    }
  }

  // ---- Compression ----

  /** One step of the reduction: extends the last range by an adjacent one, or starts a new range. */
  function Extend(ranges: seq<Range>, next: Range): seq<Range> {
    var n := |ranges|;
    if n > 0 && next.first == ranges[n - 1].last + 1 then ranges[..n - 1] + [Range(ranges[n - 1].first, next.last)]
    else ranges + [next]
  }

  /** The ranges of an ascending list of slots. */
  function Compress(keys: seq<nat>): seq<Range> {
    if keys == [] then []
    else
      var n := |keys| - 1;
      Extend(Compress(keys[..n]), Range(keys[n], keys[n]))
  }

  ghost predicate Covers(ranges: seq<Range>, x: nat) {
    exists i | 0 <= i < |ranges| :: ranges[i].first <= x <= ranges[i].last
  }

  /** Non-empty ranges in order, with a gap between neighbours, so that none can be merged. */
  ghost predicate Canonical(ranges: seq<Range>) {
    && (forall i | 0 <= i < |ranges| :: ranges[i].first <= ranges[i].last)
    && (forall i, j | 0 <= i < j < |ranges| :: ranges[i].last + 1 < ranges[j].first)
  }

  /** The last range of a non-empty list ends just before `key`. */
  ghost predicate Touches(ranges: seq<Range>, key: nat) {
    ranges != [] && key == ranges[|ranges| - 1].last + 1
  }

  lemma ExtendCovers(ranges: seq<Range>, key: nat, x: nat)
    requires Canonical(ranges) && (ranges != [] ==> ranges[|ranges| - 1].last < key)
    ensures Covers(Extend(ranges, Range(key, key)), x) <==> Covers(ranges, x) || x == key
  {
    if Touches(ranges, key) {
      LengthenCovers(ranges, key, x);
    } else {
      AppendCovers(ranges, key, x);
    }
  }

  lemma LengthenCovers(ranges: seq<Range>, key: nat, x: nat)
    requires Canonical(ranges) && Touches(ranges, key)
    ensures Covers(Extend(ranges, Range(key, key)), x) <==> Covers(ranges, x) || x == key
  {
    var n := |ranges|;
    var extended := Extend(ranges, Range(key, key));
    assert extended[n - 1] == Range(ranges[n - 1].first, key);
    assert forall i | 0 <= i < n - 1 :: extended[i] == ranges[i];
    if Covers(extended, x) && x != key {
      var i :| 0 <= i < n && extended[i].first <= x <= extended[i].last;
      assert ranges[i].first <= x <= ranges[i].last;
    }
    if Covers(ranges, x) {
      var i :| 0 <= i < n && ranges[i].first <= x <= ranges[i].last;
      assert extended[i].first <= x <= extended[i].last;
    }
  }

  lemma AppendCovers(ranges: seq<Range>, key: nat, x: nat)
    requires !Touches(ranges, key)
    ensures Covers(Extend(ranges, Range(key, key)), x) <==> Covers(ranges, x) || x == key
  {
    var n := |ranges|;
    var extended := Extend(ranges, Range(key, key));
    assert extended[n] == Range(key, key);
    assert forall i | 0 <= i < n :: extended[i] == ranges[i];
    if Covers(ranges, x) {
      var i :| 0 <= i < n && ranges[i].first <= x <= ranges[i].last;
      assert extended[i].first <= x <= extended[i].last;
    }
  }

  lemma ExtendIsCanonical(ranges: seq<Range>, key: nat)
    requires Canonical(ranges) && (ranges != [] ==> ranges[|ranges| - 1].last < key)
    ensures Canonical(Extend(ranges, Range(key, key)))
  {
    var n := |ranges|;
    var extended := Extend(ranges, Range(key, key));
    forall i, j | 0 <= i < j < |extended| ensures extended[i].last + 1 < extended[j].first {
      if j == n {
        assert i == n - 1 || ranges[i].last + 1 < ranges[n - 1].first;
      }
    }
  }

  /** The ranges are canonical, end at the last slot, and cover exactly the slots. */
  lemma {:induction false} CompressIsExact(keys: seq<nat>)
    requires Ascending(keys)
    ensures Canonical(Compress(keys))
    ensures keys == [] <==> Compress(keys) == []
    ensures keys != [] ==> Compress(keys)[|Compress(keys)| - 1].last == keys[|keys| - 1]
    ensures forall x :: Covers(Compress(keys), x) <==> x in keys
  {
    if keys != [] {
      var n := |keys| - 1;
      var init := keys[..n];
      CompressIsExact(init);
      var ranges := Compress(init);
      ExtendIsCanonical(ranges, keys[n]);
      forall x ensures Covers(Compress(keys), x) <==> x in keys {
        ExtendCovers(ranges, keys[n], x);
        assert x in keys <==> x in init || x == keys[n];
      }
    }
  }

  lemma FirstIsLeast(ranges: seq<Range>, x: nat)
    requires Canonical(ranges) && Covers(ranges, x)
    ensures ranges[0].first <= x && Covers(ranges, ranges[0].first)
  {
  }

  lemma RestCovers(ranges: seq<Range>, x: nat)
    requires Canonical(ranges) && ranges != []
    ensures Covers(ranges[1..], x) <==> Covers(ranges, x) && x > ranges[0].last
    ensures Canonical(ranges[1..])
  {
    if Covers(ranges, x) && x > ranges[0].last {
      var i :| 0 <= i < |ranges| && ranges[i].first <= x <= ranges[i].last;
      assert ranges[1..][i - 1] == ranges[i];
    }
    if Covers(ranges[1..], x) {
      var i :| 0 <= i < |ranges[1..]| && ranges[1..][i].first <= x <= ranges[1..][i].last;
      assert ranges[i + 1] == ranges[1..][i];
    }
  }

  /** One past the first range is a slot outside. */
  lemma GapAfterFirst(ranges: seq<Range>)
    requires Canonical(ranges) && ranges != []
    ensures !Covers(ranges, ranges[0].last + 1)
    ensures forall x: nat | ranges[0].first <= x <= ranges[0].last :: Covers(ranges, x)
  {
  }

  /** There is only one canonical way to write a set of slots. */
  lemma {:induction false} CanonicalIsUnique(a: seq<Range>, b: seq<Range>)
    requires Canonical(a) && Canonical(b)
    requires forall x: nat :: Covers(a, x) <==> Covers(b, x)
    ensures a == b
    decreases |a|
  {
    if a == [] {
      if b != [] {
        assert Covers(b, b[0].first);
      }
    } else {
      assert Covers(a, a[0].first);
      FirstIsLeast(b, a[0].first);
      FirstIsLeast(a, b[0].first);
      GapAfterFirst(a);
      GapAfterFirst(b);
      assert a[0] == b[0];
      forall x: nat ensures Covers(a[1..], x) <==> Covers(b[1..], x) {
        RestCovers(a, x);
        RestCovers(b, x);
      }
      RestCovers(a, 0);
      RestCovers(b, 0);
      CanonicalIsUnique(a[1..], b[1..]);
    }
  }

  // ---- Printing and parsing ----

  /** A range of one slot prints as the slot, a longer one as its ends. */
  function Token(r: Range): string {
    if r.first == r.last then Decimal.PrintNat(r.first)
    else Decimal.PrintNat(r.first) + "-" + Decimal.PrintNat(r.last)
  }

  function Tokens(ranges: seq<Range>): seq<string> {
    seq(|ranges|, i requires 0 <= i < |ranges| => Token(ranges[i]))
  }

  /** The leading digits, which are all that `to_i` reads of an unsigned numeral. */
  function Digits(s: string): (d: string)
    ensures Decimal.AllDigits(d) && d <= s
    ensures |d| < |s| ==> !Decimal.IsDigit(s[|d|])
  {
    if s == "" || !Decimal.IsDigit(s[0]) then "" else [s[0]] + Digits(s[1..])
  }

  function ToInt(s: string): nat {
    Decimal.ParseNat(Digits(s))
  }

  function BeforeDash(s: string): string {
    if s == "" || s[0] == '-' then "" else [s[0]] + BeforeDash(s[1..])
  }

  /** What follows the first dash. */
  function AfterDash(s: string): string {
    if s == "" then "" else if s[0] == '-' then s[1..] else AfterDash(s[1..])
  }

  /** The slots from `first` to `last`, none if they are reversed. */
  function Span(first: nat, last: nat): set<nat>
    decreases last + 1 - first
  {
    if first > last then {} else {first} + Span(first + 1, last)
  }

  lemma {:induction false} SpanContains(first: nat, last: nat, x: nat)
    ensures x in Span(first, last) <==> first <= x <= last
    decreases last + 1 - first
  {
    if first <= last {
      SpanContains(first + 1, last, x);
    }
  }

  predicate Bracketed(token: string) {
    token != "" && token[0] == '['
  }

  /** The slots one token of a node's own line contributes. Bracketed tokens announce slots on the move
      and contribute none. */
  function TokenSlots(token: string): set<nat> {
    if Bracketed(token) then {}
    else if '-' in token then Span(ToInt(BeforeDash(token)), ToInt(BeforeDash(AfterDash(token))))
    else Span(ToInt(token), ToInt(token))
  }

  function SlotsOf(tokens: seq<string>): set<nat> {
    if tokens == [] then {} else SlotsOf(tokens[..|tokens| - 1]) + TokenSlots(tokens[|tokens| - 1])
  }

  lemma {:induction false} DigitsOfAll(s: string)
    requires Decimal.AllDigits(s)
    ensures Digits(s) == s && BeforeDash(s) == s && '-' !in s
  {
    if s != "" {
      DigitsOfAll(s[1..]);
    }
  }

  lemma {:induction false} DashSplits(a: string, b: string)
    requires Decimal.AllDigits(a)
    ensures BeforeDash(a + "-" + b) == a && AfterDash(a + "-" + b) == b
  {
    var s := a + "-" + b;
    if a == "" {
      assert s[1..] == b;
    } else {
      assert s[1..] == a[1..] + "-" + b;
      DashSplits(a[1..], b);
    }
  }

  lemma TokenRoundTrip(r: Range)
    requires r.first <= r.last
    ensures TokenSlots(Token(r)) == Span(r.first, r.last)
  {
    var a, b := Decimal.PrintNat(r.first), Decimal.PrintNat(r.last);
    Decimal.PrintParse(r.first);
    Decimal.PrintParse(r.last);
    DigitsOfAll(a);
    DigitsOfAll(b);
    DashSplits(a, b);
    assert a[0] != '[';
    if r.first != r.last {
      assert (a + "-" + b)[|a|] == '-';
    }
  }

  lemma CoversSnoc(ranges: seq<Range>, x: nat)
    requires ranges != []
    ensures var n := |ranges| - 1;
            Covers(ranges, x) <==> Covers(ranges[..n], x) || ranges[n].first <= x <= ranges[n].last
  {
    var n := |ranges| - 1;
    if Covers(ranges[..n], x) {
      var i :| 0 <= i < n && ranges[..n][i].first <= x <= ranges[..n][i].last;
      assert ranges[i].first <= x <= ranges[i].last;
    }
    if Covers(ranges, x) {
      var i :| 0 <= i <= n && ranges[i].first <= x <= ranges[i].last;
      if i < n {
        assert ranges[..n][i] == ranges[i];
      }
    }
  }

  lemma {:induction false} SlotsOfTokens(ranges: seq<Range>, x: nat)
    requires forall i | 0 <= i < |ranges| :: ranges[i].first <= ranges[i].last
    ensures x in SlotsOf(Tokens(ranges)) <==> Covers(ranges, x)
  {
    if ranges != [] {
      var n := |ranges| - 1;
      var tokens := Tokens(ranges);
      SlotsOfTokens(ranges[..n], x);
      assert tokens[..n] == Tokens(ranges[..n]);
      TokenRoundTrip(ranges[n]);
      SpanContains(ranges[n].first, ranges[n].last, x);
      CoversSnoc(ranges, x);
      assert x in SlotsOf(tokens) <==> x in SlotsOf(tokens[..n]) || x in TokenSlots(tokens[n]);
    }
  }

  /** Reading back the printed ranges of a set of slots gives that set. */
  lemma PrintedSlotsReadBack(slots: set<nat>)
    ensures SlotsOf(Tokens(Compress(SortedKeys(slots)))) == slots
  {
    var keys := SortedKeys(slots);
    SortedKeysAreSorted(slots);
    CompressIsExact(keys);
    forall x: nat ensures x in SlotsOf(Tokens(Compress(keys))) <==> x in slots {
      SlotsOfTokens(Compress(keys), x);
    }
  }

  function WithoutBracketed(tokens: seq<string>): seq<string> {
    if tokens == [] then []
    else
      var last := tokens[|tokens| - 1];
      WithoutBracketed(tokens[..|tokens| - 1]) + if Bracketed(last) then [] else [last]
  }

  lemma SlotsOfSnoc(tokens: seq<string>, token: string)
    ensures SlotsOf(tokens + [token]) == SlotsOf(tokens) + TokenSlots(token)
  {
    assert (tokens + [token])[..|tokens|] == tokens;
  }

  /** Announcements of slots on the move, wherever they stand, change nothing. */
  lemma {:induction false} BracketedAddNothing(tokens: seq<string>)
    ensures SlotsOf(tokens) == SlotsOf(WithoutBracketed(tokens))
  {
    if tokens != [] {
      var n := |tokens| - 1;
      BracketedAddNothing(tokens[..n]);
      if Bracketed(tokens[n]) {
        assert WithoutBracketed(tokens[..n]) + [] == WithoutBracketed(tokens[..n]);
      } else {
        SlotsOfSnoc(WithoutBracketed(tokens[..n]), tokens[n]);
      }
    }
  }

  /** The line of a node reads back as its slots, even while some of them are on the move. */
  lemma LineReadsBack(slots: set<nat>, tokens: seq<string>)
    requires WithoutBracketed(tokens) == Tokens(Compress(SortedKeys(slots)))
    ensures SlotsOf(tokens) == slots
  {
    BracketedAddNothing(tokens);
    PrintedSlotsReadBack(slots);
  }

  // ---- An example in the form the source documents ----

  lemma CompressSnoc(keys: seq<nat>, key: nat, longer: seq<nat>)
    requires longer == keys + [key]
    ensures Compress(longer) == Extend(Compress(keys), Range(key, key))
  {
    assert longer[..|keys|] == keys;
  }

  lemma ExampleRanges()
    ensures Compress([1, 2, 3, 8, 30]) == [Range(1, 3), Range(8, 8), Range(30, 30)]
  {
    CompressSnoc([], 1, [1]);
    CompressSnoc([1], 2, [1, 2]);
    CompressSnoc([1, 2], 3, [1, 2, 3]);
    CompressSnoc([1, 2, 3], 8, [1, 2, 3, 8]);
    CompressSnoc([1, 2, 3, 8], 30, [1, 2, 3, 8, 30]);
  }

  lemma ExampleTokens()
    ensures Token(Range(1, 3)) == "1-3" && Token(Range(8, 8)) == "8" && Token(Range(30, 30)) == "30"
  {
    assert Decimal.PrintNat(30) == Decimal.PrintNat(3) + "0";
  }

  /** Adjacent slots print as a range, a slot on its own as its number. */
  lemma ExamplePrints()
    ensures Tokens(Compress([1, 2, 3, 8, 30])) == ["1-3", "8", "30"]
  {
    ExampleRanges();
    ExampleTokens();
  }
}
