/** The key-mask matcher of utils.c: what a mask means as a language, and a proof that the
    backtracking search decides exactly that language within a polynomial number of calls.

    A string is what the C code sees through a `const char*`: one element per byte before the
    terminating NUL. Advancing a pointer is dropping a prefix. */
module Matcher {

  /** One position of a mask: a literal character, or `.` for any character. */
  datatype Atom = Literal(c: char) | AnyChar

  /** A position that occurs exactly once, or one followed by `*`. */
  datatype Item = One(atom: Atom) | Many(atom: Atom)

  function ToAtom(c: char): Atom {
    if c == '.' then AnyChar else Literal(c)
  }

  /** The items a mask denotes once a leading `^` is gone. A `*` binds to the character before it,
      whatever that is, so an unpaired leading `*`, a `^` and a `$` that is not last are literals. */
  function Items(mask: string): seq<Item> {
    if mask == "" || mask == "$" then []
    else if |mask| >= 2 && mask[1] == '*' then [Many(ToAtom(mask[0]))] + Items(mask[2..])
    else [One(ToAtom(mask[0]))] + Items(mask[1..])
  }

  /** Whether the mask ends in a `$` that is not itself starred. */
  function ToEnd(mask: string): bool {
    if mask == "" then false
    else if mask == "$" then true
    else if |mask| >= 2 && mask[1] == '*' then ToEnd(mask[2..])
    else ToEnd(mask[1..])
  }

  predicate Fits(atom: Atom, c: char) {
    atom.AnyChar? || atom.c == c
  }

  /** The strings one item stands for. */
  ghost predicate InItem(item: Item, w: string) {
    match item
    case One(atom) => |w| == 1 && Fits(atom, w[0])
    case Many(atom) => forall i | 0 <= i < |w| :: Fits(atom, w[i])
  }

  /** The concatenation of the items' languages. */
  ghost predicate InLanguage(items: seq<Item>, w: string) {
    if items == [] then w == ""
    else exists k | 0 <= k <= |w| :: InItem(items[0], w[..k]) && InLanguage(items[1..], w[k..])
  }

  /** `text[..j]` is a word of the mask, and it is all of the text if the mask ends in `$`. */
  ghost predicate WordOf(mask: string, text: string, j: nat)
    requires j <= |text|
  {
    InLanguage(Items(mask), text[..j]) && (ToEnd(mask) ==> j == |text|)
  }

  /** Some prefix of `text` is a word of the mask. */
  ghost predicate AcceptsHere(mask: string, text: string) {
    exists j: nat | j <= |text| :: WordOf(mask, text, j)
  }

  predicate Anchored(mask: string) {
    mask != "" && mask[0] == '^'
  }

  /** What a whole mask accepts: a prefix after `^`, otherwise a substring anywhere. */
  ghost predicate Accepts(mask: string, text: string) {
    if Anchored(mask) then AcceptsHere(mask[1..], text)
    else exists i | 0 <= i <= |text| :: AcceptsHere(mask, text[i..])
  }

  // ---- How the language unfolds along the mask ----

  lemma AcceptsEmptyMask(text: string)
    ensures AcceptsHere("", text)
  {
    assert WordOf("", text, 0);
  }

  lemma AcceptsDollar(text: string)
    ensures AcceptsHere("$", text) <==> text == ""
  {
    if text == "" {
      assert WordOf("$", text, 0);
    }
  }

  ghost predicate PlainHead(mask: string) {
    mask != "" && mask != "$" && !(|mask| >= 2 && mask[1] == '*')
  }

  ghost predicate StarHead(mask: string) {
    |mask| >= 2 && mask[1] == '*'
  }

  lemma {:induction false} AcceptsOne(mask: string, text: string)
    requires PlainHead(mask)
    ensures AcceptsHere(mask, text) <==>
            text != "" && Fits(ToAtom(mask[0]), text[0]) && AcceptsHere(mask[1..], text[1..])
  {
    var items, atom := Items(mask), ToAtom(mask[0]);
    assert items[0] == One(atom) && items[1..] == Items(mask[1..]);
    if AcceptsHere(mask, text) {
      var j: nat :| j <= |text| && WordOf(mask, text, j);
      var w := text[..j];
      var k :| 0 <= k <= |w| && InItem(items[0], w[..k]) && InLanguage(items[1..], w[k..]);
      assert k == 1 && w[1..] == text[1..][..j - 1];
      assert WordOf(mask[1..], text[1..], j - 1);
    }
    if text != "" && Fits(atom, text[0]) && AcceptsHere(mask[1..], text[1..]) {
      var j: nat :| j <= |text[1..]| && WordOf(mask[1..], text[1..], j);
      var w := text[..j + 1];
      assert w[1..] == text[1..][..j] && InItem(items[0], w[..1]);
      assert WordOf(mask, text, j + 1);
    }
  }

  /** The first `k` characters of `text` all fit the starred character of the mask. */
  ghost predicate StarTakes(mask: string, text: string, k: nat)
    requires StarHead(mask) && k <= |text|
  {
    forall i | 0 <= i < k :: Fits(ToAtom(mask[0]), text[i])
  }

  lemma {:induction false} AcceptsMany(mask: string, text: string)
    requires StarHead(mask)
    ensures AcceptsHere(mask, text) <==>
            exists k: nat | k <= |text| :: StarTakes(mask, text, k) && AcceptsHere(mask[2..], text[k..])
  {
    var items := Items(mask);
    assert items[0] == Many(ToAtom(mask[0])) && items[1..] == Items(mask[2..]);
    if AcceptsHere(mask, text) {
      var j: nat :| j <= |text| && WordOf(mask, text, j);
      var w := text[..j];
      var k :| 0 <= k <= |w| && InItem(items[0], w[..k]) && InLanguage(items[1..], w[k..]);
      assert w[k..] == text[k..][..j - k];
      assert WordOf(mask[2..], text[k..], j - k);
      forall i | 0 <= i < k ensures Fits(ToAtom(mask[0]), text[i]) {
        assert w[..k][i] == text[i];
      }
      assert StarTakes(mask, text, k);
    }
    forall k: nat | k <= |text| && StarTakes(mask, text, k) && AcceptsHere(mask[2..], text[k..])
      ensures AcceptsHere(mask, text)
    {
      var j: nat :| j <= |text[k..]| && WordOf(mask[2..], text[k..], j);
      var w := text[..k + j];
      assert w[k..] == text[k..][..j] && w[..k] == text[..k];
      assert InItem(items[0], w[..k]);
      assert WordOf(mask, text, k + j);
    }
  }

  // ---- Cost ----

  function Pow(b: nat, e: nat): nat {
    if e == 0 then 1 else b * Pow(b, e - 1)
  }

  /** The starred positions of a mask. */
  function Stars(mask: string): nat {
    if |mask| < 2 then 0
    else if mask[1] == '*' then 1 + Stars(mask[2..])
    else Stars(mask[1..])
  }

  /** The most calls an anchored search makes on a text of length `n`. */
  function CallBound(mask: string, n: nat): nat {
    (|mask| + 1) * Pow(n + 1, Stars(mask))
  }

  lemma {:induction false} PowMonotone(a: nat, b: nat, e: nat)
    requires a <= b
    ensures Pow(a, e) <= Pow(b, e)
  {
    if e > 0 {
      PowMonotone(a, b, e - 1);
      MulMonotone(a, b, Pow(a, e - 1), Pow(b, e - 1));
    }
  }

  lemma MulMonotone(a: nat, b: nat, c: nat, d: nat)
    requires a <= b && c <= d
    ensures a * c <= b * d
  {
    assert a * c <= b * c by { assert (b - a) * c >= 0; }
    assert b * c <= b * d by { assert b * (d - c) >= 0; }
  }

  lemma PowPositive(b: nat, e: nat)
    requires b > 0
    ensures Pow(b, e) > 0
  {
    if e > 0 {
      PowPositive(b, e - 1);
      MulMonotone(1, b, 1, Pow(b, e - 1));
    }
  }

  lemma BoundGrowsWithText(mask: string, m: nat, n: nat)
    requires m <= n
    ensures CallBound(mask, m) <= CallBound(mask, n)
  {
    PowMonotone(m + 1, n + 1, Stars(mask));
    MulMonotone(|mask| + 1, |mask| + 1, Pow(m + 1, Stars(mask)), Pow(n + 1, Stars(mask)));
  }

  /** Consuming a plain character pays for one call. */
  lemma BoundPaysForOne(mask: string, n: nat)
    requires PlainHead(mask) && n > 0
    ensures 1 + CallBound(mask[1..], n - 1) <= CallBound(mask, n)
  {
    BoundGrowsWithText(mask[1..], n - 1, n);
    var p := Pow(n + 1, Stars(mask));
    assert Stars(mask) == Stars(mask[1..]);
    PowPositive(n + 1, Stars(mask));
    assert (|mask| + 1) * p == |mask| * p + p;
  }

  /** A star pays for itself and for one call of the rest at every position of the text. */
  lemma BoundPaysForStar(mask: string, n: nat)
    requires StarHead(mask)
    ensures 1 + (n + 1) * CallBound(mask[2..], n) <= CallBound(mask, n)
  {
    var p := Pow(n + 1, Stars(mask[2..]));
    var q := (n + 1) * p;
    assert Pow(n + 1, Stars(mask)) == q;
    PowPositive(n + 1, Stars(mask));
    assert (n + 1) * ((|mask| - 1) * p) == (|mask| - 1) * q by { MulRearrange(n + 1, |mask| - 1, p); }
    assert (|mask| + 1) * q == (|mask| - 1) * q + 2 * q;
  }

  lemma MulRearrange(a: nat, b: nat, c: nat)
    ensures a * (b * c) == b * (a * c)
  {
  }

  // ---- The search ----

  /** `matchhere`: does the mask match at the beginning of the text? `calls` counts the invocations
      of `matchhere`, this one included. */
  method MatchHere(mask: string, text: string) returns (found: bool, ghost calls: nat)
    ensures found <==> AcceptsHere(mask, text)
    ensures calls <= CallBound(mask, |text|)
    decreases |mask|
  {
    calls := 1;
    PowPositive(|text| + 1, Stars(mask));
    MulMonotone(1, |mask| + 1, 1, Pow(|text| + 1, Stars(mask)));
    if mask == "" {
      AcceptsEmptyMask(text);
      return true, calls;
    }
    if |mask| >= 2 && mask[1] == '*' {
      found, calls := MatchStar(mask, text);
      return;
    }
    if mask == "$" {
      AcceptsDollar(text);
      return text == "", calls;
    }
    AcceptsOne(mask, text);
    if text != "" && (mask[0] == '.' || mask[0] == text[0]) {
      ghost var more: nat;
      found, more := MatchHere(mask[1..], text[1..]);
      calls := calls + more;
      BoundPaysForOne(mask, |text|);
      return;
    }
    return false, calls;
  }

  /** The `do`/`while` loop of `matchhere`: shortest repetition first. */
  method MatchStar(mask: string, text: string) returns (found: bool, ghost calls: nat)
    requires StarHead(mask)
    ensures found <==> AcceptsHere(mask, text)
    ensures calls <= CallBound(mask, |text|)
    decreases |mask|, 0
  {
    AcceptsMany(mask, text);
    BoundPaysForStar(mask, |text|);
    ghost var rest := CallBound(mask[2..], |text|);
    var c, k := mask[0], 0;
    calls := 1;
    while true
      invariant 0 <= k <= |text|
      invariant StarTakes(mask, text, k)
      invariant forall i: nat | i < k :: !AcceptsHere(mask[2..], text[i..])
      invariant calls <= 1 + k * rest
      decreases |text| - k
    {
      ghost var more: nat;
      found, more := MatchHere(mask[2..], text[k..]);
      BoundGrowsWithText(mask[2..], |text| - k, |text|);
      calls := calls + more;
      assert calls <= 1 + (k + 1) * rest by { assert (k + 1) * rest == k * rest + rest; }
      MulMonotone(k + 1, |text| + 1, rest, rest);
      if found {
        return;
      }
      if !(k < |text| && (text[k] == c || c == '.')) {
        assert k < |text| ==> !Fits(ToAtom(mask[0]), text[k]);
        return false, calls;
      }
      k := k + 1;
    }
  }

  /** `match`: does the mask match anywhere in the text? */
  method Match(mask: string, text: string) returns (found: bool, ghost calls: nat)
    ensures found <==> Accepts(mask, text)
    ensures calls <= if Anchored(mask) then CallBound(mask[1..], |text|)
                     else (|mask| + 1) * Pow(|text| + 1, Stars(mask) + 1)
  {
    var n := |text|;
    ghost var bound := CallBound(mask, n);
    assert (|mask| + 1) * Pow(n + 1, Stars(mask) + 1) == (n + 1) * bound by {
      MulRearrange(n + 1, |mask| + 1, Pow(n + 1, Stars(mask)));
    }
    if Anchored(mask) {
      found, calls := MatchHere(mask[1..], text);
      return;
    }
    var i := 0;
    calls := 0;
    while true
      invariant 0 <= i <= n
      invariant forall k | 0 <= k < i :: !AcceptsHere(mask, text[k..])
      invariant calls <= i * bound
      decreases n - i
    {
      ghost var more: nat;
      found, more := MatchHere(mask, text[i..]);
      BoundGrowsWithText(mask, n - i, n);
      calls := calls + more;
      assert calls <= (i + 1) * bound by { assert (i + 1) * bound == i * bound + bound; }
      MulMonotone(i + 1, n + 1, bound, bound);
      if found {
        return;
      }
      if i == n {
        return false, calls;
      }
      i := i + 1;
    }
  }

  // ---- The documented uses of masks ----

  /** No character of `p` has a special meaning. */
  ghost predicate Plain(p: string) {
    forall i | 0 <= i < |p| :: p[i] != '.' && p[i] != '*' && p[i] != '^' && p[i] != '$'
  }

  lemma {:induction false} AcceptsPlainPrefix(p: string, rest: string, text: string)
    requires Plain(p) && (rest == "" || rest[0] != '*')
    ensures AcceptsHere(p + rest, text) <==> p <= text && AcceptsHere(rest, text[|p|..])
    decreases |p|
  {
    if p == "" {
      assert p + rest == rest && text[0..] == text;
    } else {
      var mask := p + rest;
      assert PlainHead(mask) && mask[1..] == p[1..] + rest;
      AcceptsOne(mask, text);
      if text != "" {
        AcceptsPlainPrefix(p[1..], rest, text[1..]);
        if p <= text {
          assert text[1..][|p| - 1..] == text[|p|..] && p[1..] <= text[1..];
        }
        if text[0] == p[0] && p[1..] <= text[1..] {
          assert p == [p[0]] + p[1..] && text == [text[0]] + text[1..];
        }
      }
    }
  }

  /** `.*` absorbs any prefix of the text. */
  lemma AcceptsAnyThen(rest: string, text: string)
    ensures AcceptsHere(".*" + rest, text) <==> exists k: nat | k <= |text| :: AcceptsHere(rest, text[k..])
  {
    var mask := ".*" + rest;
    assert mask[2..] == rest;
    AcceptsMany(mask, text);
    forall k: nat | k <= |text| ensures StarTakes(mask, text, k) {}
  }

  ghost predicate OccursAt(p: string, text: string, i: nat) {
    i <= |text| && p <= text[i..]
  }

  /** `^prefix.*$` accepts exactly the keys that start with the prefix. */
  lemma PrefixMask(p: string, key: string)
    requires Plain(p)
    ensures Accepts("^" + p + ".*$", key) <==> p <= key
  {
    var mask := "^" + p + ".*$";
    assert mask[1..] == p + ".*$";
    AcceptsPlainPrefix(p, ".*$", key);
    if p <= key {
      var rest := key[|p|..];
      assert ".*" + "$" == ".*$";
      AcceptsAnyThen("$", rest);
      AcceptsDollar(rest[|rest|..]);
    }
  }

  /** `^key$` accepts exactly that key. */
  lemma ExactMask(p: string, key: string)
    requires Plain(p)
    ensures Accepts("^" + p + "$", key) <==> key == p
  {
    var mask := "^" + p + "$";
    assert mask[1..] == p + "$";
    AcceptsPlainPrefix(p, "$", key);
    if p <= key {
      AcceptsDollar(key[|p|..]);
    }
  }

  /** No character of `p` has a special meaning, dots aside. */
  ghost predicate Dotted(p: string) {
    forall i | 0 <= i < |p| :: p[i] != '*' && p[i] != '^' && p[i] != '$'
  }

  lemma {:induction false} AcceptsItselfHere(p: string)
    requires Dotted(p)
    ensures AcceptsHere(p, p)
    decreases |p|
  {
    if p == "" {
      AcceptsEmptyMask(p);
    } else {
      AcceptsItselfHere(p[1..]);
      assert p[0] != '$' && (|p| >= 2 ==> p[1] != '*');
      AcceptsOne(p, p);
    }
  }

  lemma AcceptsItself(p: string)
    requires Dotted(p)
    ensures Accepts(p, p)
  {
    AcceptsItselfHere(p);
    assert p[0..] == p;
  }

  /** A mask without special characters accepts exactly the keys that contain it. */
  lemma PlainMask(p: string, key: string)
    requires Plain(p)
    ensures Accepts(p, key) <==> exists i: nat :: OccursAt(p, key, i)
  {
    assert p + "" == p;
    forall i: nat | i <= |key| ensures AcceptsHere(p, key[i..]) <==> OccursAt(p, key, i) {
      AcceptsPlainPrefix(p, "", key[i..]);
      if p <= key[i..] {
        AcceptsEmptyMask(key[i..][|p|..]);
      }
    }
  }

  /** `.*substring.*` asks for nothing more than the substring itself. */
  lemma SubstringMask(p: string, key: string)
    requires Plain(p)
    ensures Accepts(".*" + p + ".*", key) <==> exists i: nat :: OccursAt(p, key, i)
  {
    var mask := ".*" + (p + ".*");
    assert ".*" + p + ".*" == mask;
    forall i: nat | i <= |key| ensures AcceptsHere(p + ".*", key[i..]) <==> OccursAt(p, key, i) {
      AcceptsPlainPrefix(p, ".*", key[i..]);
      if p <= key[i..] {
        var rest := key[i..][|p|..];
        assert ".*" + "" == ".*";
        AcceptsEmptyMask(rest[0..]);
        AcceptsAnyThen("", rest);
      }
    }
    if i :| 0 <= i <= |key| && AcceptsHere(mask, key[i..]) {
      AcceptsAnyThen(p + ".*", key[i..]);
      var k: nat :| k <= |key[i..]| && AcceptsHere(p + ".*", key[i..][k..]);
      assert key[i..][k..] == key[i + k..];
    }
    if i: nat :| OccursAt(p, key, i) {
      AcceptsAnyThen(p + ".*", key[0..]);
      assert key[0..][i..] == key[i..];
      assert AcceptsHere(mask, key[0..]);
    }
  }
}
