/** Long division by x^16 + x^12 + x^5 + 1 over GF(2). Polynomials are written as their
    coefficients, highest first. Feeding a message into a sixteen-place register, one coefficient at
    a time, ends with the one remainder that the message times x^16 has. */
module PolynomialDivision {

  // ---- Division one coefficient at a time ----

  /** The field GF(2). */
  datatype Bit = Zero | One

  function Plus(a: Bit, b: Bit): Bit {
    if a == b then Zero else One
  }

  const ZERO: seq<Bit> :=
    [Zero, Zero, Zero, Zero, Zero, Zero, Zero, Zero, Zero, Zero, Zero, Zero, Zero, Zero, Zero, Zero]

  type Register = r: seq<Bit> | |r| == 16 witness ZERO

  /** One step: the register moves up one place, and what falls out, plus the next coefficient of the
      message, is added at x^12, x^5 and 1. */
  function DivideStep(r: Register, bit: Bit): Register {
    AddGenerator(r[1..] + [Zero], Plus(r[0], bit))
  }

  /** Adds `out` times x^12 + x^5 + 1, which is what x^16 leaves. */
  function AddGenerator(r: Register, out: Bit): Register {
    r[3 := Plus(r[3], out)][10 := Plus(r[10], out)][15 := Plus(r[15], out)]
  }

  /** The register after dividing a whole message, starting from zero. */
  function Divide(message: seq<Bit>): Register {
    if message == [] then ZERO
    else DivideStep(Divide(message[..|message| - 1]), message[|message| - 1])
  }

  // ---- What the register means ----

  /** The coefficient of x^i. */
  function Coefficient(p: seq<Bit>, i: int): Bit {
    if 0 <= i < |p| then p[|p| - 1 - i] else Zero
  }

  /** The coefficient of x^i in `p` times x^16 + x^12 + x^5 + 1. */
  function TimesGenerator(p: seq<Bit>, i: int): Bit {
    Plus(Plus(Coefficient(p, i - 16), Coefficient(p, i - 12)), Plus(Coefficient(p, i - 5), Coefficient(p, i)))
  }

  /** `message` * x^16 = `quotient` * generator + `remainder`, coefficient by coefficient. */
  ghost predicate DividesAs(message: seq<Bit>, quotient: seq<Bit>, remainder: Register) {
    forall i: int :: Plus(Coefficient(message, i - 16), TimesGenerator(quotient, i)) == Coefficient(remainder, i)
  }

  /** `remainder`, which has degree below 16, is left when `message` * x^16 is divided. */
  ghost predicate IsRemainder(message: seq<Bit>, remainder: Register) {
    exists quotient :: DividesAs(message, quotient, remainder)
  }

  lemma StepDivides(message: seq<Bit>, quotient: seq<Bit>, r: Register, bit: Bit)
    requires DividesAs(message, quotient, r)
    ensures DividesAs(message + [bit], quotient + [Plus(r[0], bit)], DivideStep(r, bit))
  {
    var out := Plus(r[0], bit);
    var m, q, s := message + [bit], quotient + [out], DivideStep(r, bit);
    forall i: int
      ensures Plus(Coefficient(m, i - 16), TimesGenerator(q, i)) == Coefficient(s, i)
    {
      assert Plus(Coefficient(message, i - 17), TimesGenerator(quotient, i - 1)) == Coefficient(r, i - 1);
      assert forall k: int :: Coefficient(q, k) == if k == 0 then out else Coefficient(quotient, k - 1);
      assert Coefficient(m, i - 16) == if i == 16 then bit else Coefficient(message, i - 17);
    }
  }

  /** The register ends with a remainder. */
  lemma {:induction false} DivideGivesRemainder(message: seq<Bit>)
    ensures IsRemainder(message, Divide(message))
  {
    if message == [] {
      assert DividesAs([], [], ZERO);
    } else {
      var n := |message| - 1;
      DivideGivesRemainder(message[..n]);
      var r := Divide(message[..n]);
      var quotient :| DividesAs(message[..n], quotient, r);
      StepDivides(message[..n], quotient, r, message[n]);
      assert message[..n] + [message[n]] == message;
    }
  }

  /** A product with the generator that has degree below 16 has no coefficients: from the top down,
      each coefficient of the factor is forced to zero. */
  lemma {:induction false} SmallProductVanishes(p: seq<Bit>, q: seq<Bit>, k: int)
    requires forall i: int | i >= 16 :: TimesGenerator(p, i) == TimesGenerator(q, i)
    requires k >= 0
    ensures Coefficient(p, k) == Coefficient(q, k)
    decreases |p| + |q| - k
  {
    if k < |p| || k < |q| {
      SmallProductVanishes(p, q, k + 4);
      SmallProductVanishes(p, q, k + 11);
      SmallProductVanishes(p, q, k + 16);
      assert TimesGenerator(p, k + 16) == TimesGenerator(q, k + 16);
    }
  }

  /** There is only one remainder, so the register is it. */
  lemma RemainderIsUnique(message: seq<Bit>, r: Register, s: Register)
    requires IsRemainder(message, r) && IsRemainder(message, s)
    ensures r == s
  {
    var p :| DividesAs(message, p, r);
    var q :| DividesAs(message, q, s);
    forall i: int | i >= 16 ensures TimesGenerator(p, i) == TimesGenerator(q, i) {
      assert Plus(Coefficient(message, i - 16), TimesGenerator(p, i)) == Coefficient(r, i);
      assert Plus(Coefficient(message, i - 16), TimesGenerator(q, i)) == Coefficient(s, i);
    }
    forall k: int ensures Coefficient(p, k) == Coefficient(q, k) {
      if k >= 0 {
        SmallProductVanishes(p, q, k);
      }
    }
    forall j | 0 <= j < 16 ensures r[j] == s[j] {
      var i := 15 - j;
      assert Plus(Coefficient(message, i - 16), TimesGenerator(p, i)) == Coefficient(r, i);
      assert Plus(Coefficient(message, i - 16), TimesGenerator(q, i)) == Coefficient(s, i);
    }
  }

  // ---- Feeding several coefficients at once ----

  function Feed(r: Register, bits: seq<Bit>): Register
    decreases |bits|
  {
    if bits == [] then r else Feed(DivideStep(r, bits[0]), bits[1..])
  }

  lemma {:induction false} FeedAppend(r: Register, a: seq<Bit>, b: seq<Bit>)
    ensures Feed(r, a + b) == Feed(Feed(r, a), b)
    decreases |a|
  {
    if a == [] {
      assert a + b == b;
    } else {
      assert (a + b)[1..] == a[1..] + b;
      FeedAppend(DivideStep(r, a[0]), a[1..], b);
    }
  }

  lemma {:induction false} DivideAppend(message: seq<Bit>, bits: seq<Bit>)
    ensures Divide(message + bits) == Feed(Divide(message), bits)
    decreases |bits|
  {
    if bits == [] {
      assert message + bits == message;
    } else {
      var longer := message + [bits[0]];
      assert longer[..|longer| - 1] == message;
      assert message + bits == longer + bits[1..];
      DivideAppend(longer, bits[1..]);
    }
  }

  /** `bits` added to the highest places of the register. */
  function AddAtTop(r: Register, bits: seq<Bit>): Register
    requires |bits| <= 16
  {
    seq(16, i requires 0 <= i < 16 => if i < |bits| then Plus(r[i], bits[i]) else r[i])
  }

  lemma AddThenStep(r: Register, bits: seq<Bit>)
    requires 0 < |bits| <= 16
    ensures DivideStep(AddAtTop(r, bits), Zero) == AddAtTop(DivideStep(r, bits[0]), bits[1..])
  {
  }

  function Zeros(n: nat): seq<Bit> {
    seq(n, _ => Zero)
  }

  lemma FeedZero(r: Register, n: nat)
    ensures Feed(r, Zeros(n + 1)) == Feed(DivideStep(r, Zero), Zeros(n))
    ensures Zeros(0) == []
  {
    assert Zeros(n + 1)[1..] == Zeros(n);
  }

  /** Adding bits at the top and then feeding zeros is feeding those bits. */
  lemma {:induction false} AddThenFeedZeros(r: Register, bits: seq<Bit>)
    requires |bits| <= 16
    ensures Feed(AddAtTop(r, bits), Zeros(|bits|)) == Feed(r, bits)
    decreases |bits|
  {
    if bits == [] {
      assert AddAtTop(r, bits) == r;
    } else {
      AddThenStep(r, bits);
      AddThenFeedZeros(DivideStep(r, bits[0]), bits[1..]);
      assert Zeros(|bits|)[1..] == Zeros(|bits| - 1);
    }
  }

  // ---- Registers given by their places ----

  /** The value of `f` at place `i`, counted from the highest, of a sixteen-place register. */
  function At(f: bv16 -> Bit, i: nat): Bit {
    match i
    case 0 => f(15) case 1 => f(14) case 2 => f(13) case 3 => f(12)
    case 4 => f(11) case 5 => f(10) case 6 => f(9) case 7 => f(8)
    case 8 => f(7) case 9 => f(6) case 10 => f(5) case 11 => f(4)
    case 12 => f(3) case 13 => f(2) case 14 => f(1) case _ => f(0)
  }

  /** The register whose coefficient of x^k is `f(k)`. */
  function Tabulate(f: bv16 -> Bit): Register {
    seq(16, i requires 0 <= i < 16 => At(f, i))
  }

  /** `f` is `g` after a step with a zero coefficient. */
  ghost predicate Steps(f: bv16 -> Bit, g: bv16 -> Bit) {
    forall k: bv16 | k < 16 :: f(k) == if k == 0 then g(15)
                                       else if k == 5 || k == 12 then Plus(g(k - 1), g(15))
                                       else g(k - 1)
  }

  lemma StepAt(r: Register, i: nat)
    requires i < 16
    ensures DivideStep(r, Zero)[i] == if i == 15 then r[0]
                                      else if i == 3 || i == 10 then Plus(r[i + 1], r[0])
                                      else r[i + 1]
  {
  }

  lemma SteppedPlace(f: bv16 -> Bit, g: bv16 -> Bit, i: nat)
    requires i < 16 && Steps(f, g)
    ensures At(f, i) == if i == 15 then At(g, 0)
                        else if i == 3 || i == 10 then Plus(At(g, i + 1), At(g, 0))
                        else At(g, i + 1)
  {
  }

  lemma SteppedRegister(f: bv16 -> Bit, g: bv16 -> Bit)
    requires Steps(f, g)
    ensures Tabulate(f) == DivideStep(Tabulate(g), Zero)
  {
    forall i: nat | i < 16 ensures Tabulate(f)[i] == DivideStep(Tabulate(g), Zero)[i] {
      SteppedPlace(f, g, i);
      StepAt(Tabulate(g), i);
    }
  }

  /** `f` is `g` with `b` added to the eight highest places. */
  ghost predicate Adds(f: bv16 -> Bit, g: bv16 -> Bit, b: bv16 -> Bit) {
    forall k: bv16 | k < 16 :: f(k) == if k < 8 then g(k) else Plus(g(k), b(k))
  }

  lemma SummedPlace(f: bv16 -> Bit, g: bv16 -> Bit, b: bv16 -> Bit, i: nat)
    requires i < 16 && Adds(f, g, b)
    ensures At(f, i) == if i < 8 then Plus(At(g, i), At(b, i)) else At(g, i)
  {
  }

  lemma SummedRegister(f: bv16 -> Bit, g: bv16 -> Bit, b: bv16 -> Bit)
    requires Adds(f, g, b)
    ensures Tabulate(f) == AddAtTop(Tabulate(g), Tabulate(b)[..8])
  {
    forall i: nat | i < 16 ensures Tabulate(f)[i] == AddAtTop(Tabulate(g), Tabulate(b)[..8])[i] {
      SummedPlace(f, g, b, i);
    }
  }
}
