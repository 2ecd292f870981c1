/** The number that a sequence of binary digits stands for, and the digits of a sixteen-place register. */
module BinaryNumbers {
  import opened PolynomialDivision
  import opened Crc16

  function Digit(bit: Bit): nat {
    if bit == One then 1 else 0
  }

  /** The number with these binary digits, highest first. */
  function Number(bits: seq<Bit>): nat {
    if bits == [] then 0 else 2 * Number(bits[..|bits| - 1]) + Digit(bits[|bits| - 1])
  }

  /** Positional notation is faithful: as many digits with the same number are the same digits. */
  lemma {:induction false} NumberIsInjective(a: seq<Bit>, b: seq<Bit>)
    requires |a| == |b| && Number(a) == Number(b)
    ensures a == b
  {
    if a != [] {
      var n := |a| - 1;
      NumberIsInjective(a[..n], b[..n]);
      assert a == a[..n] + [a[n]] && b == b[..n] + [b[n]];
    }
  }

  // ---- Bytes ----

  function Scaled(n: nat, places: nat): nat {
    if places == 0 then n else 2 * Scaled(n, places - 1)
  }

  lemma {:induction false} NumberAppend(a: seq<Bit>, b: seq<Bit>)
    ensures Number(a + b) == Scaled(Number(a), |b|) + Number(b)
    decreases |b|
  {
    if b == [] {
      assert a + b == a;
    } else {
      var n := |b| - 1;
      NumberAppend(a, b[..n]);
      assert (a + b)[..|a| + n] == a + b[..n];
    }
  }

  /** The same places, `d` apart. */
  lemma ShiftedPlaces(f: bv16 -> Bit, g: bv16 -> Bit, i: nat, d: nat)
    requires i < 16 && d + i < 16 && d in {0, 1, 8}
    requires d == 0 ==> forall k: bv16 | k < 8 :: f(k) == g(k)
    requires d == 1 ==> forall k: bv16 | k < 15 :: f(k) == g(k + 1)
    requires d == 8 ==> forall k: bv16 | k < 6 :: f(k) == g(k + 8)
    requires (d == 0 ==> i >= 8) && (d == 8 ==> 2 <= i)
    ensures At(f, i + d) == At(g, i)
  {
  }

  /** Halving drops the last digit. */
  lemma HalfRegister(y: bv16)
    ensures RegisterBits(y >> 1)[1..] == RegisterBits(y)[..15]
  {
    var half := y >> 1;
    forall k: bv16 | k < 15
      ensures Places(half)(k) == Places(y)(k + 1)
    {
    }
    forall i: nat | i < 15
      ensures RegisterBits(half)[i + 1] == RegisterBits(y)[i]
    {
      ShiftedPlaces(Places(half), Places(y), i, 1);
    }
  }

  lemma LowByte(x: bv16)
    ensures RegisterBits(x & 0xff)[8..] == RegisterBits(x)[8..]
  {
    assert forall k: bv16 | k < 8 :: Places(x & 0xff)(k) == Places(x)(k);
    forall i: nat | 8 <= i < 16
      ensures RegisterBits(x & 0xff)[i] == RegisterBits(x)[i]
    {
      ShiftedPlaces(Places(x & 0xff), Places(x), i, 0);
    }
  }

  lemma HighSix(x: bv16)
    ensures RegisterBits((x >> 8) & 0x3f)[10..] == RegisterBits(x)[2..8]
  {
    var high := (x >> 8) & 0x3f;
    forall k: bv16 | k < 6
      ensures Places(high)(k) == Places(x)(k + 8)
    {
    }
    forall i: nat | 2 <= i < 8
      ensures RegisterBits(high)[i + 8] == RegisterBits(x)[i]
    {
      ShiftedPlaces(Places(high), Places(x), i, 8);
    }
  }

  function Bound(places: nat): bv16 {
    match places
    case 0 => 1 case 1 => 2 case 2 => 4 case 3 => 8 case 4 => 16 case 5 => 32 case 6 => 64 case 7 => 128 case _ => 256
  }

  lemma HalveByte(y: bv16, n: nat)
    requires 0 < n <= 8 && y < Bound(n)
    ensures y >> 1 < Bound(n - 1) && y < 256
    ensures y as nat == 2 * (y >> 1) as nat + Digit(Place(y, 0))
  {
  }

  lemma LastPlace(y: bv16, n: nat)
    requires 0 < n <= 8
    ensures Number(RegisterBits(y)[16 - n..]) == 2 * Number(RegisterBits(y >> 1)[17 - n..]) + Digit(Place(y, 0))
  {
    var bits := RegisterBits(y)[16 - n..];
    HalfRegister(y);
    assert bits[..n - 1] == RegisterBits(y)[..15][16 - n..] == RegisterBits(y >> 1)[1..][16 - n..]
        == RegisterBits(y >> 1)[17 - n..];
  }

  /** The lowest places of a number that has no others are its digits. */
  lemma {:induction false} NumberOfPlaces(y: bv16, n: nat)
    requires n <= 8 && y < Bound(n)
    ensures Number(RegisterBits(y)[16 - n..]) == y as nat
    decreases n
  {
    if n > 0 {
      HalveByte(y, n);
      LastPlace(y, n);
      NumberOfPlaces(y >> 1, n - 1);
    }
  }

  // ---- Words ----

  lemma WordOfBytes(high: bv16, low: bv16)
    requires high < 256 && low < 256
    ensures ((high << 8) | low) as nat == 256 * high as nat + low as nat
  {
  }

  lemma LowFourteen(x: bv16)
    ensures (x & 0x3fff) as nat == 256 * ((x >> 8) & 0x3f) as nat + (x & 0xff) as nat
  {
    WordOfBytes((x >> 8) & 0x3f, x & 0xff);
    assert (((x >> 8) & 0x3f) << 8) | (x & 0xff) == x & 0x3fff;
  }

  lemma JoinTopTwo(top: bv16, rest: bv16)
    requires top < 4 && rest < 0x4000
    ensures ((top << 14) | rest) as nat == 16384 * top as nat + rest as nat
  {
  }

  lemma TopTwo(x: bv16)
    ensures x as nat == 16384 * (x >> 14) as nat + (x & 0x3fff) as nat
  {
    JoinTopTwo(x >> 14, x & 0x3fff);
    assert ((x >> 14) << 14) | (x & 0x3fff) == x;
  }

  lemma FourPlaces(n: nat, places: nat)
    requires places >= 4
    ensures Scaled(n, places) == 16 * Scaled(n, places - 4)
  {
    assert Scaled(n, places) == 4 * Scaled(n, places - 2);
  }

  lemma ScaledByByte(n: nat)
    ensures Scaled(n, 8) == 256 * n
  {
    FourPlaces(n, 8);
    FourPlaces(n, 4);
  }

  lemma FourteenPlaces()
    ensures Scaled(1, 14) == 16384
  {
    FourPlaces(1, 14);
    FourPlaces(1, 10);
    FourPlaces(1, 6);
  }

  lemma {:induction false} NumberBound(bits: seq<Bit>)
    ensures Number(bits) < Scaled(1, |bits|)
  {
    if bits != [] {
      NumberBound(bits[..|bits| - 1]);
    }
  }

  lemma DropMultiples(n: nat, m: nat, r: nat)
    requires n == 16384 * m + r && r < 16384
    ensures n % 16384 == r
  {
  }

  lemma NumberOfFourteen(x: bv16)
    ensures Number(RegisterBits(x)[2..]) == (x & 0x3fff) as nat
  {
    var high, low := (x >> 8) & 0x3f, x & 0xff;
    var bits := RegisterBits(x);
    HighSix(x);
    LowByte(x);
    assert bits[2..] == bits[2..8] + bits[8..];
    NumberAppend(bits[2..8], bits[8..]);
    ScaledByByte(Number(bits[2..8]));
    NumberOfPlaces(high, 6);
    NumberOfPlaces(low, 8);
    LowFourteen(x);
  }

  /** The last fourteen digits of a register are its value modulo 16384. */
  lemma LastFourteenDigits(x: bv16)
    ensures Number(RegisterBits(x)[2..]) == x as nat % 16384
  {
    NumberOfFourteen(x);
    NumberBound(RegisterBits(x)[2..]);
    FourteenPlaces();
    TopTwo(x);
    DropMultiples(x as nat, (x >> 14) as nat, Number(RegisterBits(x)[2..]));
  }
}
