/** The CRC16 that Redis Cluster hashes keys with (redis-trib.rb, module RedisClusterCRC16): the
    table-driven loop computes the remainder of the message, shifted by sixteen places, modulo
    x^16 + x^12 + x^5 + 1 over GF(2). */
module Crc16 {
  import opened CrcTable
  import opened PolynomialDivision

  // ---- The register in polynomial terms ----

  /** The coefficient of x^k held by the register. */
  function Place(r: bv16, k: bv16): Bit {
    if k < 16 && (r >> k) & 1 == 1 then One else Zero
  }

  function Places(r: bv16): bv16 -> Bit {
    (k: bv16) => Place(r, k)
  }

  /** The sixteen coefficients held by the register, highest first. */
  function RegisterBits(r: bv16): Register {
    Tabulate(Places(r))
  }

  /** A byte at the top of a register. */
  function AtTop(b: bv8): bv16 {
    b as bv16 << 8
  }

  /** The eight coefficients of a byte, highest first. */
  function ByteBits(b: bv8): seq<Bit> {
    RegisterBits(AtTop(b))[..8]
  }

  /** The message polynomial of a byte string, highest coefficient first. */
  function MessageBits(bytes: seq<bv8>): seq<Bit> {
    if bytes == [] then []
    else MessageBits(bytes[..|bytes| - 1]) + ByteBits(bytes[|bytes| - 1])
  }

  lemma ShiftPlace(r: bv16, k: bv16)
    requires k < 16
    ensures Place(Shift(r), k) == if k == 0 then Place(r, 15)
                                  else if k == 5 || k == 12 then Plus(Place(r, k - 1), Place(r, 15))
                                  else Place(r, k - 1)
  {
  }

  /** A shift of the register is a division step with a zero coefficient. */
  lemma ShiftIsStep(r: bv16)
    ensures RegisterBits(Shift(r)) == DivideStep(RegisterBits(r), Zero)
  {
    forall k: bv16 | k < 16
      ensures Places(Shift(r))(k) == if k == 0 then Places(r)(15)
                                     else if k == 5 || k == 12 then Plus(Places(r)(k - 1), Places(r)(15))
                                     else Places(r)(k - 1)
    {
      ShiftPlace(r, k);
    }
    SteppedRegister(Places(Shift(r)), Places(r));
  }

  lemma XorPlace(r: bv16, b: bv8, k: bv16)
    requires k < 16
    ensures Place(r ^ AtTop(b), k) == if k < 8 then Place(r, k) else Plus(Place(r, k), Place(AtTop(b), k))
  {
  }

  lemma AddByte(r: bv16, b: bv8)
    ensures RegisterBits(r ^ AtTop(b)) == AddAtTop(RegisterBits(r), ByteBits(b))
  {
    var x := r ^ AtTop(b);
    forall k: bv16 | k < 16
      ensures Places(x)(k) == if k < 8 then Places(r)(k) else Plus(Places(r)(k), Places(AtTop(b))(k))
    {
      XorPlace(r, b, k);
    }
    SummedRegister(Places(x), Places(r), Places(AtTop(b)));
  }

  /** Eight shifts are eight division steps, whatever word operation steps the register. */
  lemma EightSteps(bits: bv16 -> Register, shift: bv16 -> bv16, r: bv16)
    requires forall x :: bits(shift(x)) == DivideStep(bits(x), Zero)
    ensures bits(shift(shift(shift(shift(shift(shift(shift(shift(r)))))))))
         == Feed(bits(r), Zeros(8))
  {
    FourSteps(bits, shift, r);
    var middle := shift(shift(shift(shift(r))));
    FourSteps(bits, shift, middle);
    FeedAppend(bits(r), Zeros(4), Zeros(4));
    assert Zeros(4) + Zeros(4) == Zeros(8);
  }

  lemma FourSteps(bits: bv16 -> Register, shift: bv16 -> bv16, r: bv16)
    requires forall x :: bits(shift(x)) == DivideStep(bits(x), Zero)
    ensures bits(shift(shift(shift(shift(r))))) == Feed(bits(r), Zeros(4))
  {
    FeedZero(bits(r), 3);
    var r1 := shift(r);
    FeedZero(bits(r1), 2);
    var r2 := shift(r1);
    FeedZero(bits(r2), 1);
    var r3 := shift(r2);
    FeedZero(bits(r3), 0);
  }

  lemma Shift8Feeds(r: bv16)
    ensures RegisterBits(Shift8(r)) == Feed(RegisterBits(r), Zeros(8))
  {
    forall x ensures RegisterBits(Shift(x)) == DivideStep(RegisterBits(x), Zero) {
      ShiftIsStep(x);
    }
    EightSteps(RegisterBits, Shift, r);
  }

  // ---- The loop ----

  /** Adding the entry of the top byte equals eight shifts of the register with the byte added. */
  lemma TableStep(crc: bv16, b: bv8)
    ensures ((crc << 8) & 0xffff) ^ Shift8((((crc >> 8) ^ b as bv16) & 0xff) << 8) == Shift8(crc ^ AtTop(b))
  {
  }

  /** One table lookup shifts a byte in. */
  lemma LookupShifts(crc: bv16, b: bv8, index: bv16, next: bv16)
    requires index == ((crc >> 8) ^ b as bv16) & 0xff
    requires index as nat < 256 && next == ((crc << 8) & 0xffff) ^ TABLE[index as nat]
    ensures next == ShiftIn(crc, b)
  {
    TableStep(crc, b);
    TableIsCorrect(index);
    assert TABLE[index as nat] == Shift8((((crc >> 8) ^ b as bv16) & 0xff) << 8);
  }

  /** Takes a register through a byte string, from zero. */
  function Fold(step: (bv16, bv8) -> bv16, bytes: seq<bv8>): bv16 {
    if bytes == [] then 0 else step(Fold(step, bytes[..|bytes| - 1]), bytes[|bytes| - 1])
  }

  lemma FoldSnoc(step: (bv16, bv8) -> bv16, bytes: seq<bv8>, b: bv8, longer: seq<bv8>)
    requires longer == bytes + [b]
    ensures Fold(step, longer) == step(Fold(step, bytes), b)
  {
    assert longer[..|bytes|] == bytes;
  }

  /** Adds a byte at the top of the register and shifts it through. */
  function ShiftIn(crc: bv16, b: bv8): bv16 {
    Shift8(crc ^ AtTop(b))
  }

  /** The hash of a byte string. */
  function Crc(bytes: seq<bv8>): bv16 {
    Fold(ShiftIn, bytes)
  }

  lemma EmptyRegister()
    ensures RegisterBits(0) == ZERO
  {
    assert forall k: bv16 :: Places(0)(k) == Zero;
  }

  /** Shifting a byte in divides by its eight coefficients. */
  lemma ShiftDivides(message: seq<Bit>, crc: bv16, b: bv8, next: bv16)
    requires RegisterBits(crc) == Divide(message) && next == ShiftIn(crc, b)
    ensures RegisterBits(next) == Divide(message + ByteBits(b))
  {
    Shift8Feeds(crc ^ AtTop(b));
    AddByte(crc, b);
    AddThenFeedZeros(RegisterBits(crc), ByteBits(b));
    DivideAppend(message, ByteBits(b));
  }

  lemma {:induction false} CrcDivides(bytes: seq<bv8>)
    ensures RegisterBits(Crc(bytes)) == Divide(MessageBits(bytes))
  {
    if bytes == [] {
      EmptyRegister();
    } else {
      var n := |bytes| - 1;
      CrcDivides(bytes[..n]);
      ShiftDivides(MessageBits(bytes[..n]), Crc(bytes[..n]), bytes[n], Crc(bytes));
    }
  }

  /** The hash is the remainder of the message times x^16, and nothing else is. */
  lemma CrcIsTheRemainder(bytes: seq<bv8>, r: Register)
    ensures IsRemainder(MessageBits(bytes), r) <==> r == RegisterBits(Crc(bytes))
  {
    CrcDivides(bytes);
    DivideGivesRemainder(MessageBits(bytes));
    if IsRemainder(MessageBits(bytes), r) {
      RemainderIsUnique(MessageBits(bytes), r, RegisterBits(Crc(bytes)));
    }
  }

  lemma IndexInTable(x: bv16)
    ensures (x & 0xff) as nat < 256
  {
  }

  /** The block of the loop: one table lookup a byte. */
  method NextByte(crc: bv16, b: bv8) returns (next: bv16)
    ensures next == ShiftIn(crc, b)
  {
    var index := ((crc >> 8) ^ b as bv16) & 0xff;
    IndexInTable((crc >> 8) ^ b as bv16);
    next := ((crc << 8) & 0xffff) ^ TABLE[index as nat];
    LookupShifts(crc, b, index, next);
  }

  /** `RedisClusterCRC16.crc16` */
  method Compute(bytes: seq<bv8>) returns (crc: bv16)
    ensures crc == Crc(bytes)
    ensures IsRemainder(MessageBits(bytes), RegisterBits(crc))
  {
    crc := 0;
    for i := 0 to |bytes|
      invariant crc == Crc(bytes[..i])
    {
      FoldSnoc(ShiftIn, bytes[..i], bytes[i], bytes[..i + 1]);
      crc := NextByte(crc, bytes[i]);
    }
    assert bytes[..|bytes|] == bytes;
    CrcIsTheRemainder(bytes, RegisterBits(crc));
  }

  lemma CheckFirstThree()
    ensures Crc([0x31, 0x32, 0x33]) == 0x9752
  {
    FoldSnoc(ShiftIn, [], 0x31, [0x31]);
    FoldSnoc(ShiftIn, [0x31], 0x32, [0x31, 0x32]);
    FoldSnoc(ShiftIn, [0x31, 0x32], 0x33, [0x31, 0x32, 0x33]);
  }

  lemma CheckFirstSix()
    ensures Crc([0x31, 0x32, 0x33, 0x34, 0x35, 0x36]) == 0x20e4
  {
    CheckFirstThree();
    FoldSnoc(ShiftIn, [0x31, 0x32, 0x33], 0x34, [0x31, 0x32, 0x33, 0x34]);
    FoldSnoc(ShiftIn, [0x31, 0x32, 0x33, 0x34], 0x35, [0x31, 0x32, 0x33, 0x34, 0x35]);
    FoldSnoc(ShiftIn, [0x31, 0x32, 0x33, 0x34, 0x35], 0x36, [0x31, 0x32, 0x33, 0x34, 0x35, 0x36]);
  }

  /** The documented check value: "123456789" hashes to 0x31C3. */
  lemma CheckValue()
    ensures Crc([0x31, 0x32, 0x33, 0x34, 0x35, 0x36, 0x37, 0x38, 0x39]) == 0x31c3
  {
    CheckFirstSix();
    FoldSnoc(ShiftIn, [0x31, 0x32, 0x33, 0x34, 0x35, 0x36], 0x37, [0x31, 0x32, 0x33, 0x34, 0x35, 0x36, 0x37]);
    FoldSnoc(ShiftIn, [0x31, 0x32, 0x33, 0x34, 0x35, 0x36, 0x37], 0x38,
             [0x31, 0x32, 0x33, 0x34, 0x35, 0x36, 0x37, 0x38]);
    FoldSnoc(ShiftIn, [0x31, 0x32, 0x33, 0x34, 0x35, 0x36, 0x37, 0x38], 0x39,
             [0x31, 0x32, 0x33, 0x34, 0x35, 0x36, 0x37, 0x38, 0x39]);
  }
}
