/** The lookup table of the CRC16 (redis-trib.rb, XMODEMCRC16Lookup) and a proof that each of its 256
    entries is what eight shifts make of a byte at the top of the register. */
module CrcTable {

  // ---- The table, eight entries a row ----

  function Rows0(i: nat): seq<bv16> {
    match i
    case 0 => [0x0000, 0x1021, 0x2042, 0x3063, 0x4084, 0x50a5, 0x60c6, 0x70e7]
    case 1 => [0x8108, 0x9129, 0xa14a, 0xb16b, 0xc18c, 0xd1ad, 0xe1ce, 0xf1ef]
    case 2 => [0x1231, 0x0210, 0x3273, 0x2252, 0x52b5, 0x4294, 0x72f7, 0x62d6]
    case _ => [0x9339, 0x8318, 0xb37b, 0xa35a, 0xd3bd, 0xc39c, 0xf3ff, 0xe3de]
  }

  function Rows4(i: nat): seq<bv16> {
    match i
    case 0 => [0x2462, 0x3443, 0x0420, 0x1401, 0x64e6, 0x74c7, 0x44a4, 0x5485]
    case 1 => [0xa56a, 0xb54b, 0x8528, 0x9509, 0xe5ee, 0xf5cf, 0xc5ac, 0xd58d]
    case 2 => [0x3653, 0x2672, 0x1611, 0x0630, 0x76d7, 0x66f6, 0x5695, 0x46b4]
    case _ => [0xb75b, 0xa77a, 0x9719, 0x8738, 0xf7df, 0xe7fe, 0xd79d, 0xc7bc]
  }

  function Rows8(i: nat): seq<bv16> {
    match i
    case 0 => [0x48c4, 0x58e5, 0x6886, 0x78a7, 0x0840, 0x1861, 0x2802, 0x3823]
    case 1 => [0xc9cc, 0xd9ed, 0xe98e, 0xf9af, 0x8948, 0x9969, 0xa90a, 0xb92b]
    case 2 => [0x5af5, 0x4ad4, 0x7ab7, 0x6a96, 0x1a71, 0x0a50, 0x3a33, 0x2a12]
    case _ => [0xdbfd, 0xcbdc, 0xfbbf, 0xeb9e, 0x9b79, 0x8b58, 0xbb3b, 0xab1a]
  }

  function Rows12(i: nat): seq<bv16> {
    match i
    case 0 => [0x6ca6, 0x7c87, 0x4ce4, 0x5cc5, 0x2c22, 0x3c03, 0x0c60, 0x1c41]
    case 1 => [0xedae, 0xfd8f, 0xcdec, 0xddcd, 0xad2a, 0xbd0b, 0x8d68, 0x9d49]
    case 2 => [0x7e97, 0x6eb6, 0x5ed5, 0x4ef4, 0x3e13, 0x2e32, 0x1e51, 0x0e70]
    case _ => [0xff9f, 0xefbe, 0xdfdd, 0xcffc, 0xbf1b, 0xaf3a, 0x9f59, 0x8f78]
  }

  function Rows16(i: nat): seq<bv16> {
    match i
    case 0 => [0x9188, 0x81a9, 0xb1ca, 0xa1eb, 0xd10c, 0xc12d, 0xf14e, 0xe16f]
    case 1 => [0x1080, 0x00a1, 0x30c2, 0x20e3, 0x5004, 0x4025, 0x7046, 0x6067]
    case 2 => [0x83b9, 0x9398, 0xa3fb, 0xb3da, 0xc33d, 0xd31c, 0xe37f, 0xf35e]
    case _ => [0x02b1, 0x1290, 0x22f3, 0x32d2, 0x4235, 0x5214, 0x6277, 0x7256]
  }

  function Rows20(i: nat): seq<bv16> {
    match i
    case 0 => [0xb5ea, 0xa5cb, 0x95a8, 0x8589, 0xf56e, 0xe54f, 0xd52c, 0xc50d]
    case 1 => [0x34e2, 0x24c3, 0x14a0, 0x0481, 0x7466, 0x6447, 0x5424, 0x4405]
    case 2 => [0xa7db, 0xb7fa, 0x8799, 0x97b8, 0xe75f, 0xf77e, 0xc71d, 0xd73c]
    case _ => [0x26d3, 0x36f2, 0x0691, 0x16b0, 0x6657, 0x7676, 0x4615, 0x5634]
  }

  function Rows24(i: nat): seq<bv16> {
    match i
    case 0 => [0xd94c, 0xc96d, 0xf90e, 0xe92f, 0x99c8, 0x89e9, 0xb98a, 0xa9ab]
    case 1 => [0x5844, 0x4865, 0x7806, 0x6827, 0x18c0, 0x08e1, 0x3882, 0x28a3]
    case 2 => [0xcb7d, 0xdb5c, 0xeb3f, 0xfb1e, 0x8bf9, 0x9bd8, 0xabbb, 0xbb9a]
    case _ => [0x4a75, 0x5a54, 0x6a37, 0x7a16, 0x0af1, 0x1ad0, 0x2ab3, 0x3a92]
  }

  function Rows28(i: nat): seq<bv16> {
    match i
    case 0 => [0xfd2e, 0xed0f, 0xdd6c, 0xcd4d, 0xbdaa, 0xad8b, 0x9de8, 0x8dc9]
    case 1 => [0x7c26, 0x6c07, 0x5c64, 0x4c45, 0x3ca2, 0x2c83, 0x1ce0, 0x0cc1]
    case 2 => [0xef1f, 0xff3e, 0xcf5d, 0xdf7c, 0xaf9b, 0xbfba, 0x8fd9, 0x9ff8]
    case _ => [0x6e17, 0x7e36, 0x4e55, 0x5e74, 0x2e93, 0x3eb2, 0x0ed1, 0x1ef0]
  }

  function TableRow(r: nat): (row: seq<bv16>)
    requires r < 32
    ensures |row| == 8
  {
    if r < 4 then Rows0(r)
    else if r < 8 then Rows4(r - 4)
    else if r < 12 then Rows8(r - 8)
    else if r < 16 then Rows12(r - 12)
    else if r < 20 then Rows16(r - 16)
    else if r < 24 then Rows20(r - 20)
    else if r < 28 then Rows24(r - 24)
    else Rows28(r - 28)
  }

  const TABLE: seq<bv16> := seq(256, i requires 0 <= i < 256 => TableRow(i / 8)[i % 8])

  // ---- The register as a machine word ----

  /** Adds `out` times x^12 + x^5 + 1, which is what x^16 leaves. */
  function Reduce(r: bv16, out: bv16): bv16 {
    r ^ out ^ (out << 5) ^ (out << 12)
  }

  /** Shifts the register one place up and reduces what falls out. */
  function Shift(r: bv16): bv16 {
    Reduce(r << 1, r >> 15)
  }

  function Shift4(r: bv16): bv16 {
    Shift(Shift(Shift(Shift(r))))
  }

  function Shift8(r: bv16): bv16 {
    Shift4(Shift4(r))
  }

  // ---- The table holds the effect of eight shifts ----

  function Entry(k: bv16): bv16 {
    Shift8(k << 8)
  }

  /** Eight consecutive values of `f`. */
  function Row(f: bv16 -> bv16, k: bv16): seq<bv16> {
    [f(k), f(k + 1), f(k + 2), f(k + 3), f(k + 4), f(k + 5), f(k + 6), f(k + 7)]
  }

  /** Four rows list `f` from `k` on. */
  ghost predicate FourMatch(f: bv16 -> bv16, rows: nat -> seq<bv16>, k: bv16) {
    rows(0) == Row(f, k) && rows(1) == Row(f, k + 8) && rows(2) == Row(f, k + 16) && rows(3) == Row(f, k + 24)
  }

  lemma IndexParts(x: bv16)
    requires x < 256
    ensures (x & 7) as nat < 8 && (x >> 3) as nat < 32
    ensures x as nat == 8 * (x >> 3) as nat + (x & 7) as nat
  {
  }

  lemma TableAt(r: nat, j: nat)
    requires r < 32 && j < 8
    ensures TABLE[8 * r + j] == TableRow(r)[j]
  {
    assert (8 * r + j) / 8 == r && (8 * r + j) % 8 == j;
  }

  lemma SelectEntry(f: bv16 -> bv16, x: bv16)
    requires x < 256
    ensures (x & 7) as nat < 8 && Row(f, (x >> 3) << 3)[(x & 7) as nat] == f(x)
  {
    var j := x & 7;
    assert j == 0 || j == 1 || j == 2 || j == 3 || j == 4 || j == 5 || j == 6 || j == 7;
  }

  lemma Lookup(f: bv16 -> bv16, x: bv16)
    requires x < 256 && (x >> 3) as nat < 32 && TableRow((x >> 3) as nat) == Row(f, (x >> 3) << 3)
    ensures x as nat < 256 && TABLE[x as nat] == f(x)
  {
    IndexParts(x);
    TableAt((x >> 3) as nat, (x & 7) as nat);
    SelectEntry(f, x);
  }

  /** Four matching rows make thirty-two correct entries. */
  lemma LookupInFour(f: bv16 -> bv16, rows: nat -> seq<bv16>, r: nat, k: bv16, x: bv16)
    requires r <= 28 && k & 31 == 0 && k as nat == 8 * r && k <= x < 256 && x - k < 32
    requires FourMatch(f, rows, k)
    requires TableRow(r) == rows(0) && TableRow(r + 1) == rows(1)
    requires TableRow(r + 2) == rows(2) && TableRow(r + 3) == rows(3)
    ensures x as nat < 256 && TABLE[x as nat] == f(x)
  {
    var j := (x >> 3) & 3;
    assert j == 0 || j == 1 || j == 2 || j == 3;
    RowNumber(r, k, x);
    assert TableRow((x >> 3) as nat) == rows(j as nat);
    assert rows(j as nat) == Row(f, (x >> 3) << 3);
    Lookup(f, x);
  }

  lemma RowNumber(r: nat, k: bv16, x: bv16)
    requires r <= 28 && k & 31 == 0 && k as nat == 8 * r && k <= x < 256 && x - k < 32
    ensures (x >> 3) as nat == r + ((x >> 3) & 3) as nat
    ensures (x >> 3) << 3 == k + (((x >> 3) & 3) << 3)
  {
  }

  lemma RowsAt0()
    ensures FourMatch(Entry, Rows0, 0)
  {
  }

  lemma EntriesAt0(x: bv16)
    requires 0 <= x < 32
    ensures x as nat < 256 && TABLE[x as nat] == Entry(x)
  {
    RowsAt0();
    LookupInFour(Entry, Rows0, 0, 0, x);
  }

  lemma RowsAt4()
    ensures FourMatch(Entry, Rows4, 32)
  {
  }

  lemma EntriesAt32(x: bv16)
    requires 32 <= x < 64
    ensures x as nat < 256 && TABLE[x as nat] == Entry(x)
  {
    RowsAt4();
    LookupInFour(Entry, Rows4, 4, 32, x);
  }

  lemma RowsAt8()
    ensures FourMatch(Entry, Rows8, 64)
  {
  }

  lemma EntriesAt64(x: bv16)
    requires 64 <= x < 96
    ensures x as nat < 256 && TABLE[x as nat] == Entry(x)
  {
    RowsAt8();
    LookupInFour(Entry, Rows8, 8, 64, x);
  }

  lemma RowsAt12()
    ensures FourMatch(Entry, Rows12, 96)
  {
  }

  lemma EntriesAt96(x: bv16)
    requires 96 <= x < 128
    ensures x as nat < 256 && TABLE[x as nat] == Entry(x)
  {
    RowsAt12();
    LookupInFour(Entry, Rows12, 12, 96, x);
  }

  lemma RowsAt16()
    ensures FourMatch(Entry, Rows16, 128)
  {
  }

  lemma EntriesAt128(x: bv16)
    requires 128 <= x < 160
    ensures x as nat < 256 && TABLE[x as nat] == Entry(x)
  {
    RowsAt16();
    LookupInFour(Entry, Rows16, 16, 128, x);
  }

  lemma RowsAt20()
    ensures FourMatch(Entry, Rows20, 160)
  {
  }

  lemma EntriesAt160(x: bv16)
    requires 160 <= x < 192
    ensures x as nat < 256 && TABLE[x as nat] == Entry(x)
  {
    RowsAt20();
    LookupInFour(Entry, Rows20, 20, 160, x);
  }

  lemma RowsAt24()
    ensures FourMatch(Entry, Rows24, 192)
  {
  }

  lemma EntriesAt192(x: bv16)
    requires 192 <= x < 224
    ensures x as nat < 256 && TABLE[x as nat] == Entry(x)
  {
    RowsAt24();
    LookupInFour(Entry, Rows24, 24, 192, x);
  }

  lemma RowsAt28()
    ensures FourMatch(Entry, Rows28, 224)
  {
  }

  lemma EntriesAt224(x: bv16)
    requires 224 <= x < 256
    ensures x as nat < 256 && TABLE[x as nat] == Entry(x)
  {
    RowsAt28();
    LookupInFour(Entry, Rows28, 28, 224, x);
  }

  /** Entry `x` is what the byte `x` at the top of the register becomes after eight shifts. */
  lemma TableIsCorrect(x: bv16)
    requires x < 256
    ensures x as nat < 256 && TABLE[x as nat] == Shift8(x << 8)
  {
    if x < 32 {
      EntriesAt0(x);
    } else if x < 64 {
      EntriesAt32(x);
    } else if x < 96 {
      EntriesAt64(x);
    } else if x < 128 {
      EntriesAt96(x);
    } else if x < 160 {
      EntriesAt128(x);
    } else if x < 192 {
      EntriesAt160(x);
    } else if x < 224 {
      EntriesAt192(x);
    } else {
      EntriesAt224(x);
    }
  }
}
