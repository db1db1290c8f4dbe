/** The register and opcode macros of src/hyperloglog.c, on eight-bit bytes. */
module HllBits {

  type Byte = bv8

  const HDR_SIZE := 16
  const REGISTER_MAX: Byte := 63
  const VAL_MAX_VALUE: Byte := 32
  const VAL_MAX_LEN := 4
  const ZERO_MAX_LEN := 64
  const XZERO_MAX_LEN := 16384

  // ----------------------------------------------------------------- opcodes

  predicate IsZero(p: Byte) { p & 0xc0 == 0 }

  predicate IsXZero(p: Byte) { p & 0xc0 == 0x40 }

  predicate IsVal(p: Byte) { p & 0x80 != 0 }

  /** HLL_SPARSE_IS_VAL tests one bit and the other two test two: every byte
      starts exactly one kind of opcode. */
  lemma OpcodeKinds(p: Byte)
    ensures IsZero(p) || IsXZero(p) || IsVal(p)
    ensures !(IsZero(p) && IsXZero(p)) && !(IsZero(p) && IsVal(p)) && !(IsXZero(p) && IsVal(p))
  {}

  function ZeroLen(p: Byte): (n: nat)
    ensures 1 <= n <= ZERO_MAX_LEN
  {
    (p & 0x3f) as nat + 1
  }

  function XZeroLen(p: Byte, q: Byte): (n: nat)
    ensures 1 <= n <= XZERO_MAX_LEN
  {
    (p & 0x3f) as nat * 256 + q as nat + 1
  }

  function ValValue(p: Byte): (v: Byte)
    ensures 1 <= v <= VAL_MAX_VALUE
  {
    ((p >> 2) & 0x1f) + 1
  }

  function ValLen(p: Byte): (n: nat)
    ensures 1 <= n <= VAL_MAX_LEN
  {
    (p & 0x3) as nat + 1
  }

  /** The byte that stores n.  Counting up spares the verifier the conversion of
      a symbolic integer to a bit-vector. */
  function ToByte(n: nat): (b: Byte)
    requires n < 256
    ensures b as nat == n
  {
    if n == 0 then 0
    else
      Successor(ToByte(n - 1));
      ToByte(n - 1) + 1
  }

  lemma Successor(b: Byte)
    requires b as nat < 255
    ensures (b + 1) as nat == b as nat + 1
  {}

  lemma HighBit(b: Byte)
    ensures b & 0x80 == 0 <==> b as nat < 128
  {}

  lemma LowBits(b: Byte)
    requires b as nat < 64
    ensures b < 64 && b & 0x3f == b && IsZero(b)
    ensures IsXZero(b | 0x40) && (b | 0x40) & 0x3f == b
  {}

  function ZeroSet(len: nat): (p: Byte)
    requires 1 <= len <= ZERO_MAX_LEN
    ensures IsZero(p) && ZeroLen(p) == len
  {
    LowBits(ToByte(len - 1));
    ToByte(len - 1)
  }

  function XZeroSet(len: nat): (r: (Byte, Byte))
    requires 1 <= len <= XZERO_MAX_LEN
    ensures IsXZero(r.0) && XZeroLen(r.0, r.1) == len
  {
    var l := len - 1;
    LowBits(ToByte(l / 256));
    (ToByte(l / 256) | 0x40, ToByte(l % 256))
  }

  function ValSet(val: Byte, len: nat): (p: Byte)
    requires 1 <= val <= VAL_MAX_VALUE && 1 <= len <= VAL_MAX_LEN
    ensures IsVal(p) && ValValue(p) == val && ValLen(p) == len
  {
    var l := ToByte(len - 1);
    ValParts(val, l);
    (((val - 1) << 2) | l) | 0x80
  }

  lemma ValParts(val: Byte, l: Byte)
    requires 1 <= val <= VAL_MAX_VALUE && l as nat <= 3
    ensures var p := (((val - 1) << 2) | l) | 0x80; IsVal(p) && ValValue(p) == val && p & 0x3 == l
  {}

  // --------------------------------------------------------- dense registers

  /** Shifts by the amounts that occur.  The cases spare the verifier the
      conversion of a symbolic amount to a bit-vector. */
  function Shr(b: bv32, n: nat): bv32
    requires n in {0, 2, 4, 6, 8}
  {
    match n case 0 => b case 2 => b >> 2 case 4 => b >> 4 case 6 => b >> 6 case _ => b >> 8
  }

  function Shl(b: bv32, n: nat): bv32
    requires n in {0, 2, 4, 6, 8}
  {
    match n case 0 => b case 2 => b << 2 case 4 => b << 4 case 6 => b << 6 case _ => b << 8
  }

  /** HLL_DENSE_GET_REGISTER on the two bytes that hold the register, whose
      first bit is bit `fb` of the first. */
  function GetBits(b0: Byte, b1: Byte, fb: nat): (v: Byte)
    requires fb in {0, 2, 4, 6}
    ensures v <= REGISTER_MAX
  {
    ((Shr(b0 as bv32, fb) | Shl(b1 as bv32, 8 - fb)) & 63) as Byte
  }

  /** What HLL_DENSE_SET_REGISTER stores in the first of the two bytes. */
  function SetLow(b0: Byte, fb: nat, v: Byte): Byte
    requires fb in {0, 2, 4, 6}
  {
    (((b0 as bv32 & !Shl(63, fb)) | Shl(v as bv32, fb)) & 0xff) as Byte
  }

  /** What HLL_DENSE_SET_REGISTER stores in the second of the two bytes. */
  function SetHigh(b1: Byte, fb: nat, v: Byte): Byte
    requires fb in {0, 2, 4, 6}
  {
    (((b1 as bv32 & !Shr(63, 8 - fb)) | Shr(v as bv32, 8 - fb)) & 0xff) as Byte
  }

  /** Four registers occupy three bytes; `next` is the byte behind them. */
  function Group(b0: Byte, b1: Byte, b2: Byte, next: Byte, j: nat): Byte
    requires j < 4
  {
    match j
    case 0 => GetBits(b0, b1, 0)
    case 1 => GetBits(b0, b1, 6)
    case 2 => GetBits(b1, b2, 4)
    case 3 => GetBits(b2, next, 2)
  }

  lemma GroupIgnoresNext(b2: Byte, x: Byte, y: Byte)
    ensures GetBits(b2, x, 2) == GetBits(b2, y, 2)
  {}

  lemma GroupZero()
    ensures forall j: nat | j < 4 :: Group(0, 0, 0, 0, j) == 0
  {}

  lemma GroupSet0(b0: Byte, b1: Byte, b2: Byte, next: Byte, v: Byte)
    requires v <= REGISTER_MAX
    ensures SetHigh(b1, 0, v) == b1
    ensures forall j: nat | j < 4 ::
      Group(SetLow(b0, 0, v), b1, b2, next, j) == if j == 0 then v else Group(b0, b1, b2, next, j)
  {}

  lemma GroupSet1(b0: Byte, b1: Byte, b2: Byte, next: Byte, v: Byte)
    requires v <= REGISTER_MAX
    ensures forall j: nat | j < 4 ::
      Group(SetLow(b0, 6, v), SetHigh(b1, 6, v), b2, next, j) == if j == 1 then v else Group(b0, b1, b2, next, j)
  {}

  lemma GroupSet2(b0: Byte, b1: Byte, b2: Byte, next: Byte, v: Byte)
    requires v <= REGISTER_MAX
    ensures forall j: nat | j < 4 ::
      Group(b0, SetLow(b1, 4, v), SetHigh(b2, 4, v), next, j) == if j == 2 then v else Group(b0, b1, b2, next, j)
  {}

  lemma GroupSet3(b0: Byte, b1: Byte, b2: Byte, next: Byte, v: Byte)
    requires v <= REGISTER_MAX
    ensures SetHigh(next, 2, v) == next
    ensures forall j: nat | j < 4 ::
      Group(b0, b1, SetLow(b2, 2, v), next, j) == if j == 3 then v else Group(b0, b1, b2, next, j)
  {}

  /** The three bytes of a group after a store to its register j. */
  function GroupStore(b0: Byte, b1: Byte, b2: Byte, j: nat, v: Byte): (Byte, Byte, Byte)
    requires j < 4
  {
    match j
    case 0 => (SetLow(b0, 0, v), b1, b2)
    case 1 => (SetLow(b0, 6, v), SetHigh(b1, 6, v), b2)
    case 2 => (b0, SetLow(b1, 4, v), SetHigh(b2, 4, v))
    case 3 => (b0, b1, SetLow(b2, 2, v))
  }

  lemma GroupGetStore(b0: Byte, b1: Byte, b2: Byte, next: Byte, j: nat, v: Byte, i: nat)
    requires j < 4 && i < 4 && v <= REGISTER_MAX
    ensures var (c0, c1, c2) := GroupStore(b0, b1, b2, j, v);
            Group(c0, c1, c2, next, i) == if i == j then v else Group(b0, b1, b2, next, i)
  {
    match j {
      case 0 => GroupSet0(b0, b1, b2, next, v);
      case 1 => GroupSet1(b0, b1, b2, next, v);
      case 2 => GroupSet2(b0, b1, b2, next, v);
      case 3 => GroupSet3(b0, b1, b2, next, v);
    }
  }

  /** The expressions of the unrolled sum for one group of four registers. */
  lemma UnrolledGroup(b0: Byte, b1: Byte, b2: Byte, next: Byte)
    ensures b0 & 63 == Group(b0, b1, b2, next, 0)
    ensures ((b0 as bv32 >> 6) | (b1 as bv32 << 2)) & 63 == Group(b0, b1, b2, next, 1) as bv32
    ensures ((b1 as bv32 >> 4) | (b2 as bv32 << 4)) & 63 == Group(b0, b1, b2, next, 2) as bv32
    ensures (b2 >> 2) & 63 == Group(b0, b1, b2, next, 3)
  {}

  // ------------------------------------------------------------ hllPatLen

  function Pow2(k: nat): (r: nat)
    ensures r > 0
  {
    if k == 0 then 1 else 2 * Pow2(k - 1)
  }

  /** Bit k of a 64-bit hash, `hash & (1 << k)`. */
  predicate Bit(hash: nat, k: nat)
  {
    hash / Pow2(k) % 2 == 1
  }

  lemma IndexRange()
    ensures Pow2(14) == 16384
  {
    assert Pow2(7) == 128;
    assert Pow2(10) == 1024;
    assert Pow2(13) == 8192;
  }

  /** The length of the pattern 0..01 that starts at bit 14 of the hash, and the
      register index in its low 14 bits: hyperloglog.c:459-469.  Bit 63 is forced
      to one, so no pattern is longer than 50. */
  method PatLen(hash: nat) returns (count: nat, index: nat)
    requires hash < 2 * Pow2(63)
    ensures 1 <= count <= 50 && index < 16384 && index == hash % 16384
    ensures forall k: nat :: 14 <= k < 13 + count ==> !Bit(hash, k)
    ensures count < 50 ==> Bit(hash, 13 + count)
  {
    IndexRange();
    index := hash % Pow2(14);
    var bit := 14;
    count := 1;
    while bit != 63 && !Bit(hash, bit)
      invariant 14 <= bit <= 63 && count == bit - 13
      invariant forall k: nat :: 14 <= k < bit ==> !Bit(hash, k)
    {
      count := count + 1;
      bit := bit + 1;
    }
  }
}
