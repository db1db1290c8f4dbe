/** The dense representation: 16384 six-bit registers in 12288 bytes. */
module HllDense {
  import opened HllBits
  import opened HllSpec

  const DENSE_BYTES := 12288

  /** The string that holds the bytes ends in a terminating zero, which the
      macros may read, and may write back, behind the last register. */
  function At(b: seq<Byte>, i: nat): Byte
  {
    if i < |b| then b[i] else 0
  }

  /** HLL_DENSE_GET_REGISTER. */
  function Get(b: seq<Byte>, i: nat): (v: Byte)
    ensures v <= REGISTER_MAX
  {
    var bit := i * 6;
    GetBits(At(b, bit / 8), At(b, bit / 8 + 1), bit % 8)
  }

  /** HLL_DENSE_SET_REGISTER. */
  function Set(b: seq<Byte>, i: nat, v: Byte): (c: seq<Byte>)
    requires |b| == DENSE_BYTES && i < REGISTERS && v <= REGISTER_MAX
    ensures |c| == |b|
  {
    Store(b, i * 6 / 8, i * 6 % 8, v)
  }

  function Store(b: seq<Byte>, byte: nat, fb: nat, v: Byte): (c: seq<Byte>)
    requires byte < |b| && fb in {0, 2, 4, 6}
    ensures |c| == |b|
  {
    var c := b[byte := SetLow(b[byte], fb, v)];
    if byte + 1 < |b| then c[byte + 1 := SetHigh(c[byte + 1], fb, v)] else c
  }

  function Decode(b: seq<Byte>): (r: seq<Byte>)
    ensures |r| == REGISTERS
    ensures forall i :: 0 <= i < REGISTERS ==> r[i] == Get(b, i) <= REGISTER_MAX
  {
    seq(REGISTERS, i requires 0 <= i < REGISTERS => Get(b, i))
  }

  /** Where register 4k + j starts. */
  lemma Position(k: nat, j: nat)
    requires j < 4
    ensures (4 * k + j) * 6 / 8 == 3 * k + (if j == 0 then 0 else j - 1)
    ensures (4 * k + j) * 6 % 8 == if j == 0 then 0 else 8 - 2 * j
  {}

  /** The j-th of the four registers in bytes 3k to 3k + 2. */
  function GroupAt(b: seq<Byte>, k: nat, j: nat): Byte
    requires j < 4
  {
    Group(At(b, 3 * k), At(b, 3 * k + 1), At(b, 3 * k + 2), At(b, 3 * k + 3), j)
  }

  lemma GetGroup(b: seq<Byte>, i: nat)
    ensures Get(b, i) == GroupAt(b, i / 4, i % 4)
  {
    Position(i / 4, i % 4);
  }

  lemma OtherGroup(b: seq<Byte>, c: seq<Byte>, k: nat, k': nat, j: nat)
    requires k != k' && j < 4
    requires forall n: nat :: n < 3 * k || 3 * k + 2 < n ==> At(c, n) == At(b, n)
    ensures GroupAt(c, k', j) == GroupAt(b, k', j)
  {
    GroupIgnoresNext(At(b, 3 * k' + 2), At(b, 3 * k' + 3), At(c, 3 * k' + 3));
  }

  /** Only the three bytes of the register's own group change. */
  lemma StoreBytes(b: seq<Byte>, k: nat, j: nat, v: Byte)
    requires j < 4 && 3 * k + 2 < |b| && v <= REGISTER_MAX
    ensures var c := Store(b, 3 * k + (if j == 0 then 0 else j - 1), if j == 0 then 0 else 8 - 2 * j, v);
            && (forall n: nat :: n < 3 * k || 3 * k + 2 < n ==> At(c, n) == At(b, n))
            && (At(c, 3 * k), At(c, 3 * k + 1), At(c, 3 * k + 2))
                 == GroupStore(At(b, 3 * k), At(b, 3 * k + 1), At(b, 3 * k + 2), j, v)
  {
    var b0, b1, b2, next := At(b, 3 * k), At(b, 3 * k + 1), At(b, 3 * k + 2), At(b, 3 * k + 3);
    match j {
      case 0 => GroupSet0(b0, b1, b2, next, v);
      case 1 =>
      case 2 =>
      case 3 => GroupSet3(b0, b1, b2, next, v);
    }
  }

  lemma GetSetAt(b: seq<Byte>, k: nat, j: nat, v: Byte, k': nat, j': nat)
    requires |b| == DENSE_BYTES && j < 4 && j' < 4 && 4 * k + j < REGISTERS && v <= REGISTER_MAX
    ensures GroupAt(Set(b, 4 * k + j, v), k', j') == if k' == k && j' == j then v else GroupAt(b, k', j')
  {
    var c := Set(b, 4 * k + j, v);
    Position(k, j);
    StoreBytes(b, k, j, v);
    if k == k' {
      GroupGetStore(At(b, 3 * k), At(b, 3 * k + 1), At(b, 3 * k + 2), At(b, 3 * k + 3), j, v, j');
    } else {
      OtherGroup(b, c, k, k', j');
    }
  }

  /** Storing a register reads back, and leaves every other register alone. */
  lemma GetSet(b: seq<Byte>, i: nat, v: Byte, j: nat)
    requires |b| == DENSE_BYTES && i < REGISTERS && j < REGISTERS && v <= REGISTER_MAX
    ensures Get(Set(b, i, v), j) == if j == i then v else Get(b, j)
  {
    GetGroup(b, j);
    GetGroup(Set(b, i, v), j);
    assert i == 4 * (i / 4) + i % 4;
    GetSetAt(b, i / 4, i % 4, v, j / 4, j % 4);
  }

  lemma DecodeSet(b: seq<Byte>, i: nat, v: Byte)
    requires |b| == DENSE_BYTES && i < REGISTERS && v <= REGISTER_MAX
    ensures Decode(Set(b, i, v)) == Decode(b)[i := v]
  {
    forall j | 0 <= j < REGISTERS ensures Decode(Set(b, i, v))[j] == Decode(b)[i := v][j] {
      GetSet(b, i, v, j);
    }
  }

  lemma DecodeZeros()
    ensures Decode(Run(DENSE_BYTES, 0)) == Run(REGISTERS, 0)
  {
    forall j | 0 <= j < REGISTERS ensures Get(Run(DENSE_BYTES, 0), j) == 0 {
      GetGroup(Run(DENSE_BYTES, 0), j);
      GroupZero();
    }
  }
}
