/** Laws of HyperLogLog objects in terms of their bytes and of plain arithmetic:
    hyperloglog.c:60-180 and 337-386 as a reader of the file format would state them. */
module HllLaws {
  import opened HllBits
  import opened HllSpec
  import opened HllCommands
  import Dense = HllDense
  import Sparse = HllSparse

  // -------------------------------------------------------------------- sums

  /** PE[k] is 1 / 2^k. */
  lemma {:induction false} InvPowIs(k: nat)
    ensures InvPow(k) * Pow2(k) as real == 1.0 && InvPow(k) == 1.0 / Pow2(k) as real
  {
    if k > 0 { InvPowIs(k - 1); }
  }

  /** The sum of 1 / 2^register. */
  function Harmonic(r: seq<Byte>): real
  {
    if r == [] then 0.0 else 1.0 / Pow2(r[0] as nat) as real + Harmonic(r[1..])
  }

  function Zeros(r: seq<Byte>): set<int>
  {
    set i | 0 <= i < |r| && r[i] == 0
  }

  lemma {:induction false} SumIs(r: seq<Byte>)
    ensures Sum(r) == Harmonic(r)
  {
    if r != [] {
      SumConcat([r[0]], r[1..]);
      assert [r[0]] + r[1..] == r;
      SumOne(r[0]);
      InvPowIs(r[0] as nat);
      SumIs(r[1..]);
    }
  }

  lemma {:induction false} ZeroCountIs(r: seq<Byte>)
    ensures ZeroCount(r) == |Zeros(r)|
  {
    if r != [] {
      var n := |r| - 1;
      ZeroCountIs(r[..n]);
      SumConcat(r[..n], [r[n]]);
      assert r[..n] + [r[n]] == r;
      SumOne(r[n]);
      assert forall i :: 0 <= i < n ==> r[..n][i] == r[i];
      assert Zeros(r) == if r[n] == 0 then Zeros(r[..n]) + {n} else Zeros(r[..n]);
    }
  }

  // ----------------------------------------------------------------- opcodes

  /** 00xxxxxx is a run of x + 1 zeros, 01xxxxxx yyyyyyyy one of 256 x + y + 1, and 1vvvvvxx
      one of x + 1 registers of value v + 1. */
  lemma OpcodeLayout(x: Byte, y: Byte, v: Byte)
    ensures x < 64 ==> IsZero(x) && ZeroLen(x) == x as nat + 1
    ensures x < 64 ==> IsXZero(0x40 | x) && XZeroLen(0x40 | x, y) == 256 * x as nat + y as nat + 1
    ensures x < 4 && v < 32 ==>
              var p := 0x80 | (v << 2) | x; IsVal(p) && ValValue(p) == v + 1 && ValLen(p) == x as nat + 1
  {
    if x < 64 { assert x & 0x3f == x && (0x40 | x) & 0x3f == x; }
    if x < 4 && v < 32 { assert (0x80 | (v << 2) | x) & 0x3 == x; }
  }

  /** What the three opcodes stand for. */
  lemma OpcodeMeaning(s: seq<Byte>)
    ensures |s| == 1 && s[0] < 64 ==> Sparse.WellFormed(s) && Sparse.Decode(s) == Run(s[0] as nat + 1, 0)
    ensures |s| == 2 && IsXZero(s[0]) ==>
              Sparse.WellFormed(s) && Sparse.Decode(s) == Run(256 * (s[0] & 0x3f) as nat + s[1] as nat + 1, 0)
    ensures |s| == 1 && s[0] >= 0x80 ==>
              Sparse.WellFormed(s) && Sparse.Decode(s) == Run((s[0] & 0x3) as nat + 1, ((s[0] >> 2) & 0x1f) + 1)
  {
    if s != [] {
      OpcodeKinds(s[0]);
      if s[0] < 64 { OpcodeLayout(s[0], 0, 0); }
      if s[0] >= 0x80 { assert IsVal(s[0]); }
      if Sparse.Complete(s) && |s| == Sparse.OpLen(s) { Sparse.Single(s); }
    }
  }

  // --------------------------------------------------------- dense registers

  /** Bit n of a byte, counted from the least significant one. */
  predicate BitOf(b: Byte, n: nat)
    requires n < 8
  {
    match n
    case 0 => b & 0x01 != 0 case 1 => b & 0x02 != 0 case 2 => b & 0x04 != 0 case 3 => b & 0x08 != 0
    case 4 => b & 0x10 != 0 case 5 => b & 0x20 != 0 case 6 => b & 0x40 != 0 case _ => b & 0x80 != 0
  }

  /** Bit n of three bytes. */
  predicate BitAt(b0: Byte, b1: Byte, b2: Byte, n: nat)
    requires n < 24
  {
    if n < 8 then BitOf(b0, n) else if n < 16 then BitOf(b1, n - 8) else BitOf(b2, n - 16)
  }

  lemma GroupBits0(b0: Byte, b1: Byte, b2: Byte, next: Byte, k: nat)
    requires k < 6
    ensures BitOf(Group(b0, b1, b2, next, 0), k) == BitAt(b0, b1, b2, 0 + k)
  {}

  lemma GroupBits1(b0: Byte, b1: Byte, b2: Byte, next: Byte, k: nat)
    requires k < 6
    ensures BitOf(Group(b0, b1, b2, next, 1), k) == BitAt(b0, b1, b2, 6 + k)
  {}

  lemma GroupBits2(b0: Byte, b1: Byte, b2: Byte, next: Byte, k: nat)
    requires k < 6
    ensures BitOf(Group(b0, b1, b2, next, 2), k) == BitAt(b0, b1, b2, 12 + k)
  {}

  lemma GroupBits3(b0: Byte, b1: Byte, b2: Byte, next: Byte, k: nat)
    requires k < 6
    ensures BitOf(Group(b0, b1, b2, next, 3), k) == BitAt(b0, b1, b2, 18 + k)
  {}

  lemma GroupBits(b0: Byte, b1: Byte, b2: Byte, next: Byte, j: nat, k: nat)
    requires j < 4 && k < 6
    ensures BitOf(Group(b0, b1, b2, next, j), k) == BitAt(b0, b1, b2, 6 * j + k)
  {
    if j == 0 {
      GroupBits0(b0, b1, b2, next, k);
    } else if j == 1 {
      GroupBits1(b0, b1, b2, next, k);
    } else if j == 2 {
      GroupBits2(b0, b1, b2, next, k);
    } else {
      GroupBits3(b0, b1, b2, next, k);
    }
  }

  /** Bit n of the bytes, least significant bits first. */
  predicate BitIn(b: seq<Byte>, n: nat)
    requires n < 8 * |b|
  {
    BitOf(b[n / 8], n % 8)
  }

  lemma BitInGroup(b: seq<Byte>, g: nat, n: nat)
    requires n < 24 && 3 * g + 2 < |b|
    ensures BitIn(b, 24 * g + n) == BitAt(b[3 * g], b[3 * g + 1], b[3 * g + 2], n)
  {
    if n < 8 {
      Place(24 * g + n, 3 * g, n);
    } else if n < 16 {
      Place(24 * g + n, 3 * g + 1, n - 8);
    } else {
      Place(24 * g + n, 3 * g + 2, n - 16);
    }
  }

  lemma Place(n: nat, q: nat, r: nat)
    requires n == 8 * q + r && r < 8
    ensures n / 8 == q && n % 8 == r
  {}

  /** Bit k of register i is bit 6 i + k of the bytes. */
  lemma DenseLayout(b: seq<Byte>, i: nat, k: nat)
    requires |b| == Dense.DENSE_BYTES && i < REGISTERS && k < 6
    ensures BitOf(Dense.Decode(b)[i], k) == BitIn(b, 6 * i + k)
  {
    var g, j := i / 4, i % 4;
    Dense.GetGroup(b, i);
    assert Dense.Decode(b)[i] == Group(b[3 * g], b[3 * g + 1], b[3 * g + 2], Dense.At(b, 3 * g + 3), j);
    GroupBits(b[3 * g], b[3 * g + 1], b[3 * g + 2], Dense.At(b, 3 * g + 3), j, k);
    BitInGroup(b, g, 6 * j + k);
    assert 24 * g + (6 * j + k) == 6 * i + k;
  }

  // ------------------------------------------------------------- cached value

  /** Octet i of a number, counted from the least significant one. */
  function Octet(n: nat, i: nat): nat
    decreases i
  {
    if i == 0 then n % 256 else Octet(n / 256, i - 1)
  }

  /** The cached cardinality is stored least significant octet first. */
  lemma {:induction false} CardLayout(n: nat, k: nat, i: nat)
    requires i < k
    ensures StoreCard(n, k)[i] as nat == Octet(n, i)
    decreases k
  {
    if i == 0 {
      Bytes(n % 256);
    } else {
      assert StoreCard(n, k)[i] == StoreCard(n / 256, k - 1)[i - 1];
      CardLayout(n / 256, k - 1, i - 1);
    }
  }

  lemma Bytes(n: nat)
    requires n < 256
    ensures ToByte(n) as nat == n
  {}

  lemma FlagLayout(card: seq<Byte>)
    requires |card| == 8
    ensures CacheValid(card) <==> card[0] < 128
    ensures Invalidate(card)[1..] == card[1..] && Invalidate(card)[0] & 0x7f == card[0] & 0x7f
  {}

  // -------------------------------------------------------------------- size

  /** An object with a 16-byte header becomes dense exactly for a count above 32, or when
      the stream with the register raised, one opcode split, is longer than before and does
      not fit the limit. */
  lemma StaysSparse(c: Content, e: Element, maxBytes: nat)
    requires c.Loose() && c.encoding.SparseEncoding? && e.Valid()
    ensures e.count > 32 ==> c.Promotes(e, maxBytes)
    ensures e.count <= 32 && |c.Registers()| <= e.index ==> !c.Promotes(e, maxBytes)
    ensures e.count <= 32 && e.index < |c.Registers()| ==>
              var z := Sparse.Respliced(c.data, e.index, e.count);
              (c.Promotes(e, maxBytes) <==> c.Registers()[e.index] < e.count && |z| > |c.data| && 16 + |z| > maxBytes)
  {}

  // ------------------------------------------------------------------- tidy

  /** Two VAL opcodes of one value at the front that one opcode could stand for. */
  predicate Fusible(s: seq<Byte>)
  {
    && |s| >= 2 && s[0] >= 0x80 && s[1] >= 0x80 && s[0] & 0x7c == s[1] & 0x7c
    && (s[0] & 0x3) as nat + 1 + (s[1] & 0x3) as nat + 1 <= 4
  }

  /** The same, with the opcode read as it is by the code. */
  lemma FusibleMerges(s: seq<Byte>)
    ensures Fusible(s) <==> Sparse.Mergeable(s)
  {
    if |s| >= 2 {
      ValBits(s[0]);
      ValBits(s[1]);
      SameValue(s[0], s[1]);
    }
  }

  lemma ValBits(b: Byte)
    ensures IsVal(b) <==> b >= 0x80
    ensures IsVal(b) ==> ValLen(b) == (b & 0x3) as nat + 1
  {}

  lemma SameValue(a: Byte, b: Byte)
    ensures ValValue(a) == ValValue(b) <==> a & 0x7c == b & 0x7c
  {}

  /** Of the first n opcodes none can be fused with the one behind it. */
  predicate Tidy(s: seq<Byte>, n: int)
    requires Sparse.WellFormed(s)
    decreases |s|
  {
    n <= 0 || s == [] || (!Fusible(s) && Tidy(s[Sparse.OpLen(s)..], n - 1))
  }

  /** The first opcode of d is that of u, or the same value for more registers. */
  predicate Heads(u: seq<Byte>, d: seq<Byte>)
    requires u != [] && d != []
  {
    if IsVal(u[0]) then IsVal(d[0]) && ValValue(d[0]) == ValValue(u[0]) && ValLen(d[0]) >= ValLen(u[0])
    else !IsVal(d[0])
  }

  lemma {:induction false} HeadKept(u: seq<Byte>, n: nat)
    requires Sparse.WellFormed(u) && u != []
    ensures Heads(u, Sparse.MergePass(u, n))
    decreases |u|
  {
    if n > 0 && Sparse.Mergeable(u) {
      HeadMerged(u);
      HeadKept(Sparse.Merged(u), n - 1);
    }
  }

  lemma HeadMerged(u: seq<Byte>)
    requires Sparse.WellFormed(u) && Sparse.Mergeable(u)
    ensures Sparse.WellFormed(Sparse.Merged(u)) && Heads(u, Sparse.Merged(u))
  {
    Sparse.MergedStream(u);
    OpcodeKinds(Sparse.Merged(u)[0]);
  }

  /** The merge pass over n opcodes leaves nothing to fuse at as many of them as it has
      left, a merge counting as one. */
  lemma {:induction false} PassTidies(u: seq<Byte>, n: nat)
    requires Sparse.WellFormed(u)
    ensures Tidy(Sparse.MergePass(u, n), n - (|u| - |Sparse.MergePass(u, n)|))
    decreases |u|
  {
    if n == 0 || u == [] {
    } else if Sparse.Mergeable(u) {
      Sparse.MergedStream(u);
      PassTidies(Sparse.Merged(u), n - 1);
    } else {
      PassTidies(u[Sparse.OpLen(u)..], n - 1);
      ConsTidies(u, n);
    }
  }

  lemma ConsTidies(u: seq<Byte>, n: nat)
    requires n > 0 && u != [] && Sparse.WellFormed(u) && !Sparse.Mergeable(u)
    requires var rest := u[Sparse.OpLen(u)..]; var d := Sparse.MergePass(rest, n - 1);
             Tidy(d, n - 1 - (|rest| - |d|))
    ensures Tidy(Sparse.MergePass(u, n), n - (|u| - |Sparse.MergePass(u, n)|))
  {
    var k := Sparse.OpLen(u);
    var rest := u[k..];
    var d := Sparse.MergePass(rest, n - 1);
    if rest != [] { HeadKept(rest, n - 1); }
    TidyCons(u, d, n - (|rest| - |d|));
    assert Sparse.MergePass(u, n) == u[..k] + d;
  }

  lemma TidyCons(u: seq<Byte>, d: seq<Byte>, n: int)
    requires Sparse.Complete(u) && Sparse.WellFormed(d) && Tidy(d, n - 1) && !Sparse.Mergeable(u)
    requires |u| > Sparse.OpLen(u) <==> d != []
    requires d != [] ==> Heads(u[Sparse.OpLen(u)..], d)
    ensures var t := u[..Sparse.OpLen(u)] + d; Sparse.WellFormed(t) && Tidy(t, n)
  {
    var k := Sparse.OpLen(u);
    var t := u[..k] + d;
    Sparse.Single(u[..k]);
    Sparse.HeadConcat(u[..k], d);
    assert u[..k][k..] + d == d;
    Sparse.Unfold(t);
    NotFusible(u, d);
  }

  lemma NotFusible(u: seq<Byte>, d: seq<Byte>)
    requires Sparse.Complete(u) && !Sparse.Mergeable(u)
    requires |u| > Sparse.OpLen(u) <==> d != []
    requires d != [] ==> Heads(u[Sparse.OpLen(u)..], d)
    ensures !Fusible(u[..Sparse.OpLen(u)] + d)
  {
    var k := Sparse.OpLen(u);
    var t := u[..k] + d;
    FusibleMerges(t);
    OpcodeKinds(u[0]);
    assert t[0] == u[0];
    if IsVal(u[0]) && d != [] { assert t[1] == d[0] && u[1..][0] == u[1]; }
  }

  /** From `start` on the stream d, which was z before the pass over n opcodes, is tidy as
      far as the pass reached. */
  predicate TidyFrom(z: seq<Byte>, start: nat, d: seq<Byte>, n: nat)
  {
    start <= |d| && Sparse.WellFormed(d[start..]) && Tidy(d[start..], n - (|z| - |d|))
  }

  lemma AfterTidies(z: seq<Byte>, start: nat, d: seq<Byte>, n: nat)
    requires Sparse.Cut(z, start) && d == z[..start] + Sparse.MergePass(z[start..], n)
    ensures TidyFrom(z, start, d, n)
  {
    PassTidies(z[start..], n);
    Suffix(z[..start], Sparse.MergePass(z[start..], n), d);
  }

  lemma Suffix(a: seq<Byte>, b: seq<Byte>, d: seq<Byte>)
    requires d == a + b
    ensures d[|a|..] == b
  {}

  lemma EditPasses(s: seq<Byte>, tail: Byte, index: nat, count: Byte, maxBytes: nat, r: Sparse.Edit)
    requires Sparse.WellFormed(s) && Sparse.Tail(tail) && 1 <= count <= VAL_MAX_VALUE && index < |Sparse.Decode(s)|
    requires Sparse.Edits(s, tail, index, count, maxBytes, r) && r.Edited?
    ensures Sparse.AfterPass(Sparse.Respliced(s, index, count), Sparse.Before(s, index, 0, 0), r.stream)
  {}

  /** An addition that changes a register leaves nothing to fuse from the opcode before the
      edited one on, as far as its five steps reach. */
  lemma EditTidies(s: seq<Byte>, tail: Byte, index: nat, count: Byte, maxBytes: nat, r: Sparse.Edit)
    requires Sparse.WellFormed(s) && Sparse.Tail(tail) && 1 <= count <= VAL_MAX_VALUE && index < |Sparse.Decode(s)|
    requires Sparse.Edits(s, tail, index, count, maxBytes, r) && r.Edited?
    ensures TidyFrom(Sparse.Respliced(s, index, count), Sparse.Before(s, index, 0, 0), r.stream, 5)
  {
    EditPasses(s, tail, index, count, maxBytes, r);
    AfterTidies(Sparse.Respliced(s, index, count), Sparse.Before(s, index, 0, 0), r.stream, 5);
  }
}
