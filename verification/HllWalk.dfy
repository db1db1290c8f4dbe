/** The loops of src/hyperloglog.c that walk a whole representation: promotion,
    merging and the three sums. */
module HllWalk {
  import opened HllBits
  import opened HllSpec
  import Dense = HllDense
  import Sparse = HllSparse

  /** How a walk ends that writes registers to an array: Corrupt is a stream that does not
      cover the registers exactly, and Stray stands for the store of a register behind
      the last one.  The code has no such outcome, and what follows is not modelled. */
  datatype Outcome = Done | Corrupt | Stray

  /** Every VAL opcode of the stream ends at or before the last register, when the stream
      begins at register `first`. */
  predicate StoresInside(s: seq<Byte>, first: nat)
    requires Sparse.WellFormed(s)
    decreases |s|
  {
    s == [] || ((IsVal(s[0]) ==> first + Sparse.Span(s) <= REGISTERS)
                && StoresInside(s[Sparse.OpLen(s)..], first + Sparse.Span(s)))
  }

  /** That is so exactly when no value is stored behind the last register. */
  lemma {:induction false} InsideExactly(r: seq<Byte>, s: seq<Byte>)
    requires Within(r) && Sparse.WellFormed(s)
    ensures StoresInside(s, |r|) <==> Within(r + Sparse.Decode(s))
    decreases |s|
  {
    if s == [] {
      assert r + Sparse.Decode(s) == r;
    } else {
      var run, rest := Run(Sparse.Span(s), Sparse.Value(s)), s[Sparse.OpLen(s)..];
      Sparse.Unfold(s);
      Sparse.Associate(r, run, Sparse.Decode(rest));
      RunWithin(r, Sparse.Span(s), Sparse.Value(s), Sparse.Decode(rest));
      if IsVal(s[0]) ==> |r| + Sparse.Span(s) <= REGISTERS {
        InsideExactly(r + run, rest);
      }
    }
  }

  /** One more run keeps within the registers exactly if it is of zeros or ends before. */
  lemma RunWithin(r: seq<Byte>, n: nat, v: Byte, t: seq<Byte>)
    requires Within(r) && n > 0
    ensures v == 0 || |r| + n <= REGISTERS ==> Within(r + Run(n, v))
    ensures v != 0 && |r| + n > REGISTERS ==> !Within(r + Run(n, v) + t)
  {
    if v != 0 && |r| + n > REGISTERS {
      assert (r + Run(n, v) + t)[|r| + n - 1] == v;
    }
  }

  /** A well-formed stream with a value behind the last register. */
  lemma StrayStream()
    ensures var s := Sparse.ZeroOp(XZERO_MAX_LEN) + Sparse.ValOp(1, 1);
            Sparse.WellFormed(s) && !Within(Sparse.Decode(s))
  {
    Sparse.Concat(Sparse.ZeroOp(XZERO_MAX_LEN), Sparse.ValOp(1, 1));
    RunWithin(Run(REGISTERS, 0), 1, 1, []);
    assert Run(REGISTERS, 0) + Run(1, 1) + [] == Run(REGISTERS, 0) + Run(1, 1);
  }

  // --------------------------------------------------------------- promotion

  /** The loop of hllSparseToDense, hyperloglog.c:588-607.  idx counts the
      registers that the stream covers; the walk ends early before a register behind
      the last one is stored. */
  method Expand(s: seq<Byte>) returns (dense: seq<Byte>, idx: nat, inside: bool)
    requires Sparse.WellFormed(s)
    ensures inside <==> Within(Sparse.Decode(s))
    ensures inside ==> |dense| == Dense.DENSE_BYTES && idx == |Sparse.Decode(s)|
    ensures inside ==> Dense.Decode(dense) == Fit(Sparse.Decode(s))
  {
    dense := Run(Dense.DENSE_BYTES, 0);
    Dense.DecodeZeros();
    idx, inside := 0, true;
    var p := 0;
    assert s[0..] == s && s[..0] == [];
    while p < |s|
      invariant Sparse.Cut(s, p) && |dense| == Dense.DENSE_BYTES && inside && Within(Sparse.Decode(s[..p]))
      invariant idx == |Sparse.Decode(s[..p])| && Dense.Decode(dense) == Fit(Sparse.Decode(s[..p]))
      decreases |s| - p
    {
      dense, idx, p, inside := ExpandOp(s, p, dense, idx);
      if !inside { return; }
    }
    assert s[..p] == s;
  }

  method ExpandOp(s: seq<Byte>, p0: nat, dense0: seq<Byte>, idx0: nat)
    returns (dense: seq<Byte>, idx: nat, p: nat, inside: bool)
    requires Sparse.Cut(s, p0) && p0 < |s| && Sparse.WellFormed(s) && Within(Sparse.Decode(s[..p0]))
    requires |dense0| == Dense.DENSE_BYTES && idx0 == |Sparse.Decode(s[..p0])|
    requires Dense.Decode(dense0) == Fit(Sparse.Decode(s[..p0]))
    ensures !inside ==> !Within(Sparse.Decode(s))
    ensures inside ==> p0 < p && Sparse.Cut(s, p) && Within(Sparse.Decode(s[..p]))
    ensures inside ==> |dense| == Dense.DENSE_BYTES && idx == |Sparse.Decode(s[..p])|
    ensures inside ==> Dense.Decode(dense) == Fit(Sparse.Decode(s[..p]))
  {
    Sparse.Advance(s, p0);
    OpWithin(s, p0);
    var runlen, oplen := Sparse.ReadOp(s, p0);
    dense, inside := dense0, true;
    if IsVal(s[p0]) {
      if idx0 + runlen > REGISTERS { return dense, idx0, p0, false; }
      dense := StoreRun(dense, idx0, runlen, ValValue(s[p0]), Sparse.Decode(s[..p0]));
    } else {
      FitZeros(Sparse.Decode(s[..p0]), runlen);
    }
    idx, p := idx0 + runlen, p0 + oplen;
  }

  /** What the opcode at p says of the registers behind the last. */
  lemma OpWithin(s: seq<Byte>, p: nat)
    requires Sparse.Cut(s, p) && p < |s| && Within(Sparse.Decode(s[..p]))
    ensures Sparse.WellFormed(s)
    ensures var q := p + Sparse.OpLen(s[p..]);
            var stray := IsVal(s[p]) && |Sparse.Decode(s[..p])| + Sparse.Span(s[p..]) > REGISTERS;
            && (stray ==> !Within(Sparse.Decode(s)))
            && (!stray ==> q <= |s| && Sparse.WellFormed(s[..q]) && Within(Sparse.Decode(s[..q])))
  {
    var t, q := s[p..], p + Sparse.OpLen(s[p..]);
    assert t[0] == s[p];
    Sparse.Parts(s, p);
    Sparse.Advance(s, p);
    RunWithin(Sparse.Decode(s[..p]), Sparse.Span(t), Sparse.Value(t), Sparse.Decode(s[q..]));
    Sparse.Associate(Sparse.Decode(s[..p]), Run(Sparse.Span(t), Sparse.Value(t)), Sparse.Decode(s[q..]));
  }

  /** hyperloglog.c:601-604. */
  method StoreRun(dense0: seq<Byte>, idx0: nat, runlen: nat, v: Byte, ghost before: seq<Byte>)
    returns (dense: seq<Byte>)
    requires |dense0| == Dense.DENSE_BYTES && idx0 + runlen <= REGISTERS && v <= REGISTER_MAX
    requires |before| == idx0 && Dense.Decode(dense0) == Fit(before)
    ensures |dense| == Dense.DENSE_BYTES
    ensures Dense.Decode(dense) == Fit(before + Run(runlen, v))
  {
    dense := dense0;
    var n := 0;
    assert before + Run(0, v) == before;
    while n < runlen
      invariant n <= runlen && |dense| == Dense.DENSE_BYTES
      invariant Dense.Decode(dense) == Fit(before + Run(n, v))
    {
      Dense.DecodeSet(dense, idx0 + n, v);
      dense := Dense.Set(dense, idx0 + n, v);
      FitStore(before, n, v);
      n := n + 1;
    }
  }

  lemma FitStore(r: seq<Byte>, n: nat, v: Byte)
    requires |r| + n < REGISTERS
    ensures Fit(r + Run(n, v))[|r| + n := v] == Fit(r + Run(n + 1, v))
  {}

  // ----------------------------------------------------------------- merging

  /** hllMerge for a dense source: hyperloglog.c:1048-1054. */
  method MergeDense(max: array<Byte>, b: seq<Byte>)
    requires max.Length == REGISTERS
    modifies max
    ensures max[..] == Join(old(max[..]), Dense.Decode(b))
  {
    var i := 0;
    while i < REGISTERS
      invariant i <= REGISTERS
      invariant forall k :: 0 <= k < i ==> max[k] == Max(old(max[k]), Dense.Get(b, k))
      invariant forall k :: i <= k < REGISTERS ==> max[k] == old(max[k])
    {
      var val := Dense.Get(b, i);
      if val > max[i] { max[i] := val; }
      i := i + 1;
    }
  }

  /** hllMerge for a sparse source: hyperloglog.c:1056-1080.  Fails when the
      stream does not cover the registers exactly; what it covers is merged anyway. */
  method MergeSparse(max: array<Byte>, s: seq<Byte>) returns (r: Outcome)
    requires max.Length == REGISTERS && Sparse.WellFormed(s)
    modifies max
    ensures r == Ends(Sparse.Decode(s))
    ensures r != Stray ==> max[..] == Join(old(max[..]), Fit(Sparse.Decode(s)))
  {
    var i: nat, p: nat := 0, 0;
    assert s[0..] == s && s[..0] == [];
    while p < |s|
      invariant Sparse.Cut(s, p) && i == |Sparse.Decode(s[..p])| && Within(Sparse.Decode(s[..p]))
      invariant forall k :: 0 <= k < REGISTERS ==>
                  max[k] == Max(old(max[k]), if k < i then Sparse.Decode(s[..p])[k] else 0)
      decreases |s| - p
    {
      var inside;
      i, p, inside := MergeOp(max, s, p, i);
      if !inside { return Stray; }
    }
    assert s[..p] == s;
    r := if i == REGISTERS then Done else Corrupt;
  }

  /** How a walk over these registers ends. */
  function Ends(r: seq<Byte>): Outcome
  {
    if !Within(r) then Stray else if |r| == REGISTERS then Done else Corrupt
  }

  /** hyperloglog.c:1062-1078. */
  method MergeOp(max: array<Byte>, s: seq<Byte>, p0: nat, i0: nat) returns (i: nat, p: nat, inside: bool)
    requires max.Length == REGISTERS && Sparse.Cut(s, p0) && p0 < |s| && Sparse.WellFormed(s)
    requires i0 == |Sparse.Decode(s[..p0])| && Within(Sparse.Decode(s[..p0]))
    modifies max
    ensures !inside ==> !Within(Sparse.Decode(s))
    ensures inside ==> p0 < p && Sparse.Cut(s, p) && i0 < i == |Sparse.Decode(s[..p])| && Within(Sparse.Decode(s[..p]))
    ensures inside ==> Sparse.Decode(s[..p])[..i0] == Sparse.Decode(s[..p0])
    ensures inside ==> forall k :: 0 <= k < REGISTERS ==>
              max[k] == if i0 <= k < i then Max(old(max[k]), Sparse.Decode(s[..p])[k]) else old(max[k])
  {
    Sparse.Advance(s, p0);
    OpWithin(s, p0);
    var runlen, oplen := Sparse.ReadOp(s, p0);
    Appended(Sparse.Decode(s[..p0]), runlen, Sparse.Value(s[p0..]));
    assert s[p0..][0] == s[p0];
    if IsVal(s[p0]) {
      if i0 + runlen > REGISTERS { return i0, p0, false; }
      RaiseRun(max, i0, runlen, ValValue(s[p0]));
    }
    i, p, inside := i0 + runlen, p0 + oplen, true;
  }

  lemma Appended(r: seq<Byte>, n: nat, v: Byte)
    ensures (r + Run(n, v))[..|r|] == r && forall k :: |r| <= k < |r| + n ==> (r + Run(n, v))[k] == v
  {}

  /** hyperloglog.c:1073-1076. */
  method RaiseRun(max: array<Byte>, i: nat, runlen: nat, regval: Byte)
    requires i + runlen <= max.Length
    modifies max
    ensures forall k :: i <= k < i + runlen ==> max[k] == Max(old(max[k]), regval)
    ensures forall k :: 0 <= k < max.Length && !(i <= k < i + runlen) ==> max[k] == old(max[k])
  {
    var n := 0;
    while n < runlen
      invariant n <= runlen
      invariant forall k :: i <= k < i + n ==> max[k] == Max(old(max[k]), regval)
      invariant forall k :: 0 <= k < max.Length && !(i <= k < i + n) ==> max[k] == old(max[k])
    {
      if regval > max[i + n] { max[i + n] := regval; }
      n := n + 1;
    }
  }

  // -------------------------------------------------------------------- sums

  /** The table of hyperloglog.c:975-983. */
  function PE(reg: Byte): real
    requires reg <= REGISTER_MAX
  {
    InvPow(reg as nat)
  }

  /** hllSparseSum, hyperloglog.c:888-918. */
  method SparseSum(s: seq<Byte>) returns (E: real, ez: nat, valid: bool)
    requires Sparse.WellFormed(s)
    ensures E == Sum(Sparse.Decode(s)) && ez == ZeroCount(Sparse.Decode(s))
    ensures valid <==> |Sparse.Decode(s)| == REGISTERS
  {
    E, ez := 0.0, 0;
    var idx, p := 0, 0;
    assert s[0..] == s && s[..0] == [];
    while p < |s|
      invariant Sparse.Cut(s, p) && idx == |Sparse.Decode(s[..p])|
      invariant E + ez as real == Sum(Sparse.Decode(s[..p])) && ez == ZeroCount(Sparse.Decode(s[..p]))
    {
      Sparse.Advance(s, p);
      var runlen, oplen := Sparse.ReadOp(s, p);
      var e, z := SumOp(s, p, runlen);
      SumConcat(Sparse.Decode(s[..p]), Run(runlen, Sparse.Value(s[p..])));
      E, ez, idx, p := E + e, ez + z, idx + runlen, p + oplen;
    }
    assert s[..p] == s;
    E := E + ez as real;
    valid := idx == REGISTERS;
  }

  /** What one opcode adds to E and to ez: hyperloglog.c:894-912. */
  method SumOp(s: seq<Byte>, p: nat, runlen: nat) returns (e: real, z: nat)
    requires p < |s| && Sparse.Complete(s[p..]) && runlen == Sparse.Span(s[p..])
    ensures e + z as real == Sum(Run(runlen, Sparse.Value(s[p..])))
    ensures z == ZeroCount(Run(runlen, Sparse.Value(s[p..])))
  {
    SumRun(runlen, Sparse.Value(s[p..]));
    if IsVal(s[p]) {
      e, z := PE(ValValue(s[p])) * runlen as real, 0;
    } else {
      e, z := 0.0, runlen;
    }
  }

  function Indicator(reg: Byte): nat { if reg == 0 then 1 else 0 }

  lemma SumTwo(a: Byte, b: Byte)
    ensures Sum([a, b]) == InvPow(a as nat) + InvPow(b as nat) && ZeroCount([a, b]) == Indicator(a) + Indicator(b)
  {
    assert [a, b] == [a] + [b];
    SumConcat([a], [b]);
    SumOne(a);
    SumOne(b);
  }

  lemma SumFour(a: Byte, b: Byte, c: Byte, d: Byte)
    ensures Sum([a, b, c, d]) == InvPow(a as nat) + InvPow(b as nat) + InvPow(c as nat) + InvPow(d as nat)
    ensures ZeroCount([a, b, c, d]) == Indicator(a) + Indicator(b) + Indicator(c) + Indicator(d)
  {
    assert [a, b, c, d] == [a, b] + [c, d];
    SumConcat([a, b], [c, d]);
    SumTwo(a, b);
    SumTwo(c, d);
  }

  /** Four of the sixteen registers that one round of the unrolled loop handles,
      hyperloglog.c:517-520 and its repetitions at bytes 3, 6 and 9. */
  method DenseSumGroup(b: seq<Byte>, k: nat) returns (E: real, ez: nat)
    requires 3 * k + 2 < |b| && 4 * k + 4 <= REGISTERS
    ensures E == Sum(Dense.Decode(b)[4 * k..4 * k + 4]) && ez == ZeroCount(Dense.Decode(b)[4 * k..4 * k + 4])
  {
    var c0, c1, c2 := b[3 * k], b[3 * k + 1], b[3 * k + 2];
    var r0 := c0 & 63;
    var r1 := (((c0 as bv32 >> 6) | (c1 as bv32 << 2)) & 63) as Byte;
    var r2 := (((c1 as bv32 >> 4) | (c2 as bv32 << 4)) & 63) as Byte;
    var r3 := (c2 >> 2) & 63;
    UnrolledGroup(c0, c1, c2, Dense.At(b, 3 * k + 3));
    GroupRegisters(b, k, r0, r1, r2, r3);
    SumFour(r0, r1, r2, r3);
    ez := Indicator(r0) + Indicator(r1) + Indicator(r2) + Indicator(r3);
    E := (PE(r0) + PE(r1)) + (PE(r2) + PE(r3));
  }

  lemma GroupRegister(b: seq<Byte>, k: nat, j: nat)
    requires j < 4 && 4 * k + j < REGISTERS
    ensures Dense.Decode(b)[4 * k + j] == Dense.GroupAt(b, k, j)
  {
    Dense.Position(k, j);
  }

  lemma GroupRegisters(b: seq<Byte>, k: nat, r0: Byte, r1: Byte, r2: Byte, r3: Byte)
    requires 4 * k + 4 <= REGISTERS
    requires r0 == Dense.GroupAt(b, k, 0) && r1 == Dense.GroupAt(b, k, 1)
    requires r2 == Dense.GroupAt(b, k, 2) && r3 == Dense.GroupAt(b, k, 3)
    ensures Dense.Decode(b)[4 * k..4 * k + 4] == [r0, r1, r2, r3]
  {
    GroupRegister(b, k, 0);
    GroupRegister(b, k, 1);
    GroupRegister(b, k, 2);
    GroupRegister(b, k, 3);
    FourAt(Dense.Decode(b), 4 * k, r0, r1, r2, r3);
  }

  lemma FourAt(r: seq<Byte>, i: nat, r0: Byte, r1: Byte, r2: Byte, r3: Byte)
    requires i + 4 <= |r| && r[i] == r0 && r[i + 1] == r1 && r[i + 2] == r2 && r[i + 3] == r3
    ensures r[i..i + 4] == [r0, r1, r2, r3]
  {}

  /** hllDenseSum, hyperloglog.c:504-558: 1024 rounds of four groups. */
  method DenseSum(b: seq<Byte>) returns (E: real, ez: nat)
    requires |b| == Dense.DENSE_BYTES
    ensures E == Sum(Dense.Decode(b)) && ez == ZeroCount(Dense.Decode(b))
  {
    E, ez := 0.0, 0;
    var j := 0;
    ghost var regs := Dense.Decode(b);
    while j < 1024
      invariant j <= 1024 && E == Sum(regs[..16 * j]) && ez == ZeroCount(regs[..16 * j])
    {
      var g := 0;
      while g < 4
        invariant g <= 4 && E == Sum(regs[..16 * j + 4 * g]) && ez == ZeroCount(regs[..16 * j + 4 * g])
      {
        var k := 4 * j + g;
        var e, z := DenseSumGroup(b, k);
        SumConcat(regs[..4 * k], regs[4 * k..4 * k + 4]);
        assert regs[..4 * k + 4] == regs[..4 * k] + regs[4 * k..4 * k + 4];
        E, ez := E + e, ez + z;
        g := g + 1;
      }
      j := j + 1;
    }
    assert regs[..16384] == regs;
  }

  /** hllRawSum, hyperloglog.c:928-954: eight registers at a time, skipping the
      words that are zero. */
  method RawSum(registers: seq<Byte>) returns (E: real, ez: nat)
    requires |registers| == REGISTERS && forall i :: 0 <= i < REGISTERS ==> registers[i] <= REGISTER_MAX
    ensures E == Sum(registers) && ez == ZeroCount(registers)
  {
    E, ez := 0.0, 0;
    var j := 0;
    while j < REGISTERS / 8
      invariant j <= REGISTERS / 8
      invariant E + ez as real == Sum(registers[..8 * j]) && ez == ZeroCount(registers[..8 * j])
    {
      var word := registers[8 * j..8 * j + 8];
      NextWord(registers, j);
      if word == Run(8, 0) {
        SumRun(8, 0);
        ez := ez + 8;
      } else {
        var e, z := RawSumWord(word);
        E, ez := E + e, ez + z;
      }
      j := j + 1;
    }
    assert registers[..16384] == registers;
    E := E + ez as real;
  }

  lemma NextWord(r: seq<Byte>, j: nat)
    requires 8 * j + 8 <= |r| && forall i :: 0 <= i < |r| ==> r[i] <= REGISTER_MAX
    ensures var word := r[8 * j..8 * j + 8];
            && (forall i :: 0 <= i < 8 ==> word[i] <= REGISTER_MAX)
            && Sum(r[..8 * (j + 1)]) == Sum(r[..8 * j]) + Sum(word)
            && ZeroCount(r[..8 * (j + 1)]) == ZeroCount(r[..8 * j]) + ZeroCount(word)
  {
    SumConcat(r[..8 * j], r[8 * j..8 * j + 8]);
    assert r[..8 * j + 8] == r[..8 * j] + r[8 * j..8 * j + 8];
  }

  /** hyperloglog.c:938-946. */
  method RawSumWord(word: seq<Byte>) returns (e: real, z: nat)
    requires |word| == 8 && forall i :: 0 <= i < 8 ==> word[i] <= REGISTER_MAX
    ensures e + z as real == Sum(word) && z == ZeroCount(word)
  {
    e, z := 0.0, 0;
    var i := 0;
    while i < 8
      invariant i <= 8 && e + z as real == Sum(word[..i]) && z == ZeroCount(word[..i])
    {
      SumConcat(word[..i], [word[i]]);
      assert word[..i + 1] == word[..i] + [word[i]];
      if word[i] != 0 { e := e + PE(word[i]); } else { z := z + 1; }
      i := i + 1;
    }
    assert word[..8] == word;
  }
}
