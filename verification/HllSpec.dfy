/** What a HyperLogLog is, whatever its representation: 16384 small registers,
    each the maximum of the pattern lengths that were contributed to it. */
module HllSpec {
  import opened HllBits

  const REGISTERS := 16384

  /** What the hash of an added element contributes. */
  datatype Element = Element(index: nat, count: Byte) {
    predicate Valid() { index < REGISTERS && 1 <= count <= 50 }
  }

  function Max(a: Byte, b: Byte): Byte { if a < b then b else a }

  function Run(n: nat, v: Byte): (r: seq<Byte>)
    ensures |r| == n
  {
    seq(n, _ => v)
  }

  /** What an element does to registers that cover its index. */
  function Raise(r: seq<Byte>, e: Element): (t: seq<Byte>)
    ensures |t| == |r|
  {
    if e.index < |r| then r[e.index := Max(r[e.index], e.count)] else r
  }

  /** The 16384 registers that a list stands for which may be too short or too long. */
  function Fit(r: seq<Byte>): (t: seq<Byte>)
    ensures |t| == REGISTERS
    ensures |r| == REGISTERS ==> t == r
  {
    seq(REGISTERS, i requires 0 <= i < REGISTERS => if i < |r| then r[i] else 0)
  }

  /** Nothing is stored behind the last register. */
  predicate Within(r: seq<Byte>)
  {
    forall i :: REGISTERS <= i < |r| ==> r[i] == 0
  }

  lemma FitZeros(r: seq<Byte>, n: nat)
    ensures Fit(r + Run(n, 0)) == Fit(r)
  {}

  function Join(r: seq<Byte>, t: seq<Byte>): (j: seq<Byte>)
    requires |r| == |t|
    ensures |j| == |r|
  {
    seq(|r|, i requires 0 <= i < |r| => Max(r[i], t[i]))
  }

  /** The registers are the pointwise maximum over a set of contributions: no
      contribution exceeds its register, and every non-zero register was
      contributed.  A set forgets order and repetition. */
  ghost predicate Represents(r: seq<Byte>, es: set<Element>)
  {
    && |r| == REGISTERS
    && (forall e :: e in es ==> e.Valid() && e.count <= r[e.index])
    && (forall i :: 0 <= i < REGISTERS && r[i] != 0 ==> Element(i, r[i]) in es)
  }

  lemma EmptyRepresents()
    ensures Represents(Run(REGISTERS, 0), {})
  {}

  lemma RaiseRepresents(r: seq<Byte>, es: set<Element>, e: Element)
    requires Represents(r, es) && e.Valid()
    ensures Represents(Raise(r, e), es + {e})
  {
    var t := Raise(r, e);
    forall i | 0 <= i < REGISTERS && t[i] != 0 ensures Element(i, t[i]) in es + {e} {
      if t[i] != r[i] { assert Element(i, t[i]) == e; }
    }
  }

  /** Merging registers is adding the union of what they were built from. */
  lemma JoinRepresents(r: seq<Byte>, es: set<Element>, t: seq<Byte>, fs: set<Element>)
    requires Represents(r, es) && Represents(t, fs)
    ensures Represents(Join(r, t), es + fs)
  {
    var j := Join(r, t);
    forall i | 0 <= i < REGISTERS && j[i] != 0 ensures Element(i, j[i]) in es + fs {
      assert j[i] == r[i] || j[i] == t[i];
    }
  }

  /** The contributions determine the registers. */
  lemma RepresentsUnique(r: seq<Byte>, t: seq<Byte>, es: set<Element>)
    requires Represents(r, es) && Represents(t, es)
    ensures r == t
  {
    forall i | 0 <= i < REGISTERS ensures r[i] == t[i] {
      if r[i] != 0 { assert Element(i, r[i]) in es; }
      if t[i] != 0 { assert Element(i, t[i]) in es; }
    }
  }

  // -------------------------------------------------------------------- sums

  /** PE[k], 2^-k as an exact rational. */
  function InvPow(k: nat): (x: real)
    ensures x > 0.0
  {
    if k == 0 then 1.0 else InvPow(k - 1) / 2.0
  }

  function Sum(r: seq<Byte>): real
  {
    if r == [] then 0.0 else InvPow(r[0] as nat) + Sum(r[1..])
  }

  function ZeroCount(r: seq<Byte>): nat
  {
    if r == [] then 0 else (if r[0] == 0 then 1 else 0) + ZeroCount(r[1..])
  }

  lemma {:induction false} SumConcat(r: seq<Byte>, t: seq<Byte>)
    ensures Sum(r + t) == Sum(r) + Sum(t) && ZeroCount(r + t) == ZeroCount(r) + ZeroCount(t)
    decreases |r|
  {
    if r == [] {
      assert r + t == t;
    } else {
      assert (r + t)[1..] == r[1..] + t;
      SumConcat(r[1..], t);
    }
  }

  lemma SumOne(v: Byte)
    ensures Sum([v]) == InvPow(v as nat) && ZeroCount([v]) == if v == 0 then 1 else 0
  {
    assert [v][1..] == [];
  }

  lemma {:induction false} SumRun(n: nat, v: Byte)
    ensures Sum(Run(n, v)) == n as real * InvPow(v as nat)
    ensures ZeroCount(Run(n, v)) == if v == 0 then n else 0
    decreases n
  {
    if n == 0 {
    } else {
      SumRun(n - 1, v);
      assert Run(n, v) == [v] + Run(n - 1, v);
      SumConcat([v], Run(n - 1, v));
      SumOne(v);
      OneMore(n - 1, InvPow(v as nat));
    }
  }

  lemma OneMore(n: nat, x: real)
    ensures (n + 1) as real * x == x + n as real * x
  {}
}
