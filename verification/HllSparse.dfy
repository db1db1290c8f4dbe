/** The sparse representation: a stream of run-length opcodes, edited in place. */
module HllSparse {
  import opened HllBits
  import opened HllSpec

  // ------------------------------------------------------ meaning of a stream

  predicate Complete(s: seq<Byte>)
  {
    |s| >= 1 && (IsXZero(s[0]) ==> |s| >= 2)
  }

  function OpLen(s: seq<Byte>): (n: nat)
    requires Complete(s)
    ensures 1 <= n <= |s|
  {
    if IsXZero(s[0]) then 2 else 1
  }

  /** The number of registers the first opcode covers. */
  function Span(s: seq<Byte>): (n: nat)
    requires Complete(s)
    ensures 1 <= n <= XZERO_MAX_LEN
  {
    if IsZero(s[0]) then ZeroLen(s[0])
    else if IsVal(s[0]) then ValLen(s[0])
    else OpcodeKinds(s[0]); XZeroLen(s[0], s[1])
  }

  /** The value of the registers the first opcode covers. */
  function Value(s: seq<Byte>): (v: Byte)
    requires Complete(s)
    ensures v <= VAL_MAX_VALUE
  {
    if IsVal(s[0]) then ValValue(s[0]) else 0
  }

  predicate WellFormed(s: seq<Byte>)
    decreases |s|
  {
    s == [] || (Complete(s) && WellFormed(s[OpLen(s)..]))
  }

  function Decode(s: seq<Byte>): (r: seq<Byte>)
    requires WellFormed(s)
    decreases |s|
  {
    if s == [] then [] else Run(Span(s), Value(s)) + Decode(s[OpLen(s)..])
  }

  lemma {:induction false} DecodeBound(s: seq<Byte>, i: nat)
    requires WellFormed(s) && i < |Decode(s)|
    ensures Decode(s)[i] <= VAL_MAX_VALUE
    decreases |s|
  {
    if i >= Span(s) {
      DecodeBound(s[OpLen(s)..], i - Span(s));
    }
  }

  lemma HeadConcat(s: seq<Byte>, t: seq<Byte>)
    requires Complete(s)
    ensures Complete(s + t) && OpLen(s + t) == OpLen(s) && Span(s + t) == Span(s) && Value(s + t) == Value(s)
    ensures (s + t)[OpLen(s)..] == s[OpLen(s)..] + t
  {
    assert (s + t)[0] == s[0];
    if IsXZero(s[0]) { assert (s + t)[1] == s[1]; }
    OpcodeKinds(s[0]);
  }

  lemma {:induction false} Concat(s: seq<Byte>, t: seq<Byte>)
    requires WellFormed(s) && WellFormed(t)
    ensures WellFormed(s + t) && Decode(s + t) == Decode(s) + Decode(t)
    decreases |s|
  {
    if s == [] {
      assert s + t == t && Decode(s) + Decode(t) == Decode(t);
    } else {
      var rest := s[OpLen(s)..];
      Concat(rest, t);
      ConcatStep(s, t, rest);
    }
  }

  lemma ConcatStep(s: seq<Byte>, t: seq<Byte>, rest: seq<Byte>)
    requires Complete(s) && rest == s[OpLen(s)..] && WellFormed(rest) && WellFormed(t)
    requires WellFormed(rest + t) && Decode(rest + t) == Decode(rest) + Decode(t)
    ensures WellFormed(s) && WellFormed(s + t) && Decode(s + t) == Decode(s) + Decode(t)
  {
    HeadConcat(s, t);
    Unfold(s);
    Unfold(s + t);
    Associate(Run(Span(s), Value(s)), Decode(rest), Decode(t));
  }

  lemma Unfold(s: seq<Byte>)
    requires Complete(s)
    ensures WellFormed(s) <==> WellFormed(s[OpLen(s)..])
    ensures WellFormed(s) ==> Decode(s) == Run(Span(s), Value(s)) + Decode(s[OpLen(s)..])
  {}

  lemma Associate(a: seq<Byte>, b: seq<Byte>, c: seq<Byte>)
    ensures a + (b + c) == a + b + c
  {}

  lemma Concat3(a: seq<Byte>, b: seq<Byte>, c: seq<Byte>)
    requires WellFormed(a) && WellFormed(b) && WellFormed(c)
    ensures WellFormed(b + c) && WellFormed(a + b + c) && Decode(a + b + c) == Decode(a) + Decode(b) + Decode(c)
  {
    Concat(b, c);
    Concat(a, b);
    Concat(a + b, c);
  }

  /** One opcode by itself. */
  lemma Single(s: seq<Byte>)
    requires Complete(s) && |s| == OpLen(s)
    ensures WellFormed(s) && Decode(s) == Run(Span(s), Value(s))
  {
    assert s[OpLen(s)..] == [];
  }

  /** `p` is the start of an opcode of `s`, or its end. */
  ghost predicate Cut(s: seq<Byte>, p: nat)
  {
    p <= |s| && WellFormed(s[..p]) && WellFormed(s[p..])
  }

  lemma CutConcat(s: seq<Byte>, p: nat)
    requires Cut(s, p)
    ensures WellFormed(s) && Decode(s) == Decode(s[..p]) + Decode(s[p..])
  {
    assert s == s[..p] + s[p..];
    Concat(s[..p], s[p..]);
  }

  lemma Advance(s: seq<Byte>, p: nat)
    requires Cut(s, p) && p < |s|
    ensures var t := s[p..]; var q := p + OpLen(t);
            Cut(s, q) && Decode(s[..q]) == Decode(s[..p]) + Run(Span(t), Value(t))
              && Decode(t) == Run(Span(t), Value(t)) + Decode(s[q..])
  {
    var t := s[p..];
    var n := OpLen(t);
    assert t[n..] == s[p + n..];
    Single(t[..n]);
    assert s[..p + n] == s[..p] + t[..n];
    Concat(s[..p], t[..n]);
  }

  lemma JoinCut(s: seq<Byte>, t: seq<Byte>)
    requires WellFormed(s) && WellFormed(t)
    ensures Cut(s + t, |s|)
  {
    assert (s + t)[..|s|] == s && (s + t)[|s|..] == t;
  }

  /** Replacing the opcode at p by a stream that covers the same registers. */
  function Splice(s: seq<Byte>, p: nat, n: nat, ops: seq<Byte>): seq<Byte>
    requires p + n <= |s|
  {
    s[..p] + ops + s[p + n..]
  }

  /** The effect on the registers of replacing the opcode that covers `index`. */
  lemma SpliceRaise(s: seq<Byte>, p: nat, ops: seq<Byte>, index: nat, count: Byte)
    requires Cut(s, p) && p < |s| && WellFormed(ops)
    requires var t, first := s[p..], |Decode(s[..p])|;
             first <= index < first + Span(t) && Decode(ops) == Run(Span(t), Value(t))[index - first := count]
    ensures var s' := Splice(s, p, OpLen(s[p..]), ops);
            Cut(s', p) && WellFormed(s) && index < |Decode(s)| && WellFormed(s')
              && Decode(s') == Decode(s)[index := count]
  {
    var t := s[p..];
    var c := s[p + OpLen(t)..];
    Parts(s, p);
    ReplaceMiddle(s[..p], Run(Span(t), Value(t)), ops, c, index, count);
  }

  lemma ReplaceMiddle(a: seq<Byte>, r: seq<Byte>, ops: seq<Byte>, c: seq<Byte>, index: nat, count: Byte)
    requires WellFormed(a) && WellFormed(ops) && WellFormed(c)
    requires |Decode(a)| <= index < |Decode(a)| + |r| && Decode(ops) == r[index - |Decode(a)| := count]
    ensures Cut(a + ops + c, |a|) && WellFormed(a + ops + c)
    ensures Decode(a + ops + c) == (Decode(a) + (r + Decode(c)))[index := count]
  {
    SpliceParts(a, ops, c);
    UpdateMiddle(Decode(a), r, Decode(c), index, count);
  }

  lemma SpliceParts(a: seq<Byte>, ops: seq<Byte>, c: seq<Byte>)
    requires WellFormed(a) && WellFormed(ops) && WellFormed(c)
    ensures Cut(a + ops + c, |a|) && WellFormed(a + ops + c)
    ensures Decode(a + ops + c) == Decode(a) + Decode(ops) + Decode(c)
  {
    Concat3(a, ops, c);
    JoinCut(a, ops + c);
    Associate(a, ops, c);
  }

  lemma Parts(s: seq<Byte>, p: nat)
    requires Cut(s, p) && p < |s|
    ensures var t := s[p..]; var c := s[p + OpLen(t)..];
            WellFormed(s) && WellFormed(c) && Decode(s) == Decode(s[..p]) + (Run(Span(t), Value(t)) + Decode(c))
  {
    Advance(s, p);
    CutConcat(s, p);
  }

  lemma UpdateMiddle(a: seq<Byte>, b: seq<Byte>, c: seq<Byte>, index: nat, v: Byte)
    requires |a| <= index < |a| + |b|
    ensures a + b[index - |a| := v] + c == (a + (b + c))[index := v]
  {}

  // ---------------------------------------------------------------- step 1

  /** The stream from the opcode that covers `index` on, and the place of the register
      in that opcode. */
  function Covering(s: seq<Byte>, index: nat): (r: (seq<Byte>, nat))
    requires WellFormed(s) && index < |Decode(s)|
    ensures Complete(r.0) && r.1 < Span(r.0) && |r.0| <= |s|
    decreases |s|
  {
    if index < Span(s) then (s, index) else Covering(s[OpLen(s)..], index - Span(s))
  }

  /** Where the opcode before that one begins, in a stream that begins at `at` behind the
      opcode at prev. */
  function Before(s: seq<Byte>, index: nat, at: nat, prev: nat): nat
    requires WellFormed(s) && index < |Decode(s)|
    decreases |s|
  {
    if index < Span(s) then prev else Before(s[OpLen(s)..], index - Span(s), at + OpLen(s), at)
  }

  lemma BeforeNext(s: seq<Byte>, p: nat, index: nat, prev: nat)
    requires p < |s| && WellFormed(s[p..]) && Span(s[p..]) <= index < |Decode(s[p..])|
    ensures var t, q := s[p..], p + OpLen(s[p..]);
            WellFormed(s[q..]) && |Decode(s[q..])| == |Decode(t)| - Span(t)
              && Before(t, index, p, prev) == Before(s[q..], index - Span(t), q, p)
  {
    assert s[p..][OpLen(s[p..])..] == s[p + OpLen(s[p..])..];
  }

  lemma CoveringNext(s: seq<Byte>, p: nat, index: nat)
    requires p < |s| && WellFormed(s[p..]) && Span(s[p..]) <= index < |Decode(s[p..])|
    ensures var t, q := s[p..], p + OpLen(s[p..]);
            WellFormed(s[q..]) && |Decode(s[q..])| == |Decode(t)| - Span(t)
              && Covering(t, index) == Covering(s[q..], index - Span(t))
  {
    assert s[p..][OpLen(s[p..])..] == s[p + OpLen(s[p..])..];
  }

  /** The search for the opcode that covers `index` is at p, where register `first`
      begins; prev is the opcode before it. */
  ghost predicate Searching(s: seq<Byte>, index: nat, p: nat, prev: nat, first: nat)
  {
    && Cut(s, p) && WellFormed(s) && first == |Decode(s[..p])| <= index
    && prev <= p && WellFormed(s[..prev]) && WellFormed(s[prev..p])
    && first + |Decode(s[p..])| == |Decode(s)|
    && (index < |Decode(s)| ==> Covering(s[p..], index - first) == Covering(s, index))
    && (index < |Decode(s)| ==> Before(s[p..], index - first, p, prev) == Before(s, index, 0, 0))
    && (p > 0 ==> prev < p && Complete(s[prev..]) && OpLen(s[prev..]) == p - prev)
  }

  lemma SearchStart(s: seq<Byte>, index: nat)
    requires WellFormed(s)
    ensures Searching(s, index, 0, 0, 0)
  {
    assert s[0..] == s && s[..0] == [] && s[0..0] == [];
  }

  lemma Here(s: seq<Byte>, index: nat, p: nat, prev: nat, first: nat)
    requires Searching(s, index, p, prev, first) && p < |s|
    ensures Complete(s[p..]) && 1 <= OpLen(s[p..]) && p + OpLen(s[p..]) <= |s|
  {}

  lemma SearchNext(s: seq<Byte>, index: nat, p: nat, prev: nat, first: nat)
    requires Searching(s, index, p, prev, first) && p < |s| && index >= first + Span(s[p..])
    ensures p + OpLen(s[p..]) <= |s| && Searching(s, index, p + OpLen(s[p..]), p, first + Span(s[p..]))
  {
    Advance(s, p);
    SingleAt(s, p);
    if index < |Decode(s)| {
      CoveringNext(s, p, index - first);
      BeforeNext(s, p, index - first, prev);
    }
  }

  /** What the search finds. */
  ghost predicate Found(s: seq<Byte>, index: nat, p: nat, prev: nat, first: nat, span: nat)
  {
    && WellFormed(s) && Cut(s, p) && prev <= p && WellFormed(s[..prev]) && WellFormed(s[prev..p])
    && (span == 0 <==> s == []) && (p < |s| <==> index < |Decode(s)|)
    && if p < |s| then
         && span == Span(s[p..]) && first == |Decode(s[..p])| <= index < first + span
         && Covering(s, index) == (s[p..], index - first) && Decode(s)[index] == Value(s[p..])
         && prev == Before(s, index, 0, 0)
       else p > 0 ==> prev < p && OpLen(s[prev..]) == p - prev
  }

  lemma SearchEnd(s: seq<Byte>, index: nat, p: nat, prev: nat, first: nat, span: nat)
    requires Searching(s, index, p, prev, first) && (p == |s| || (span == Span(s[p..]) && index < first + span))
    requires p == |s| ==> (span == 0 <==> p == 0)
    ensures Found(s, index, p, prev, first, span)
  {
    if p < |s| {
      Covers(s, p, index);
    } else {
      assert s[p..] == [];
    }
  }

  /** The opcode that covers `index`, or the end of a stream that does not reach so far;
      the opcode before it (0 stands for the null pointer: both make the merge pass
      start at the front), and its first register: hyperloglog.c:663-689. */
  method Locate(s: seq<Byte>, index: nat) returns (p: nat, prev: nat, first: nat, span: nat)
    requires WellFormed(s)
    ensures Found(s, index, p, prev, first, span)
  {
    p, prev, first, span := 0, 0, 0, 0;
    var found := false;
    SearchStart(s, index);
    while p < |s| && !found
      invariant if found then Found(s, index, p, prev, first, span) else Searching(s, index, p, prev, first)
      invariant p <= |s| && (found || (span == 0 <==> p == 0))
      decreases |s| - p, !found
    {
      found, p, prev, first, span := LookAt(s, index, p, prev, first);
    }
    if !found { SearchEnd(s, index, p, prev, first, span); }
  }

  /** One round of the loop: hyperloglog.c:666-688. */
  method LookAt(s: seq<Byte>, index: nat, p0: nat, prev0: nat, first0: nat)
    returns (found: bool, p: nat, prev: nat, first: nat, span: nat)
    requires Searching(s, index, p0, prev0, first0) && p0 < |s|
    ensures if found then p == p0 && Found(s, index, p, prev, first, span)
            else p > p0 && Searching(s, index, p, prev, first)
    ensures p <= |s| && span > 0
  {
    var oplen;
    Here(s, index, p0, prev0, first0);
    span, oplen := ReadOp(s, p0);
    if index < first0 + span {
      SearchEnd(s, index, p0, prev0, first0, span);
      return true, p0, prev0, first0, span;
    }
    SearchNext(s, index, p0, prev0, first0);
    return false, p0 + oplen, p0, first0 + span, span;
  }

  lemma SingleAt(s: seq<Byte>, p: nat)
    requires p < |s| && Complete(s[p..])
    ensures WellFormed(s[p..p + OpLen(s[p..])])
  {
    var t := s[p..];
    Single(t[..OpLen(t)]);
    assert t[..OpLen(t)] == s[p..p + OpLen(t)];
  }

  lemma Covers(s: seq<Byte>, p: nat, index: nat)
    requires Cut(s, p) && p < |s|
    requires |Decode(s[..p])| <= index < |Decode(s[..p])| + Span(s[p..])
    ensures WellFormed(s) && index < |Decode(s)| && Decode(s)[index] == Value(s[p..])
  {
    Parts(s, p);
  }

  /** hyperloglog.c:675-683. */
  method ReadOp(s: seq<Byte>, p: nat) returns (span: nat, oplen: nat)
    requires p < |s| && Complete(s[p..])
    ensures span == Span(s[p..]) && oplen == OpLen(s[p..])
  {
    OpcodeKinds(s[p]);
    oplen := 1;
    if IsZero(s[p]) {
      span := ZeroLen(s[p]);
    } else if IsVal(s[p]) {
      span := ValLen(s[p]);
    } else {
      span := XZeroLen(s[p], s[p + 1]);
      oplen := 2;
    }
  }

  // ---------------------------------------------------------------- step 2

  /** A run of zeros as the code writes it: hyperloglog.c:772-778. */
  function ZeroOp(len: nat): (s: seq<Byte>)
    requires 1 <= len <= XZERO_MAX_LEN
    ensures WellFormed(s) && Decode(s) == Run(len, 0) && |s| <= if len > ZERO_MAX_LEN then 2 else 1
  {
    if len > ZERO_MAX_LEN then
      var x := XZeroSet(len);
      OpcodeKinds(x.0);
      Single([x.0, x.1]);
      [x.0, x.1]
    else
      OpcodeKinds(ZeroSet(len));
      Single([ZeroSet(len)]);
      [ZeroSet(len)]
  }

  function ValOp(val: Byte, len: nat): (s: seq<Byte>)
    requires 1 <= val <= VAL_MAX_VALUE && 1 <= len <= VAL_MAX_LEN
    ensures WellFormed(s) && Decode(s) == Run(len, val) && |s| == 1
  {
    OpcodeKinds(ValSet(val, len));
    Single([ValSet(val, len)]);
    [ValSet(val, len)]
  }

  lemma ThreeRuns(a: nat, b: nat, v: Byte, count: Byte)
    ensures Run(a, v) + Run(1, count) + Run(b, v) == Run(a + 1 + b, v)[a := count]
  {}

  /** Splits the opcode at the head of `s` around the register at `offset`:
      hyperloglog.c:764-808. */
  function Split(s: seq<Byte>, offset: nat, count: Byte): (ops: seq<Byte>)
    requires Complete(s) && offset < Span(s) && 1 <= count <= VAL_MAX_VALUE
    ensures WellFormed(ops) && Decode(ops) == Run(Span(s), Value(s))[offset := count]
    ensures 1 <= |ops| <= 2 * OpLen(s) + 1
  {
    var left, right := offset, Span(s) - 1 - offset;
    Concat3(SameOp(s, left), ValOp(count, 1), SameOp(s, right));
    ThreeRuns(left, right, Value(s), count);
    SameOp(s, left) + ValOp(count, 1) + SameOp(s, right)
  }

  /** A possibly empty part of the opcode at the head of s. */
  function SameOp(s: seq<Byte>, len: nat): (ops: seq<Byte>)
    requires Complete(s) && len <= Span(s)
    ensures WellFormed(ops) && Decode(ops) == Run(len, Value(s)) && |ops| <= OpLen(s)
  {
    OpcodeKinds(s[0]);
    if len == 0 then [] else if IsVal(s[0]) then ValOp(ValValue(s[0]), len) else ZeroOp(len)
  }

  // ---------------------------------------------------------------- step 4

  /** Two adjacent VAL opcodes with one value are the same as one long one. */
  lemma MergePair(s: seq<Byte>, p: nat)
    requires Cut(s, p) && p + 1 < |s| && IsVal(s[p]) && IsVal(s[p + 1]) && ValValue(s[p]) == ValValue(s[p + 1])
    requires ValLen(s[p]) + ValLen(s[p + 1]) <= VAL_MAX_LEN
    ensures var s' := Splice(s, p, 2, [ValSet(ValValue(s[p]), ValLen(s[p]) + ValLen(s[p + 1]))]);
            Cut(s', p) && WellFormed(s) && WellFormed(s') && Decode(s') == Decode(s) && |s'| == |s| - 1
  {
    var v, a, b := ValValue(s[p]), ValLen(s[p]), ValLen(s[p + 1]);
    OpcodeKinds(s[p]);
    OpcodeKinds(s[p + 1]);
    Advance(s, p);
    Advance(s, p + 1);
    CutConcat(s, p);
    SpliceParts(s[..p], ValOp(v, a + b), s[p + 2..]);
    JoinRuns(Decode(s[..p]), a, b, v, Decode(s[p + 2..]));
  }

  lemma JoinRuns(x: seq<Byte>, a: nat, b: nat, v: Byte, y: seq<Byte>)
    ensures x + Run(a + b, v) + y == x + (Run(a, v) + (Run(b, v) + y))
  {
    assert Run(a + b, v) == Run(a, v) + Run(b, v);
  }

  /** The first two opcodes can be merged. */
  predicate Mergeable(u: seq<Byte>)
  {
    |u| > 1 && IsVal(u[0]) && IsVal(u[1]) && ValValue(u[0]) == ValValue(u[1])
    && ValLen(u[0]) + ValLen(u[1]) <= VAL_MAX_LEN
  }

  function Merged(u: seq<Byte>): seq<Byte>
    requires Mergeable(u)
  {
    [ValSet(ValValue(u[0]), ValLen(u[0]) + ValLen(u[1]))] + u[2..]
  }

  lemma MergedStream(u: seq<Byte>)
    requires WellFormed(u) && Mergeable(u)
    ensures WellFormed(Merged(u)) && Decode(Merged(u)) == Decode(u) && |Merged(u)| == |u| - 1
  {
    assert u[..0] == [] && u[0..] == u;
    MergePair(u, 0);
    assert Splice(u, 0, 2, [ValSet(ValValue(u[0]), ValLen(u[0]) + ValLen(u[1]))]) == Merged(u);
  }

  /** The pass over n opcodes; a merge counts as one, and the merged opcode is tried again. */
  function MergePass(u: seq<Byte>, n: nat): (d: seq<Byte>)
    requires WellFormed(u)
    ensures WellFormed(d) && Decode(d) == Decode(u) && |d| <= |u| && (u != [] ==> d != [])
    decreases |u|
  {
    if n == 0 || u == [] then u
    else if Mergeable(u) then
      MergedStream(u);
      MergePass(Merged(u), n - 1)
    else
      var k, d := OpLen(u), MergePass(u[OpLen(u)..], n - 1);
      Single(u[..k]);
      Concat(u[..k], d);
      Unfold(u);
      u[..k] + d
  }

  /** The pass over s from `start` has come to p of d, with n of m opcodes to go. */
  ghost predicate Passing(s: seq<Byte>, start: nat, m: nat, tail: Byte, d: seq<Byte>, tail': Byte, p: nat, n: nat)
  {
    && Cut(s, start) && Cut(d, p) && |d| <= |s|
    && (if |d| == |s| then d == s && tail' == tail else tail' == 0)
    && d[..p] + MergePass(d[p..], n) == s[..start] + MergePass(s[start..], m)
  }

  lemma PassNext(s: seq<Byte>, start: nat, m: nat, tail: Byte, d: seq<Byte>, tail': Byte, p: nat, n: nat,
                 d': seq<Byte>, p': nat)
    requires Passing(s, start, m, tail, d, tail', p, n + 1) && p < |d| && Cut(d', p')
    requires if Mergeable(d[p..]) then p' == p && d' == d[..p] + Merged(d[p..]) else d' == d && p' == p + OpLen(d[p..])
    ensures |d'| <= |d| && Passing(s, start, m, tail, d', if |d'| < |d| then 0 else tail', p', n)
  {
    if Mergeable(d[p..]) { PassMerge(d, p, d', n); } else { PassOver(d, p, p', n); }
  }

  lemma PassMerge(s: seq<Byte>, p: nat, d: seq<Byte>, n: nat)
    requires Cut(s, p) && p < |s| && Mergeable(s[p..]) && d == s[..p] + Merged(s[p..])
    ensures |d| == |s| - 1 && d[p..] == Merged(s[p..]) && WellFormed(d[p..])
    ensures d[..p] + MergePass(d[p..], n) == s[..p] + MergePass(s[p..], n + 1)
  {
    MergedStream(s[p..]);
    assert d[..p] == s[..p] && d[p..] == Merged(s[p..]);
  }

  lemma PassOver(s: seq<Byte>, p: nat, q: nat, n: nat)
    requires Cut(s, p) && p < |s| && !Mergeable(s[p..]) && q == p + OpLen(s[p..]) && Cut(s, q)
    ensures s[..q] + MergePass(s[q..], n) == s[..p] + MergePass(s[p..], n + 1)
  {
    var u := s[p..];
    var k := OpLen(u);
    assert u[k..] == s[q..] && s[..q] == s[..p] + u[..k];
    Associate(s[..p], u[..k], MergePass(s[q..], n));
  }

  lemma PassStart(s: seq<Byte>, start: nat, m: nat, tail: Byte)
    requires Cut(s, start)
    ensures Passing(s, start, m, tail, s, tail, start, m)
  {}

  /** What the pass leaves. */
  ghost predicate Passed(s: seq<Byte>, start: nat, m: nat, tail: Byte, d: seq<Byte>, tail': Byte)
  {
    && Cut(s, start) && d == s[..start] + MergePass(s[start..], m) && |d| <= |s|
    && if |d| == |s| then d == s && tail' == tail else tail' == 0
  }

  lemma PassDone(s: seq<Byte>, start: nat, m: nat, tail: Byte, d: seq<Byte>, tail': Byte, p: nat, n: nat)
    requires Passing(s, start, m, tail, d, tail', p, n) && (n == 0 || p == |d|)
    ensures Passed(s, start, m, tail, d, tail')
  {
    PassNothing(d[p..], n);
    assert d[..p] + d[p..] == d;
  }

  lemma PassNothing(u: seq<Byte>, n: nat)
    requires WellFormed(u) && (n == 0 || u == [])
    ensures MergePass(u, n) == u
  {}

  /** The registers do not change. */
  lemma PassMeans(s: seq<Byte>, start: nat, m: nat)
    requires Cut(s, start)
    ensures var d := s[..start] + MergePass(s[start..], m); WellFormed(s) && WellFormed(d) && Decode(d) == Decode(s)
  {
    CutConcat(s, start);
    Concat(s[..start], MergePass(s[start..], m));
  }

  /** A stream of one opcode stays as it is. */
  lemma PassAlone(u: seq<Byte>, n: nat)
    requires Complete(u) && OpLen(u) == |u| && WellFormed(u)
    ensures MergePass(u, n) == u
  {
    OpcodeKinds(u[0]);
    assert u[|u|..] == [] && u[..|u|] == u && u + [] == u;
  }

  /** Tries to merge VAL opcodes among the five from `start` on:
      hyperloglog.c:831-861.  The registers do not change; each merge shortens the
      string and so terminates it anew. */
  method Merge(s: seq<Byte>, start: nat, tail: Byte) returns (d: seq<Byte>, tail': Byte)
    requires WellFormed(s) && Cut(s, start)
    ensures d == s[..start] + MergePass(s[start..], 5)
    ensures WellFormed(d) && Decode(d) == Decode(s) && |d| <= |s|
    ensures if |d| == |s| then d == s && tail' == tail else tail' == 0
  {
    d, tail' := MergeSome(s, start, 5, tail);
    PassMeans(s, start, 5);
  }

  method MergeSome(s: seq<Byte>, start: nat, m: nat, tail: Byte) returns (d: seq<Byte>, tail': Byte)
    requires Cut(s, start)
    ensures Passed(s, start, m, tail, d, tail')
  {
    d, tail' := s, tail;
    var p: nat, scanlen := start, m;
    PassStart(s, start, m, tail);
    while p < |d| && scanlen > 0
      invariant p <= |d| && scanlen >= 0 && Passing(s, start, m, tail, d, tail', p, scanlen)
      decreases scanlen
    {
      scanlen := scanlen - 1;
      d, tail', p := MergeRound(s, start, m, tail, d, tail', p, scanlen);
    }
    PassDone(s, start, m, tail, d, tail', p, scanlen);
  }

  /** One round, with n more to come. */
  method MergeRound(ghost s: seq<Byte>, ghost start: nat, ghost m: nat, ghost tail: Byte, d0: seq<Byte>, tail0: Byte,
                    p0: nat,
                    ghost n: nat)
    returns (d: seq<Byte>, tail': Byte, p: nat)
    requires p0 < |d0| && Passing(s, start, m, tail, d0, tail0, p0, n + 1)
    ensures p <= |d| && Passing(s, start, m, tail, d, tail', p, n)
  {
    PassWhole(s, start, m, tail, d0, tail0, p0, n + 1);
    d, p := MergeStep(d0, p0);
    tail' := if |d| < |d0| then 0 else tail0;
    PassNext(s, start, m, tail, d0, tail0, p0, n, d, p);
  }

  lemma PassWhole(s: seq<Byte>, start: nat, m: nat, tail: Byte, d: seq<Byte>, tail': Byte, p: nat, n: nat)
    requires Passing(s, start, m, tail, d, tail', p, n)
    ensures WellFormed(d) && Cut(d, p)
  {
    CutConcat(d, p);
  }

  lemma CutNext(s: seq<Byte>, p: nat)
    requires Cut(s, p) && p < |s|
    ensures Complete(s[p..]) && Cut(s, p + OpLen(s[p..]))
  {
    Advance(s, p);
  }

  lemma OpLenAt(s: seq<Byte>, p: nat)
    requires p < |s| && Complete(s[p..])
    ensures OpLen(s[p..]) == if IsXZero(s[p]) then 2 else 1
    ensures (IsZero(s[p]) || IsXZero(s[p])) == !IsVal(s[p])
  {
    assert s[p..][0] == s[p];
    OpcodeKinds(s[p]);
  }

  lemma MergeableAt(s: seq<Byte>, p: nat)
    requires p < |s|
    ensures Mergeable(s[p..]) <==>
              p + 1 < |s| && IsVal(s[p]) && IsVal(s[p + 1]) && ValValue(s[p]) == ValValue(s[p + 1])
              && ValLen(s[p]) + ValLen(s[p + 1]) <= VAL_MAX_LEN
  {
    assert s[p..][0] == s[p] && (p + 1 < |s| ==> s[p..][1] == s[p + 1]);
  }

  lemma MergeAt(s: seq<Byte>, p: nat)
    requires Cut(s, p) && p + 1 < |s| && Mergeable(s[p..]) && IsVal(s[p]) && IsVal(s[p + 1])
    requires ValLen(s[p]) + ValLen(s[p + 1]) <= VAL_MAX_LEN
    ensures var d := Splice(s, p, 2, [ValSet(ValValue(s[p]), ValLen(s[p]) + ValLen(s[p + 1]))]);
            d == s[..p] + Merged(s[p..]) && WellFormed(d) && Cut(d, p)
  {
    var u := s[p..];
    assert u[0] == s[p] && u[1] == s[p + 1] && u[2..] == s[p + 2..];
    MergedStream(u);
    JoinCut(s[..p], Merged(u));
    Concat(s[..p], Merged(u));
    var op := [ValSet(ValValue(s[p]), ValLen(s[p]) + ValLen(s[p + 1]))];
    Associate(s[..p], op, s[p + 2..]);
  }

  method MergeStep(s: seq<Byte>, p0: nat) returns (d: seq<Byte>, p: nat)
    requires WellFormed(s) && Cut(s, p0) && p0 < |s|
    ensures WellFormed(d) && Cut(d, p) && p <= |d|
    ensures if Mergeable(s[p0..]) then p == p0 && d == s[..p0] + Merged(s[p0..])
            else d == s && p == p0 + OpLen(s[p0..])
  {
    d, p := s, p0;
    CutNext(s, p);
    OpLenAt(s, p);
    MergeableAt(s, p);
    if IsXZero(d[p]) {
      p := p + 2;
      return;
    } else if IsZero(d[p]) {
      p := p + 1;
      return;
    }
    if p + 1 < |d| && IsVal(d[p + 1]) && ValValue(d[p]) == ValValue(d[p + 1]) {
      var len := ValLen(d[p]) + ValLen(d[p + 1]);
      if len <= VAL_MAX_LEN {
        // After a merge the scan tries the merged opcode again.
        MergeAt(d, p);
        d := Splice(d, p, 2, [ValSet(ValValue(d[p]), len)]);
        return;
      }
    }
    p := p + 1;
  }

  // ----------------------------------------------------------- steps 1 to 4

  /** Invalid is an empty stream; `tail` is the byte behind the edited stream. */
  datatype Edit = Invalid | Same | Edited(stream: seq<Byte>, tail: Byte) | TooLarge

  /** The merge pass may start at the opcode before the edited one. */
  lemma SpliceCut(s: seq<Byte>, prev: nat, p: nat, ops: seq<Byte>)
    requires Cut(s, p) && p < |s| && WellFormed(ops)
    requires prev <= p && WellFormed(s[..prev]) && WellFormed(s[prev..p])
    ensures Cut(Splice(s, p, OpLen(s[p..]), ops), prev)
  {
    Behind(s, p);
    SpliceCutAt(s, prev, p, OpLen(s[p..]), ops);
  }

  lemma SpliceCutAt(s: seq<Byte>, prev: nat, p: nat, n: nat, ops: seq<Byte>)
    requires prev <= p && p + n <= |s| && WellFormed(ops)
    requires WellFormed(s[..prev]) && WellFormed(s[prev..p]) && WellFormed(s[p + n..])
    ensures Cut(Splice(s, p, n, ops), prev)
  {
    var a, b, c := s[..prev], s[prev..p], s[p + n..];
    RestCut(a, b, ops, c);
    SpliceRest(s, prev, p, n, ops);
    assert |a| == prev && Splice(s, p, n, ops) == a + (b + ops + c);
  }

  lemma Behind(s: seq<Byte>, p: nat)
    requires Cut(s, p) && p < |s|
    ensures WellFormed(s[p + OpLen(s[p..])..])
  {
    Unfold(s[p..]);
    assert s[p..][OpLen(s[p..])..] == s[p + OpLen(s[p..])..];
  }

  lemma RestCut(a: seq<Byte>, b: seq<Byte>, ops: seq<Byte>, c: seq<Byte>)
    requires WellFormed(a) && WellFormed(b) && WellFormed(ops) && WellFormed(c)
    ensures Cut(a + (b + ops + c), |a|)
  {
    Concat3(b, ops, c);
    JoinCut(a, b + ops + c);
  }

  lemma SpliceRest(s: seq<Byte>, prev: nat, p: nat, n: nat, ops: seq<Byte>)
    requires prev <= p && p + n <= |s|
    ensures Splice(s, p, n, ops) == s[..prev] + (s[prev..p] + ops + s[p + n..])
  {
    assert s[..p] == s[..prev] + s[prev..p];
  }

  /** Cases B and C, which overwrite the opcode, are the general case D for a
      one-byte opcode that covers one register. */
  lemma SplitSingle(s: seq<Byte>, count: Byte)
    requires Complete(s) && Span(s) == 1 && 1 <= count <= VAL_MAX_VALUE
    ensures Split(s, 0, count) == [ValSet(count, 1)]
  {}

  /** The split of the opcode at the head of t makes a stream of n bytes longer and too
      long: hyperloglog.c:814-819. */
  predicate Outgrows(t: seq<Byte>, offset: nat, count: Byte, n: nat, maxBytes: nat)
    requires Complete(t) && offset < Span(t) && 1 <= count <= VAL_MAX_VALUE
  {
    var deltalen := |Split(t, offset, count)| - OpLen(t);
    deltalen > 0 && HDR_SIZE + n + deltalen > maxBytes
  }

  /** An addition that makes the stream too long. */
  predicate AddOutgrows(s: seq<Byte>, index: nat, count: Byte, maxBytes: nat)
    requires WellFormed(s) && 1 <= count <= VAL_MAX_VALUE
  {
    index < |Decode(s)| && Decode(s)[index] < count
    && Outgrows(Covering(s, index).0, Covering(s, index).1, count, |s|, maxBytes)
  }

  /** Steps 2 and 3, hyperloglog.c:730-823: puts the split opcode in place of the
      old one when it fits.  Overwriting a single opcode leaves the byte behind the
      stream alone; setting a new length terminates the string. */
  method Substitute(s: seq<Byte>, tail: Byte, p: nat, first: nat, span: nat, index: nat, count: Byte, maxBytes: nat)
    returns (ok: bool, d: seq<Byte>, tail': Byte)
    requires p < |s| && Complete(s[p..]) && span == Span(s[p..]) && first <= index < first + span
    requires 1 <= count <= VAL_MAX_VALUE
    ensures ok <==> !Outgrows(s[p..], index - first, count, |s|, maxBytes)
    ensures ok ==> d == Splice(s, p, OpLen(s[p..]), Split(s[p..], index - first, count))
    ensures ok ==> tail' == if span == 1 && |d| == |s| then tail else 0
  {
    OpcodeKinds(s[p]);
    if (IsVal(s[p]) || IsZero(s[p])) && span == 1 {
      SplitSingle(s[p..], count);
      d := s[p := ValSet(count, 1)];
      return true, d, tail;
    }
    if span == 1 { SplitSingle(s[p..], count); }
    var ops := Split(s[p..], index - first, count);
    var deltalen := |ops| - OpLen(s[p..]);
    if deltalen > 0 && HDR_SIZE + |s| + deltalen > maxBytes { return false, s, tail; }
    d := Splice(s, p, OpLen(s[p..]), ops);
    return true, d, 0;
  }

  /** What stands behind a stream: the terminating zero, or an opcode that an earlier
      addition put in its place. */
  predicate Tail(b: Byte)
  {
    b == 0 || (IsVal(b) && ValLen(b) == 1)
  }

  /** Whether an addition behind the registers that the stream covers overwrites the
      byte behind the stream: hyperloglog.c:730-747. */
  predicate Overwrites(tail: Byte, count: Byte)
  {
    !IsVal(tail) || ValValue(tail) < count
  }

  /** The stream with the covering opcode split. */
  function Respliced(s: seq<Byte>, index: nat, count: Byte): seq<Byte>
    requires WellFormed(s) && index < |Decode(s)| && 1 <= count <= VAL_MAX_VALUE
  {
    var (t, offset) := Covering(s, index);
    Splice(s, |s| - |t|, OpLen(t), Split(t, offset, count))
  }

  /** The stream d is z after the merge pass from `start` on. */
  ghost predicate AfterPass(z: seq<Byte>, start: nat, d: seq<Byte>)
  {
    Cut(z, start) && d == z[..start] + MergePass(z[start..], 5)
  }

  /** What editing a stream results in. */
  ghost predicate Edits(s: seq<Byte>, tail: Byte, index: nat, count: Byte, maxBytes: nat, r: Edit)
    requires WellFormed(s) && Tail(tail) && 1 <= count <= VAL_MAX_VALUE
  {
    && (r.Invalid? <==> s == [])
    && (r.TooLarge? <==> AddOutgrows(s, index, count, maxBytes))
    && (index < |Decode(s)| ==> (r.Same? <==> Decode(s)[index] >= count))
    && (index < |Decode(s)| && r.Edited? ==>
          && WellFormed(r.stream) && Decode(r.stream) == Decode(s)[index := count]
          && AfterPass(Respliced(s, index, count), Before(s, index, 0, 0), r.stream)
          && (|r.stream| <= |s| || HDR_SIZE + |r.stream| <= maxBytes)
          && r.tail == if Span(Covering(s, index).0) == 1 && |r.stream| == |s| then tail else 0)
    && (index >= |Decode(s)| && s != [] ==>
          r == if Overwrites(tail, count) then Edited(s, ValSet(count, 1)) else Same)
  }

  /** hllSparseAdd without promotion: hyperloglog.c:656-861.  The register at `index`
      becomes `count` when it was less, unless the stream would grow beyond maxBytes.
      When the stream does not cover the register, the search stops at the byte behind
      it, which reads as an opcode for one register and is edited instead. */
  method EditStream(s: seq<Byte>, tail: Byte, index: nat, count: Byte, maxBytes: nat) returns (r: Edit)
    requires WellFormed(s) && Tail(tail) && 1 <= count <= VAL_MAX_VALUE
    ensures Edits(s, tail, index, count, maxBytes, r)
  {
    var p, prev, first, span := Locate(s, index);
    if span == 0 { return Invalid; }
    if p == |s| {
      r := EditTail(s, tail, prev, count);
    } else {
      r := EditCovered(s, tail, p, prev, first, span, index, count, maxBytes);
    }
  }

  /** The same for the byte behind the stream, whose last opcode is at prev. */
  method EditTail(s: seq<Byte>, tail: Byte, prev: nat, count: Byte) returns (r: Edit)
    requires Tail(tail) && 1 <= count <= VAL_MAX_VALUE && prev < |s|
    requires WellFormed(s) && WellFormed(s[..prev]) && WellFormed(s[prev..|s|]) && OpLen(s[prev..]) == |s| - prev
    ensures r == if Overwrites(tail, count) then Edited(s, ValSet(count, 1)) else Same
  {
    OpcodeKinds(tail);
    if IsVal(tail) && ValValue(tail) >= count { return Same; }
    assert s[prev..|s|] == s[prev..] && s[..prev] + s[prev..] == s;
    PassAlone(s[prev..], 5);
    var d, tail' := Merge(s, prev, ValSet(count, 1));
    return Edited(d, tail');
  }

  /** The stream with the split opcode. */
  lemma SplitFits(s: seq<Byte>, p: nat, prev: nat, first: nat, index: nat, count: Byte)
    requires Cut(s, p) && p < |s| && prev <= p && WellFormed(s[..prev]) && WellFormed(s[prev..p])
    requires first == |Decode(s[..p])| <= index < first + Span(s[p..]) && 1 <= count <= VAL_MAX_VALUE
    ensures var d := Splice(s, p, OpLen(s[p..]), Split(s[p..], index - first, count));
            && WellFormed(s) && index < |Decode(s)| && Cut(d, prev) && WellFormed(d)
               && Decode(d) == Decode(s)[index := count]
  {
    var ops := Split(s[p..], index - first, count);
    SpliceRaise(s, p, ops, index, count);
    SpliceCut(s, prev, p, ops);
  }

  lemma SplitOne(t: seq<Byte>, offset: nat, count: Byte)
    requires Complete(t) && Span(t) == 1 && offset == 0 && 1 <= count <= VAL_MAX_VALUE
    ensures |Split(t, offset, count)| == 1
  {
    SplitSingle(t, count);
  }

  /** The register and the size test, as the opcode at p shows them. */
  lemma EditTest(s: seq<Byte>, p: nat, prev: nat, first: nat, span: nat, index: nat, count: Byte, maxBytes: nat)
    requires Found(s, index, p, prev, first, span) && p < |s| && 1 <= count <= VAL_MAX_VALUE
    ensures Decode(s)[index] >= count <==> IsVal(s[p]) && ValValue(s[p]) >= count
    ensures AddOutgrows(s, index, count, maxBytes) <==>
              Decode(s)[index] < count && Outgrows(s[p..], index - first, count, |s|, maxBytes)
  {
    ValueAt(s, p);
    SizeTest(s, index, count, maxBytes, s[p..], index - first);
  }

  lemma ValueAt(s: seq<Byte>, p: nat)
    requires p < |s| && Complete(s[p..])
    ensures Value(s[p..]) == if IsVal(s[p]) then ValValue(s[p]) else 0
  {
    assert s[p..][0] == s[p];
  }

  lemma SizeTest(s: seq<Byte>, index: nat, count: Byte, maxBytes: nat, t: seq<Byte>, offset: nat)
    requires WellFormed(s) && index < |Decode(s)| && Covering(s, index) == (t, offset) && 1 <= count <= VAL_MAX_VALUE
    ensures AddOutgrows(s, index, count, maxBytes) <==>
              Decode(s)[index] < count && Outgrows(t, offset, count, |s|, maxBytes)
  {}

  /** hyperloglog.c:730-861, for the opcode at p. */
  method EditCovered(s: seq<Byte>, tail: Byte, p: nat, prev: nat, first: nat, span: nat, index: nat, count: Byte,
                     maxBytes: nat)
    returns (r: Edit)
    requires Found(s, index, p, prev, first, span) && p < |s| && 1 <= count <= VAL_MAX_VALUE
    ensures !r.Invalid? && (r.Same? <==> Decode(s)[index] >= count)
    ensures r.TooLarge? <==> AddOutgrows(s, index, count, maxBytes)
    ensures r.Edited? ==> EditedTo(s, tail, index, span, count, maxBytes, r.stream, r.tail)
    ensures r.Edited? ==> AfterPass(Respliced(s, index, count), Before(s, index, 0, 0), r.stream)
  {
    assert |s| - |s[p..]| == p;
    EditTest(s, p, prev, first, span, index, count, maxBytes);
    if IsVal(s[p]) && ValValue(s[p]) >= count { return Same; }
    r := EditOpcode(s, tail, p, prev, first, span, index, count, maxBytes);
  }

  /** The stream d with the register changed, the size and the byte behind it. */
  ghost predicate EditedTo(s: seq<Byte>, tail: Byte, index: nat, span: nat, count: Byte, maxBytes: nat,
                           d: seq<Byte>, tail': Byte)
  {
    && WellFormed(s) && index < |Decode(s)| && WellFormed(d) && Decode(d) == Decode(s)[index := count]
    && (|d| <= |s| || HDR_SIZE + |d| <= maxBytes)
    && tail' == if span == 1 && |d| == |s| then tail else 0
  }

  /** hyperloglog.c:735-861, when the register is less than `count`. */
  method EditOpcode(s: seq<Byte>, tail: Byte, p: nat, prev: nat, first: nat, span: nat, index: nat, count: Byte,
                    maxBytes: nat)
    returns (r: Edit)
    requires Cut(s, p) && p < |s| && prev <= p && WellFormed(s[..prev]) && WellFormed(s[prev..p])
    requires span == Span(s[p..]) && first == |Decode(s[..p])| <= index < first + span && 1 <= count <= VAL_MAX_VALUE
    ensures r.TooLarge? || r.Edited?
    ensures r.TooLarge? <==> Outgrows(s[p..], index - first, count, |s|, maxBytes)
    ensures r.Edited? ==> EditedTo(s, tail, index, span, count, maxBytes, r.stream, r.tail)
    ensures r.Edited? ==> AfterPass(Splice(s, p, OpLen(s[p..]), Split(s[p..], index - first, count)), prev, r.stream)
  {
    SplitFits(s, p, prev, first, index, count);
    if span == 1 { SplitOne(s[p..], index - first, count); }
    var ok, d, tail' := Substitute(s, tail, p, first, span, index, count, maxBytes);
    if !ok { return TooLarge; }
    d, tail' := Merge(d, prev, tail');
    return Edited(d, tail');
  }
}
