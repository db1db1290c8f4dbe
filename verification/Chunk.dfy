/** Free address space in deps/jemalloc/src/chunk.c: extents kept in two trees. */
module Chunk {
  import opened Options

  /** Addresses and sizes are below 2^64. */
  const W := 0x1_0000_0000_0000_0000

  datatype Extent = Extent(addr: nat, size: nat, zeroed: bool) {
    function End(): nat {
      addr + size
    }

    predicate Has(x: int) {
      addr <= x < addr + size
    }
  }

  ghost predicate Covers(s: set<Extent>, x: int)
  {
    exists e :: e in s && e.Has(x)
  }

  /** Two extents neither overlap nor touch. */
  predicate Apart(a: Extent, b: Extent)
  {
    a.End() < b.addr || b.End() < a.addr
  }

  ghost predicate Spread(s: set<Extent>)
  {
    forall a, b :: a in s && b in s && a != b ==> Apart(a, b)
  }

  predicate Chunks(e: Extent, chunksize: nat)
    requires chunksize > 0
  {
    0 < e.addr && 0 < e.size && e.End() <= W && e.addr % chunksize == 0 && e.size % chunksize == 0
  }

  // -------------------------------------------------------------- comparators

  /** extent_szad_comp, extent.c:6-22. */
  predicate BeforeSize(a: Extent, b: Extent)
  {
    a.size < b.size || (a.size == b.size && a.addr < b.addr)
  }

  /** The smallest extent of the size at least; among those the lowest. */
  predicate BestFit(s: set<Extent>, e: Extent, size: int)
  {
    e in s && e.size >= size && forall b :: b in s && b.size >= size && b != e ==> BeforeSize(e, b)
  }

  lemma OneBestFit(s: set<Extent>, e: Extent, size: int)
    requires BestFit(s, e, size)
    ensures forall b :: BestFit(s, b, size) ==> b == e
  {}

  lemma {:induction false} BestFitExists(s: set<Extent>, size: nat)
    requires Spread(s) && exists e :: e in s && e.size >= size
    ensures exists e :: e in s && BestFit(s, e, size)
  {
    var e :| e in s && e.size >= size;
    var rest := s - {e};
    if exists b :: b in rest && b.size >= size {
      BestFitExists(rest, size);
      var b :| b in rest && BestFit(rest, b, size);
      if BeforeSize(b, e) { assert BestFit(s, b, size); } else { assert Apart(b, e); assert BestFit(s, e, size); }
    } else {
      assert BestFit(s, e, size);
    }
  }

  /** extent_ad_comp: the first extent at or after an address. */
  predicate First(s: set<Extent>, e: Extent, addr: nat)
  {
    e in s && e.addr >= addr && forall b :: b in s && b.addr >= addr && b != e ==> e.addr < b.addr
  }

  lemma {:induction false} FirstExists(s: set<Extent>, addr: nat)
    requires Spread(s) && exists e :: e in s && e.addr >= addr
    ensures exists e :: e in s && First(s, e, addr)
  {
    var e :| e in s && e.addr >= addr;
    var rest := s - {e};
    if exists b :: b in rest && b.addr >= addr {
      FirstExists(rest, addr);
      var b :| b in rest && First(rest, b, addr);
      if b.addr < e.addr { assert First(s, b, addr); } else { assert Apart(b, e); assert First(s, e, addr); }
    } else {
      assert First(s, e, addr);
    }
  }

  predicate Last(s: set<Extent>, e: Extent, addr: nat)
  {
    e in s && e.addr < addr && forall b :: b in s && b.addr < addr && b != e ==> b.addr < e.addr
  }

  lemma {:induction false} LastExists(s: set<Extent>, addr: nat)
    requires (forall a, b :: a in s && b in s && a != b ==> a.addr != b.addr) && exists e :: e in s && e.addr < addr
    ensures exists e :: e in s && Last(s, e, addr)
  {
    var e :| e in s && e.addr < addr;
    var rest := s - {e};
    if exists b :: b in rest && b.addr < addr {
      LastExists(rest, addr);
      var b :| b in rest && Last(rest, b, addr);
      if b.addr > e.addr { assert Last(s, b, addr); } else { assert Last(s, e, addr); }
    } else {
      assert Last(s, e, addr);
    }
  }

  // ---------------------------------------------------------------- alignment

  /** ALIGNMENT_CEILING, for alignments that are powers of two. */
  function Ceiling(a: nat, alignment: nat): nat
    requires alignment > 0
  {
    (a + alignment - 1) / alignment * alignment
  }

  lemma Distribute(c: int, a: int, b: int)
    ensures c * (a + b) == c * a + c * b
  {}

  lemma Ordered(c: nat, p: int, q: int)
    requires p < q
    ensures c * p + c <= c * q
  {
    var d: nat := q - p - 1;
    Distribute(c, p + 1, d);
    Distribute(c, p, 1);
    assert c * d >= 0;
  }

  lemma MulMod(c: nat, k: int)
    requires c > 0
    ensures (c * k) % c == 0
  {
    var n := c * k;
    var p := n / c;
    assert n == c * p + n % c;
    if p < k { Ordered(c, p, k); } else if p > k { Ordered(c, k, p); }
  }

  lemma ModSum(x: int, y: int, c: nat)
    requires c > 0 && x % c == 0 && y % c == 0
    ensures (x + y) % c == 0 && (x - y) % c == 0
  {
    var i, j := x / c, y / c;
    assert x == c * i && y == c * j;
    Distribute(c, i, j);
    Distribute(c, i, -j);
    Negate(c, j);
    MulMod(c, i + j);
    MulMod(c, i - j);
  }

  lemma AlignmentAtLeast(alignment: nat, c: nat)
    requires 0 < c && 0 < alignment && alignment % c == 0
    ensures alignment >= c
  {}

  /** chunk.c:64-67 recognises every overflow of the padded size. */
  lemma Padded(size: nat, alignment: nat, c: nat)
    requires 0 < size < W && 0 < c && 0 < alignment < W && alignment % c == 0
    ensures var a := (size + alignment - c) % W; if a < size then size + alignment - c >= W
              else a == size + alignment - c
  {
    AlignmentAtLeast(alignment, c);
  }

  /** The leading space of a chunk is a whole number of chunks and leaves room for a
      request that was padded by alignment - chunksize. */
  lemma CeilingGap(a: nat, alignment: nat, c: nat)
    requires 0 < c && 0 < alignment && a % c == 0 && alignment % c == 0
    ensures var r := Ceiling(a, alignment); a <= r <= a + alignment - c && r % alignment == 0 && r % c == 0
  {
    var q, i, j := (a + alignment - 1) / alignment, a / c, alignment / c;
    var r := alignment * q;
    assert r == Ceiling(a, alignment);
    MulMod(alignment, q);
    Multiple(c, j, q);
    assert r == c * (j * q);
    var k := j * q - i;
    Distribute(c, j * q, -i);
    Negate(c, i);
    assert r - a == c * k;
    MulMod(c, j * q);
    if k >= j {
      if k > j { Ordered(c, j, k); }
      assert false;
    }
    if k < j - 1 { Ordered(c, k, j - 1); }
    Distribute(c, j, -1);
  }

  lemma Multiple(c: int, j: int, q: int)
    ensures c * (j * q) == (c * j) * q
  {}

  lemma Negate(c: int, i: int)
    ensures c * (-i) == -(c * i)
  {}

  // ------------------------------------------------------------- free space

  predicate Within(x: int, p: nat, size: nat)
  {
    p <= x < p + size
  }

  /** t is the free space s without a block that lay in it. */
  ghost predicate Taken(s: set<Extent>, t: set<Extent>, p: nat, size: nat)
  {
    && (forall x :: Within(x, p, size) ==> Covers(s, x))
    && (forall x :: Covers(t, x) <==> Covers(s, x) && !Within(x, p, size))
  }

  ghost predicate SameSpace(s: set<Extent>, t: set<Extent>)
  {
    forall x :: Covers(t, x) <==> Covers(s, x)
  }

  /** t is the free space s with a block added. */
  ghost predicate Given(s: set<Extent>, t: set<Extent>, p: nat, size: nat)
  {
    forall x :: Covers(t, x) <==> Covers(s, x) || Within(x, p, size)
  }

  /** What is left of an extent before p, and after `end`. */
  function Lead(e: Extent, p: nat): set<Extent>
    requires e.addr <= p
  {
    if p == e.addr then {} else {e.(size := p - e.addr)}
  }

  function Trail(e: Extent, end: nat, zeroed: bool): set<Extent>
    requires end <= e.End()
  {
    if end == e.End() then {} else {Extent(end, e.End() - end, zeroed)}
  }

  function Cutout(s: set<Extent>, e: Extent, p: nat, size: nat, zeroed: bool): set<Extent>
    requires e.addr <= p && p + size <= e.End()
  {
    s - {e} + Lead(e, p) + Trail(e, p + size, zeroed)
  }

  /** The block is all of the extent. */
  predicate Whole(e: Extent, p: nat, size: nat)
  {
    p == e.addr && size == e.size
  }

  /** t is s after the block at p has been cut out of e; a new node holds junk. */
  ghost predicate CutFrom(s: set<Extent>, t: set<Extent>, e: Extent, p: nat, size: nat, junk: bool)
  {
    && e in s && e.addr <= p && p + size <= e.End()
    && t == Cutout(s, e, p, size, if p == e.addr then e.zeroed else junk)
  }

  lemma CutoutSpread(s: set<Extent>, e: Extent, p: nat, size: nat, zeroed: bool, c: nat)
    requires Spread(s) && e in s && size > 0 && e.addr <= p && p + size <= e.End()
    requires c > 0 && p % c == 0 && size % c == 0 && forall b :: b in s ==> Chunks(b, c)
    ensures var t := Cutout(s, e, p, size, zeroed); Spread(t) && forall b :: b in t ==> Chunks(b, c)
  {
    CutoutChunks(e, p, size, zeroed, c);
    var t := Cutout(s, e, p, size, zeroed);
    forall a, b | a in t && b in t && a != b ensures Apart(a, b) {
      assert a in s && a != e ==> Apart(a, e);
      assert b in s && b != e ==> Apart(b, e);
    }
  }

  lemma CutoutChunks(e: Extent, p: nat, size: nat, zeroed: bool, c: nat)
    requires size > 0 && e.addr <= p && p + size <= e.End() && c > 0 && p % c == 0 && size % c == 0 && Chunks(e, c)
    ensures forall b :: b in Lead(e, p) + Trail(e, p + size, zeroed) ==> Chunks(b, c)
  {
    ModSum(p, e.addr, c);
    ModSum(p, size, c);
    ModSum(e.addr, e.size, c);
    ModSum(e.End(), p + size, c);
  }

  /** Cutting a block out of an extent takes the block and nothing else. */
  lemma CutoutTakes(s: set<Extent>, e: Extent, p: nat, size: nat, zeroed: bool)
    requires Spread(s) && e in s && size > 0 && e.addr <= p && p + size <= e.End()
    ensures Taken(s, Cutout(s, e, p, size, zeroed), p, size)
  {
    var t := Cutout(s, e, p, size, zeroed);
    forall x | Within(x, p, size) ensures Covers(s, x) {
      assert e.Has(x);
    }
    forall x ensures Covers(t, x) <==> Covers(s, x) && !Within(x, p, size) {
      if Covers(t, x) {
        var b :| b in t && b.Has(x);
        if b in s - {e} { assert Apart(b, e); } else { assert e.Has(x); }
      }
      if Covers(s, x) && !Within(x, p, size) {
        var b :| b in s && b.Has(x);
        if b == e {
          if x < p {
            var l := e.(size := p - e.addr);
            assert l in t && l.Has(x);
          } else {
            var r := Extent(p + size, e.End() - (p + size), zeroed);
            assert r in t && r.Has(x);
          }
        } else {
          assert b in t;
        }
      }
    }
  }

  /** All extents are apart, except that one may end where n begins. */
  ghost predicate Loose(s: set<Extent>, n: Extent)
  {
    && n in s
    && (forall a, b :: a in s && b in s && a != b && a != n && b != n ==> Apart(a, b))
    && (forall a :: a in s && a != n ==> Apart(a, n) || a.End() == n.addr)
  }

  /** A new block, joined with the extent that begins at its end if there is one. */
  lemma JoinForward(s: set<Extent>, next: Option<Extent>, p: nat, size: nat, n: Extent)
    requires Spread(s) && size > 0 && (forall e :: e in s ==> e.size > 0) && forall x :: Within(x, p, size) ==>
               !Covers(s, x)
    requires if next.Some? then next.value in s && next.value.addr == p + size else forall e :: e in s ==>
               e.addr != p + size
    requires n.addr == p && n.size == size + if next.Some? then next.value.size else 0
    ensures var t := (if next.Some? then s - {next.value} else s) + {n};
            Loose(t, n) && n !in s && Given(s, t, p, size)
  {
    var t := (if next.Some? then s - {next.value} else s) + {n};
    assert Within(p, p, size) && n.Has(p);
    forall a | a in s && next != Some(a) ensures Apart(a, n) || a.End() == n.addr {
      if next.Some? { assert Apart(a, next.value); }
      assert a.Has(a.addr) && (a.addr <= p < a.End() ==> a.Has(p));
      assert Covers(s, a.addr);
      assert !Within(a.addr, p, size);
    }
    forall x ensures Covers(t, x) <==> Covers(s, x) || Within(x, p, size) {
      if Covers(s, x) {
        var b :| b in s && b.Has(x);
        assert next == Some(b) ==> n.Has(x);
        assert next != Some(b) ==> b in t;
      }
      if Within(x, p, size) { assert n in t && n.Has(x); }
      if Covers(t, x) {
        var b :| b in t && b.Has(x);
        assert b == n ==> Within(x, p, size) || next.value.Has(x);
      }
    }
  }

  /** Joined with the extent that ends at its beginning. */
  lemma JoinBackward(s: set<Extent>, n: Extent, a: Extent, m: Extent)
    requires Loose(s, n) && a in s && a != n && a.End() == n.addr && (forall e :: e in s ==> e.size > 0)
    requires m.addr == a.addr && m.size == n.size + a.size
    ensures var t := s - {a} - {n} + {m}; Spread(t) && SameSpace(s, t)
  {
    var t := s - {a} - {n} + {m};
    forall b | b in s && b != a && b != n ensures Apart(b, m) {
      assert Apart(b, a);
      assert Apart(b, n) || b.End() == n.addr;
    }
    forall x ensures Covers(t, x) <==> Covers(s, x) {
      if Covers(s, x) {
        var b :| b in s && b.Has(x);
        assert if b == a || b == n then m in t && m.Has(x) else b in t;
      }
      if Covers(t, x) {
        var b :| b in t && b.Has(x);
        assert b == m ==> a.Has(x) || n.Has(x);
      }
    }
  }

  /** The addresses beside an extent are not free. */
  lemma Surrounded(s: set<Extent>, e: Extent, x: int)
    requires Spread(s) && e in s && e.size > 0 && (x == e.addr - 1 || x == e.End())
    ensures !Covers(s, x)
  {
    if Covers(s, x) {
      var g :| g in s && g.Has(x);
      assert false;
    }
  }

  /** Coalescing is complete: the free addresses alone determine the extents, in
      whatever order blocks were taken and given back. */
  lemma CoverDetermines(s: set<Extent>, t: set<Extent>, e: Extent)
    requires Spread(s) && Spread(t) && SameSpace(s, t) && e in s && e.size > 0
    ensures exists f :: f in t && f.addr == e.addr && f.size == e.size
  {
    assert e.Has(e.addr) && e.Has(e.End() - 1);
    assert Covers(s, e.addr);
    assert Covers(t, e.addr);
    var f :| f in t && f.Has(e.addr);
    Surrounded(s, e, e.addr - 1);
    Surrounded(s, e, e.End());
    Surrounded(t, f, f.End());
    assert f.addr < e.addr ==> f.Has(e.addr - 1);
    assert f.End() > e.End() ==> f.Has(e.End());
    assert f.End() < e.End() ==> e.Has(f.End());
  }

  // ------------------------------------------------------------------- trees

  /** Memory that is known to be all zeros. */
  ghost predicate Honest(s: set<Extent>, clean: iset<int>)
  {
    forall e, x :: e in s && e.zeroed && e.Has(x) ==> x in clean
  }

  ghost predicate Clean(p: nat, size: nat, clean: iset<int>)
  {
    forall x :: Within(x, p, size) ==> x in clean
  }

  lemma JoinHonest(s: set<Extent>, a: Option<Extent>, p: nat, size: nat, zeroed: bool, n: Extent, clean: iset<int>)
    requires Honest(s, clean) && (zeroed ==> Clean(p, size, clean)) && (a.Some? ==> a.value in s)
    requires n.zeroed ==> zeroed && (a.Some? ==> a.value.zeroed)
    requires forall x :: n.Has(x) ==> Within(x, p, size) || (a.Some? && a.value.Has(x))
    ensures Honest(s + {n}, clean)
  {}

  /** The new node of chunk.c:230-261. */
  lemma Joined(s: set<Extent>, next: Option<Extent>, p: nat, size: nat, unzeroed: bool, n: Extent, c: nat,
               clean: iset<int>)
    requires Spread(s) && c > 0 && (forall e :: e in s ==> Chunks(e, c)) && Chunks(Extent(p, size, false), c)
    requires forall x :: Within(x, p, size) ==> !Covers(s, x)
    requires if next.Some? then next.value in s && next.value.addr == p + size else forall e :: e in s ==>
               e.addr != p + size
    requires n.addr == p && n.size == size + if next.Some? then next.value.size else 0
    requires n.zeroed == (!unzeroed && (next.Some? ==> next.value.zeroed))
    ensures var t := (if next.Some? then s - {next.value} else s) + {n};
            && Loose(t, n) && Given(s, t, p, size) && Chunks(n, c)
            && (Honest(s, clean) && (unzeroed || Clean(p, size, clean)) ==> Honest(t, clean))
  {
    JoinForward(s, next, p, size, n);
    if next.Some? { ModSum(next.value.size, size, c); }
    if Honest(s, clean) && (unzeroed || Clean(p, size, clean)) {
      JoinHonest(s, next, p, size, !unzeroed, n, clean);
    }
  }

  /** The search of chunk.c:228 finds the extent that begins where the block ends, if
      there is one, even though that address may wrap around. */
  lemma Successor(s: set<Extent>, next: Option<Extent>, p: nat, size: nat, c: nat)
    requires c > 0 && Chunks(Extent(p, size, false), c) && forall e :: e in s ==> Chunks(e, c)
    requires if next.Some? then First(s, next.value, (p + size) % W) else forall e :: e in s ==> e.addr < (p + size) % W
    ensures if next.Some? && next.value.addr == (p + size) % W then next.value.addr == p + size
            else forall e :: e in s ==> e.addr != p + size
  {}

  lemma LooseDistinct(s: set<Extent>, n: Extent)
    requires Loose(s, n) && forall e :: e in s ==> e.size > 0
    ensures forall a, b :: a in s && b in s && a != b ==> a.addr != b.addr
  {}

  /** If the extent before n does not end where n begins, no extent does. */
  lemma Separate(s: set<Extent>, n: Extent, prev: Option<Extent>, c: nat)
    requires Loose(s, n) && c > 0 && forall e :: e in s ==> Chunks(e, c)
    requires if prev.Some? then Last(s, prev.value, n.addr) else forall e :: e in s ==> e.addr >= n.addr
    ensures prev.Some? ==> prev.value != n && prev.value.End() <= n.addr < W
    ensures (prev.Some? ==> prev.value.End() != n.addr) ==> Spread(s)
  {
    if prev.Some? ==> prev.value.End() != n.addr {
      forall a | a in s && a != n ensures Apart(a, n) {
        assert prev.Some? && a != prev.value ==> Apart(a, prev.value);
      }
    }
  }

  /** The new node of chunk.c:272-279. */
  lemma JoinedBack(s: set<Extent>, n: Extent, a: Extent, m: Extent, c: nat, clean: iset<int>)
    requires Loose(s, n) && a in s && a != n && a.End() == n.addr && c > 0 && forall e :: e in s ==> Chunks(e, c)
    requires m == Extent(a.addr, n.size + a.size, n.zeroed && a.zeroed)
    ensures var t := s - {a} - {n} + {m};
            Spread(t) && (forall e :: e in t ==> Chunks(e, c)) && SameSpace(s, t)
              && (Honest(s, clean) ==> Honest(t, clean))
  {
    JoinBackward(s, n, a, m);
    ModSum(n.size, a.size, c);
    if Honest(s, clean) { JoinHonest(s, Some(a), n.addr, n.size, n.zeroed, m, clean); }
  }

  /** The zeroed field of a node that chunk_recycle allocates for trailing space is
      never set, chunk.c:91-113: the extents keep telling the truth exactly when no
      such node was needed, or its field happened to be false or true of the memory. */
  lemma CutHonest(s: set<Extent>, t: set<Extent>, e: Extent, p: nat, size: nat, junk: bool, clean: iset<int>)
    requires Spread(s) && Honest(s, clean) && CutFrom(s, t, e, p, size, junk) && size > 0
    ensures var rest := iset x | x in clean && !Within(x, p, size);
            Honest(t, rest) <==>
              p == e.addr || p + size == e.End() || !junk || forall x :: p + size <= x < e.End() ==> x in clean
  {
    var rest := iset x | x in clean && !Within(x, p, size);
    var mark := if p == e.addr then e.zeroed else junk;
    var trail := Extent(p + size, e.End() - (p + size), mark);
    if p + size < e.End() && mark && Honest(t, rest) {
      assert trail in t;
      forall x | p + size <= x < e.End() ensures x in clean {
        assert trail.Has(x);
      }
    }
    if p == e.addr || p + size == e.End() || !junk || forall x :: p + size <= x < e.End() ==> x in clean {
      forall b, x | b in t && b.zeroed && b.Has(x) ensures x in rest {
        if b in s && b != e {
          assert Apart(b, e);
        } else if x < p {
          assert e.Has(x);
        } else {
          assert b == trail && (e.zeroed ==> e.Has(x));
        }
      }
    }
  }

  /** A block cut out of the middle of a dirty extent: the flags told the truth before and
      claim afterwards that the memory behind the block is all zeros. */
  lemma FlagLies(c: nat)
    requires c > 0
    ensures var e := Extent(c, 3 * c, false);
            var t := Cutout({e}, e, 2 * c, c, true);
            Spread({e}) && Honest({e}, iset{}) && CutFrom({e}, t, e, 2 * c, c, true) && !Honest(t, iset{})
  {
    var e := Extent(c, 3 * c, false);
    var trail := Extent(3 * c, c, true);
    assert trail in Cutout({e}, e, 2 * c, c, true) && trail.Has(3 * c);
  }

  // ------------------------------------------------- no node for what is left

  /** A block in the middle of e needs a node for the space behind it. */
  predicate Inner(e: Extent, p: nat, size: nat)
  {
    e.addr < p && p + size < e.End()
  }

  /** The extents when no such node can be had: the space behind the block is lost. */
  function CutShort(s: set<Extent>, e: Extent, p: nat): set<Extent>
    requires e.addr <= p <= e.End()
  {
    s - {e} + Lead(e, p)
  }

  lemma CutShortTakes(s: set<Extent>, e: Extent, p: nat, c: nat)
    requires Spread(s) && e in s && e.addr < p < e.End() && c > 0 && p % c == 0 && forall b :: b in s ==> Chunks(b, c)
    ensures var t := CutShort(s, e, p);
            Spread(t) && (forall b :: b in t ==> Chunks(b, c)) && Taken(s, t, p, e.End() - p)
  {
    assert CutShort(s, e, p) == Cutout(s, e, p, e.End() - p, false);
    ModSum(e.addr, e.size, c);
    ModSum(e.End(), p, c);
    CutoutSpread(s, e, p, e.End() - p, false, c);
    CutoutTakes(s, e, p, e.End() - p, false);
  }

  lemma CutShortHonest(s: set<Extent>, e: Extent, p: nat, clean: iset<int>)
    requires Spread(s) && Honest(s, clean) && e in s && e.addr < p < e.End()
    ensures Honest(CutShort(s, e, p), iset x | x in clean && !Within(x, p, e.End() - p))
  {
    forall b, x | b in CutShort(s, e, p) && b.zeroed && b.Has(x) ensures x in clean && !Within(x, p, e.End() - p) {
      if b in s && b != e { assert Apart(b, e); } else { assert e.Has(x); }
    }
  }

  /** What the system answers when a block is given back: whether base_node_alloc has a
      node, whether the block goes back to the system, and what chunk_record meets. */
  datatype Memory = Memory(node: bool, unmapped: bool, unzeroed: bool, xnode: bool)

  /** The free space t after a failed request for the block at p in e: the block is there
      again if chunk_record was called and had a node for it. */
  ghost predicate Dropped(s: set<Extent>, t: set<Extent>, e: Extent, p: nat, size: nat, memory: Memory)
  {
    && Inner(e, p, size) && Taken(s, CutShort(s, e, p), p, e.End() - p)
    && if memory.unmapped || !memory.xnode then t == CutShort(s, e, p) else Given(CutShort(s, e, p), t, p, size)
  }

  /** The extents that do not touch a block. */
  ghost function Others(s: set<Extent>, p: nat, size: nat): set<Extent>
  {
    set e | e in s && !Touches(e, p, size)
  }

  predicate Touches(e: Extent, p: nat, size: nat)
  {
    e.addr == p + size || e.End() == p
  }

  /** Of the extents s, those that touch a block are joined with it to make n, which is
      zeroed if all parts are. */
  ghost predicate Merged(s: set<Extent>, t: set<Extent>, p: nat, size: nat, unzeroed: bool, n: Extent)
  {
    && t == Others(s, p, size) + {n} && n.addr <= p && p + size <= n.End()
    && (n.zeroed <==> !unzeroed && forall e :: e in s && Touches(e, p, size) ==> e.zeroed)
  }

  lemma MergedTwice(s: set<Extent>, t: set<Extent>, u: set<Extent>, p: nat, size: nat, unzeroed: bool, n: Extent,
                    m: Extent)
    requires n !in s && n.addr == p && p + size <= n.End() && size > 0
    requires t == (set e | e in s && e.addr != p + size) + {n}
    requires n.zeroed <==> !unzeroed && forall e :: e in s && e.addr == p + size ==> e.zeroed
    requires u == (set e | e in t && e != n && e.End() != p) + {m} && m.addr <= p && m.End() == n.End()
    requires m.zeroed <==> n.zeroed && forall e :: e in t && e != n && e.End() == p ==> e.zeroed
    requires forall e :: e in s && e.addr == p + size ==> e.size > 0
    ensures Merged(s, u, p, size, unzeroed, m)
  {}

  /** At most the extent before n ends where n begins. */
  lemma OneBefore(s: set<Extent>, n: Extent, prev: Option<Extent>)
    requires Loose(s, n) && forall e :: e in s ==> e.size > 0
    requires if prev.Some? then Last(s, prev.value, n.addr) else forall e :: e in s ==> e.addr >= n.addr
    ensures forall e :: e in s && e != n && e.End() == n.addr ==> prev == Some(e)
  {
    forall e | e in s && e != n && e.End() == n.addr ensures prev == Some(e) {
      assert e.addr < n.addr;
      if e != prev.value {
        Unlike(s, n, e, prev.value);
        assert false;
      }
    }
  }

  lemma Unlike(s: set<Extent>, n: Extent, a: Extent, b: Extent)
    requires Loose(s, n) && a in s && b in s && a != b && a != n && b != n
    ensures Apart(a, b)
  {}

  /** At most one extent begins where a block ends. */
  lemma OneAfter(s: set<Extent>, next: Option<Extent>, p: nat, size: nat)
    requires Spread(s) && size > 0 && forall e :: e in s ==> e.size > 0
    requires if next.Some? then next.value in s && next.value.addr == p + size else forall e :: e in s ==>
               e.addr != p + size
    ensures (set e | e in s && e.addr != p + size) == if next.Some? then s - {next.value} else s
    ensures (forall e :: e in s && e.addr == p + size ==> e.zeroed) <==> (next.Some? ==> next.value.zeroed)
  {
    forall e | e in s && e.addr == p + size ensures next == Some(e) {
      if e != next.value { Twins(s, e, next.value); }
    }
  }

  lemma Twins(s: set<Extent>, a: Extent, b: Extent)
    requires Spread(s) && a in s && b in s && a.addr == b.addr && a.size > 0 && b.size > 0
    ensures a == b
  {
    assert a != b ==> Apart(a, b);
  }

  /** A block that is not free is not the beginning of an extent. */
  lemma NewNode(s: set<Extent>, n: Extent, size: nat)
    requires size > 0 && n.size > 0 && forall x :: Within(x, n.addr, size) ==> !Covers(s, x)
    ensures n !in s
  {
    if n in s {
      assert n.Has(n.addr) && Within(n.addr, n.addr, size);
      assert false;
    }
  }

  class Extents {
    const chunksize: nat
    /** chunks_szad and chunks_ad. */
    var szad: set<Extent>
    var ad: set<Extent>
    /** The free memory that really holds zeros. */
    ghost var clean: iset<int>

    ghost predicate Valid()
      reads this
    {
      chunksize > 0 && szad == ad && Spread(ad) && forall e :: e in ad ==> Chunks(e, chunksize)
    }

    constructor (chunksize: nat)
      requires chunksize > 0
      ensures Valid() && ad == {} && this.chunksize == chunksize
    {
      this.chunksize, szad, ad, clean := chunksize, {}, {}, iset{};
    }

    /** extent_tree_szad_nsearch with a null address. */
    method SearchSize(size: nat) returns (r: Option<Extent>)
      requires Valid()
      ensures r == None <==> forall e :: e in szad ==> e.size < size
      ensures r.Some? ==> BestFit(szad, r.value, size)
    {
      if !(exists e :: e in szad && e.size >= size) { return None; }
      BestFitExists(szad, size);
      var e :| e in szad && BestFit(szad, e, size);
      return Some(e);
    }

    /** extent_tree_ad_nsearch. */
    method SearchAddress(addr: nat) returns (r: Option<Extent>)
      requires Valid()
      ensures r == None <==> forall e :: e in ad ==> e.addr < addr
      ensures r.Some? ==> First(ad, r.value, addr)
    {
      if !(exists e :: e in ad && e.addr >= addr) { return None; }
      FirstExists(ad, addr);
      var e :| e in ad && First(ad, e, addr);
      return Some(e);
    }

    /** extent_tree_ad_prev. */
    method Previous(n: Extent) returns (r: Option<Extent>)
      requires Loose(ad, n) && forall e :: e in ad ==> e.size > 0
      ensures r == None <==> forall e :: e in ad ==> e.addr >= n.addr
      ensures r.Some? ==> Last(ad, r.value, n.addr)
    {
      if !(exists e :: e in ad && e.addr < n.addr) { return None; }
      LooseDistinct(ad, n);
      LastExists(ad, n.addr);
      var e :| e in ad && Last(ad, e, n.addr);
      return Some(e);
    }

    /** Takes a block out of an extent; the node that is left over, if any, is the
        extent's own: chunk.c:81-114. */
    method Cut(e: Extent, p: nat, size: nat, junk: bool) returns (node: Option<Extent>)
      requires szad == ad && e in ad && 0 < size && e.addr <= p && p + size <= e.End()
      modifies this
      ensures szad == ad && clean == old(clean)
      ensures ad == Cutout(old(ad), e, p, size, if p == e.addr then e.zeroed else junk)
      ensures node == if p == e.addr && size == e.size then Some(e) else None
    {
      var leadsize := p - e.addr;
      var trailsize := e.size - leadsize - size;
      szad, ad, node := szad - {e}, ad - {e}, Some(e);
      if leadsize != 0 {
        var lead := e.(size := leadsize);
        szad, ad, node := szad + {lead}, ad + {lead}, None;
      }
      if trailsize != 0 {
        var trail := Extent(p + size, trailsize, if node.Some? then e.zeroed else junk);
        szad, ad, node := szad + {trail}, ad + {trail}, None;
      }
    }

    /** chunk_recycle, chunk.c:44-130.  `junk` is what the zeroed field of a node that
        base_node_alloc returns happens to hold, `wiped` says that the block was
        overwritten with zeros, and `lost` is the extent that was cut short because
        base_node_alloc failed. */
    method Recycle(size: nat, alignment: nat, base: bool, zero: bool, junk: bool, memory: Memory)
      returns (ret: Option<nat>, zero': bool, ghost wiped: bool, ghost lost: Option<Extent>)
      requires Valid() && 0 < size < W && 0 < alignment < W && size % chunksize == 0 && alignment % chunksize == 0
      modifies this
      ensures Valid()
      ensures ret == None <==>
                base || (forall e :: e in old(ad) ==> e.size < size + alignment - chunksize) || lost.Some?
      ensures lost.Some? <==> !base && !memory.node
                              && exists e :: BestFit(old(ad), e, size + alignment - chunksize)
                                             && Inner(e, Ceiling(e.addr, alignment), size)
      ensures ret == None && lost == None ==> ad == old(ad) && clean == old(clean)
      ensures ret == None ==> zero' == zero
      ensures ret.Some? ==> ret.value % alignment == 0 && Taken(old(ad), ad, ret.value, size)
      ensures ret.Some? ==>
                exists e :: BestFit(old(ad), e, size + alignment - chunksize) && ret.value == Ceiling(e.addr, alignment)
                                        && CutFrom(old(ad), ad, e, ret.value, size, junk)
                                        && (memory.node || !Inner(e, ret.value, size))
                                        && (zero' <==> zero || (e.zeroed && Whole(e, ret.value, size)))
                                        && (wiped <==> zero && !(e.zeroed && Whole(e, ret.value, size)))
      ensures ret.Some? ==> clean == iset x | x in old(clean) && !Within(x, ret.value, size)
      ensures zero ==> zero'
      ensures ret.Some? && zero' && Honest(old(ad), old(clean)) ==>
                wiped || forall x :: Within(x, ret.value, size) ==> x in old(clean)
      ensures lost.Some? ==> !memory.node && BestFit(old(ad), lost.value, size + alignment - chunksize)
                             && Dropped(old(ad), ad, lost.value, Ceiling(lost.value.addr, alignment), size, memory)
      ensures lost.Some? && Honest(old(ad), old(clean)) ==> Honest(ad, clean)
    {
      zero', wiped, lost := zero, false, None;
      ret := None;
      if base { return; }
      AlignmentAtLeast(alignment, chunksize);
      Padded(size, alignment, chunksize);
      var allocSize := (size + alignment - chunksize) % W;
      if allocSize < size { return; }
      var node := SearchSize(allocSize);
      if node == None { return; }
      var e := node.value;
      OneBestFit(ad, e, size + alignment - chunksize);
      CeilingGap(e.addr, alignment, chunksize);
      var p := Ceiling(e.addr, alignment);
      if Inner(e, p, size) && !memory.node {
        lost := Some(e);
        Drop(e, p, size, memory);
        return;
      }
      zero', wiped := Serve(e, p, size, zero, junk);
      ret := Some(p);
      assert BestFit(old(ad), e, size + alignment - chunksize) && p == Ceiling(e.addr, alignment);
    }

    /** chunk.c:81-128, with what it means for the free space. */
    method Serve(e: Extent, p: nat, size: nat, zero: bool, junk: bool) returns (zero': bool, ghost wiped: bool)
      requires Valid() && e in ad && 0 < size && e.addr <= p && p + size <= e.End() && p % chunksize == 0
               && size % chunksize == 0
      modifies this
      ensures Valid() && Taken(old(ad), ad, p, size) && CutFrom(old(ad), ad, e, p, size, junk)
      ensures clean == iset x | x in old(clean) && !Within(x, p, size)
      ensures zero' <==> zero || (e.zeroed && Whole(e, p, size))
      ensures wiped <==> zero && !(e.zeroed && Whole(e, p, size))
      ensures zero' && Honest(old(ad), old(clean)) ==> wiped || forall x :: Within(x, p, size) ==> x in old(clean)
    {
      ghost var mark := if p == e.addr then e.zeroed else junk;
      CutoutSpread(ad, e, p, size, mark, chunksize);
      CutoutTakes(ad, e, p, size, mark);
      zero', wiped := Take(e, p, size, zero, junk);
    }

    /** chunk.c:84-89 and 101-106: without a node the space behind the block is lost, and
        the block is deallocated. */
    method Drop(e: Extent, p: nat, size: nat, memory: Memory)
      requires Valid() && e in ad && Inner(e, p, size) && 0 < size && p % chunksize == 0 && size % chunksize == 0
      modifies this
      ensures Valid() && Dropped(old(ad), ad, e, p, size, memory)
      ensures Honest(old(ad), old(clean)) ==> Honest(ad, clean)
    {
      CutShortTakes(ad, e, p, chunksize);
      if Honest(ad, clean) { CutShortHonest(ad, e, p, clean); }
      ghost var s := ad;
      szad, ad := CutShort(szad, e, p), CutShort(ad, e, p);
      clean := iset x | x in clean && !Within(x, p, e.End() - p);
      if !memory.unmapped {
        forall b | b in ad ensures b.addr != p + size {
          if b in s && b != e { assert Apart(b, e); }
        }
        ghost var made := Record(p, size, memory.unzeroed, memory.xnode);
      }
    }

    /** chunk.c:81-128. */
    method Take(e: Extent, p: nat, size: nat, zero: bool, junk: bool) returns (zero': bool, ghost wiped: bool)
      requires szad == ad && e in ad && 0 < size && e.addr <= p && p + size <= e.End()
      modifies this
      ensures szad == ad && CutFrom(old(ad), ad, e, p, size, junk)
      ensures clean == iset x | x in old(clean) && !Within(x, p, size)
      ensures zero' <==> zero || (e.zeroed && Whole(e, p, size))
      ensures wiped <==> zero && !(e.zeroed && Whole(e, p, size))
    {
      var node := Cut(e, p, size, junk);
      clean := iset x | x in clean && !Within(x, p, size);
      zero', wiped := zero, false;
      if node.Some? && e.zeroed {
        zero' := true;
      } else {
        wiped := zero;
      }
    }

    /** chunk_record, chunk.c:209-284.  `unzeroed` is what purging the pages returned
        and `xnode` whether a node could be allocated. */
    method Record(chunk: nat, size: nat, unzeroed: bool, xnode: bool) returns (ghost made: Option<Extent>)
      requires Valid() && Chunks(Extent(chunk, size, false), chunksize) && forall x :: Within(x, chunk, size) ==>
                 !Covers(ad, x)
      modifies this
      ensures Valid()
      ensures (xnode || exists e :: e in old(ad) && e.addr == chunk + size) ==> Given(old(ad), ad, chunk, size)
      ensures !xnode && (forall e :: e in old(ad) ==> e.addr != chunk + size) ==> ad == old(ad)
      ensures made.Some? <==> xnode || exists e :: e in old(ad) && e.addr == chunk + size
      ensures made.Some? ==> Merged(old(ad), ad, chunk, size, unzeroed, made.value)
      ensures clean == if unzeroed then old(clean) else old(clean) + iset x | Within(x, chunk, size)
      ensures Honest(old(ad), old(clean)) ==> Honest(ad, clean)
    {
      if !unzeroed { clean := clean + iset x | Within(x, chunk, size); }
      made := None;
      var node := CoalesceForward(chunk, size, unzeroed, xnode);
      if node.Some? {
        ghost var t := ad;
        ghost var m := CoalesceBackward(node.value);
        MergedTwice(old(ad), t, ad, chunk, size, unzeroed, node.value, m);
        made := Some(m);
      }
    }

    /** chunk.c:228-261. */
    method CoalesceForward(chunk: nat, size: nat, unzeroed: bool, xnode: bool) returns (n: Option<Extent>)
      requires Valid() && Chunks(Extent(chunk, size, false), chunksize) && forall x :: Within(x, chunk, size) ==>
                 !Covers(ad, x)
      modifies this`szad, this`ad
      ensures szad == ad && forall e :: e in ad ==> Chunks(e, chunksize)
      ensures n == None <==> !xnode && (forall e :: e in old(ad) ==> e.addr != chunk + size)
      ensures n == None ==> ad == old(ad)
      ensures n.Some? ==> Loose(ad, n.value) && Given(old(ad), ad, chunk, size)
      ensures n.Some? ==> n.value !in old(ad) && n.value.addr == chunk && chunk + size <= n.value.End()
      ensures n.Some? ==> ad == (set e | e in old(ad) && e.addr != chunk + size) + {n.value}
      ensures n.Some? ==>
                (n.value.zeroed <==> !unzeroed && forall e :: e in old(ad) && e.addr == chunk + size ==> e.zeroed)
      ensures Honest(old(ad), clean) && (unzeroed || Clean(chunk, size, clean)) ==> Honest(ad, clean)
    {
      var key := (chunk + size) % W;
      var next := SearchAddress(key);
      Successor(ad, next, chunk, size, chunksize);
      var node;
      OneAfter(ad, if next.Some? && next.value.addr == key then next else None, chunk, size);
      if next.Some? && next.value.addr == key {
        node := Extent(chunk, next.value.size + size, next.value.zeroed && !unzeroed);
        NewNode(ad, node, size);
        Joined(ad, next, chunk, size, unzeroed, node, chunksize, clean);
        szad, ad := szad - {next.value} + {node}, ad - {next.value} + {node};
      } else {
        if !xnode { return None; }
        node := Extent(chunk, size, !unzeroed);
        NewNode(ad, node, size);
        Joined(ad, None, chunk, size, unzeroed, node, chunksize, clean);
        ad, szad := ad + {node}, szad + {node};
      }
      return Some(node);
    }

    /** chunk.c:263-282. */
    method CoalesceBackward(node: Extent) returns (ghost made: Extent)
      requires szad == ad && chunksize > 0 && Loose(ad, node) && forall e :: e in ad ==> Chunks(e, chunksize)
      modifies this`szad, this`ad
      ensures Valid() && SameSpace(old(ad), ad)
      ensures Honest(old(ad), clean) ==> Honest(ad, clean)
      ensures ad == (set e | e in old(ad) && e != node && e.End() != node.addr) + {made}
      ensures made.addr <= node.addr && made.End() == node.End()
      ensures made.zeroed <==> node.zeroed && forall e :: e in old(ad) && e != node && e.End() == node.addr ==> e.zeroed
    {
      made := node;
      var prev := Previous(node);
      OneBefore(ad, node, prev);
      Separate(ad, node, prev, chunksize);
      if prev.Some? && prev.value.End() % W == node.addr {
        var joined := Extent(prev.value.addr, node.size + prev.value.size, node.zeroed && prev.value.zeroed);
        ghost var t := ad - {prev.value} - {node} + {joined};
        JoinedBack(ad, node, prev.value, joined, chunksize, clean);
        szad, ad := szad - {prev.value} - {node} + {joined}, ad - {prev.value} - {node} + {joined};
        assert ad == t;
        made := joined;
      }
    }
  }
}
