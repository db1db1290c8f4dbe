/** The page map of a chunk in deps/jemalloc/src/arena.c and the list of runs that
    its boundary tags describe.  Sizes count pages. */
module ArenaRuns {

  /** One entry of the map.  Only the first and the last page of an unallocated or
      large run, and all pages of a small one, have meaningful entries. */
  datatype Page =
    | Unallocated(size: nat, dirty: bool)
    | Large(size: nat, dirty: bool)
    | Small(runind: nat, binind: nat, dirty: bool)

  datatype Kind = Unused | LargeRun | SmallRun(binind: nat)

  datatype Run = Run(pages: nat, kind: Kind, dirty: bool) {
    predicate Free() {
      kind == Unused
    }
  }

  /** Page x of a run of bin b that begins at page i knows where the run begins. */
  predicate SmallPage(m: seq<Page>, i: nat, x: nat, b: nat)
  {
    i + x < |m| && m[i + x].Small? && m[i + x].runind == x && m[i + x].binind == b
  }

  predicate SmallPages(m: seq<Page>, i: nat, n: nat, b: nat)
  {
    forall x :: 0 <= x < n ==> SmallPage(m, i, x, b)
  }

  /** One more page, or one of them again. */
  lemma SmallMore(m: seq<Page>, i: nat, n: nat, x: nat, b: nat, dirty: bool)
    requires SmallPages(m, i, n, b) && x <= n && i + x < |m|
    ensures SmallPages(m[i + x := Small(x, b, dirty)], i, if x == n then n + 1 else n, b)
  {
    var t := m[i + x := Small(x, b, dirty)];
    forall y | 0 <= y < n ensures SmallPage(t, i, y, b) {
      assert SmallPage(m, i, y, b);
    }
  }

  /** The tags of a run that begins at page i. */
  predicate Tags(m: seq<Page>, i: nat, r: Run)
  {
    && 0 < r.pages && i + r.pages <= |m|
    && var first, last := m[i], m[i + r.pages - 1];
    && first.dirty == last.dirty == r.dirty
    && match r.kind
       case Unused => first.Unallocated? && last.Unallocated? && first.size == last.size == r.pages
       case LargeRun => first.Large? && last.Large? && first.size == r.pages && (r.pages > 1 ==> last.size == 0)
       case SmallRun(b) =>
         first.Small? && last.Small? && first.runind == 0 && first.binind == b && SmallPages(m, i, r.pages, b)
  }

  /** The runs rs tile the pages from i to j. */
  predicate Tiles(m: seq<Page>, i: nat, rs: seq<Run>, j: nat)
    decreases |rs|
  {
    if rs == [] then i == j else Tags(m, i, rs[0]) && Tiles(m, i + rs[0].pages, rs[1..], j)
  }

  // ---------------------------------------------------------------- accounts

  function Pages(rs: seq<Run>): nat
  {
    if rs == [] then 0 else rs[0].pages + Pages(rs[1..])
  }

  predicate Solid(rs: seq<Run>)
  {
    rs == [] || (rs[0].pages > 0 && Solid(rs[1..]))
  }

  /** Pages in allocated runs. */
  function Active(rs: seq<Run>): nat
  {
    if rs == [] then 0 else (if rs[0].Free() then 0 else rs[0].pages) + Active(rs[1..])
  }

  /** Pages in dirty unallocated runs. */
  function Dirty(rs: seq<Run>): nat
  {
    if rs == [] then 0 else (if rs[0].Free() && rs[0].dirty then rs[0].pages else 0) + Dirty(rs[1..])
  }

  /** The number of unallocated runs. */
  function Count(rs: seq<Run>): nat
  {
    if rs == [] then 0 else (if rs[0].Free() then 1 else 0) + Count(rs[1..])
  }

  predicate FirstFree(rs: seq<Run>)
  {
    rs != [] && rs[0].Free()
  }

  predicate LastFree(rs: seq<Run>)
  {
    rs != [] && rs[|rs| - 1].Free()
  }

  function One(b: bool): nat
  {
    if b then 1 else 0
  }

  /** The number of neighbouring pairs of unallocated runs. */
  function Adjac(rs: seq<Run>): nat
  {
    if rs == [] then 0 else One(rs[0].Free() && FirstFree(rs[1..])) + Adjac(rs[1..])
  }

  /** The pages at which unallocated runs begin. */
  function Frees(rs: seq<Run>, i: nat): set<nat>
  {
    if rs == [] then {} else (if rs[0].Free() then {i} else {}) + Frees(rs[1..], i + rs[0].pages)
  }

  /** Neighbouring unallocated runs differ in their dirty flags. */
  predicate Coalesced(rs: seq<Run>)
  {
    rs == [] || ((rs[0].Free() && FirstFree(rs[1..]) ==> rs[0].dirty != rs[1].dirty) && Coalesced(rs[1..]))
  }

  lemma {:induction false} Concat(a: seq<Run>, b: seq<Run>)
    ensures Pages(a + b) == Pages(a) + Pages(b)
    ensures Active(a + b) == Active(a) + Active(b)
    ensures Dirty(a + b) == Dirty(a) + Dirty(b)
    ensures Count(a + b) == Count(a) + Count(b)
    ensures Adjac(a + b) == Adjac(a) + Adjac(b) + One(LastFree(a) && FirstFree(b))
  {
    if a == [] {
      assert a + b == b;
    } else {
      Concat(a[1..], b);
      assert (a + b)[1..] == a[1..] + b;
    }
  }

  lemma {:induction false} FreesConcat(a: seq<Run>, b: seq<Run>, i: nat)
    ensures Frees(a + b, i) == Frees(a, i) + Frees(b, i + Pages(a))
  {
    if a == [] {
      assert a + b == b;
    } else {
      FreesConcat(a[1..], b, i + a[0].pages);
      assert (a + b)[1..] == a[1..] + b;
    }
  }

  lemma {:induction false} FreesRange(rs: seq<Run>, i: nat)
    requires Solid(rs)
    ensures forall p :: p in Frees(rs, i) ==> i <= p < i + Pages(rs)
  {
    if rs != [] { FreesRange(rs[1..], i + rs[0].pages); }
  }

  /** There are fewer adjacent pairs than unallocated runs. */
  lemma {:induction false} AdjacBound(rs: seq<Run>)
    ensures Adjac(rs) + One(FirstFree(rs)) <= Count(rs)
    ensures Adjac(rs) + One(LastFree(rs)) <= Count(rs)
    ensures Count(rs) > 0 ==> Adjac(rs) < Count(rs)
  {
    if rs != [] { AdjacBound(rs[1..]); }
  }

  lemma {:induction false} TilesConcat(m: seq<Page>, i: nat, a: seq<Run>, j: nat, b: seq<Run>, k: nat)
    requires Tiles(m, i, a, j) && Tiles(m, j, b, k)
    ensures Tiles(m, i, a + b, k)
    decreases |a|
  {
    if a == [] {
      assert a + b == b;
    } else {
      TilesConcat(m, i + a[0].pages, a[1..], j, b, k);
      assert (a + b)[1..] == a[1..] + b;
    }
  }

  lemma {:induction false} TilesSplit(m: seq<Page>, i: nat, a: seq<Run>, b: seq<Run>, k: nat)
    requires Tiles(m, i, a + b, k)
    ensures Tiles(m, i, a, i + Pages(a)) && Tiles(m, i + Pages(a), b, k)
    decreases |a|
  {
    if a == [] {
      assert a + b == b;
    } else {
      assert (a + b)[1..] == a[1..] + b;
      TilesSplit(m, i + a[0].pages, a[1..], b, k);
    }
  }

  lemma {:induction false} TilesBounds(m: seq<Page>, i: nat, rs: seq<Run>, j: nat)
    requires Tiles(m, i, rs, j)
    ensures j == i + Pages(rs) && (rs != [] ==> i < j <= |m|)
    ensures Solid(rs)
    decreases |rs|
  {
    if rs != [] { TilesBounds(m, i + rs[0].pages, rs[1..], j); }
  }

  lemma TagsFrame(m: seq<Page>, n: seq<Page>, i: nat, r: Run)
    requires Tags(m, i, r) && |m| == |n| && forall x :: i <= x < i + r.pages ==> m[x] == n[x]
    ensures Tags(n, i, r)
  {
    if r.kind.SmallRun? {
      forall x | 0 <= x < r.pages ensures SmallPage(n, i, x, r.kind.binind) {
        assert SmallPage(m, i, x, r.kind.binind);
      }
    }
  }

  /** Changing pages elsewhere changes nothing here. */
  lemma {:induction false} TilesFrame(m: seq<Page>, n: seq<Page>, i: nat, rs: seq<Run>, j: nat)
    requires Tiles(m, i, rs, j) && |m| == |n| && forall x :: i <= x < j && x < |m| ==> m[x] == n[x]
    ensures Tiles(n, i, rs, j)
    decreases |rs|
  {
    if rs != [] {
      TilesBounds(m, i, rs, j);
      TilesBounds(m, i + rs[0].pages, rs[1..], j);
      TagsFrame(m, n, i, rs[0]);
      TilesFrame(m, n, i + rs[0].pages, rs[1..], j);
    }
  }

  /** What the page before a boundary tells about the run that ends there. */
  lemma {:induction false} TilesLast(m: seq<Page>, i: nat, rs: seq<Run>, j: nat)
    requires Tiles(m, i, rs, j) && rs != []
    ensures i < j <= |m|
    ensures var r, p := rs[|rs| - 1], m[j - 1];
            && p.dirty == r.dirty && (p.Unallocated? <==> r.Free()) && (r.Free() ==> p.size == r.pages)
               && r.pages <= j - i
            && Tags(m, j - r.pages, r) && Tiles(m, i, rs[..|rs| - 1], j - r.pages)
    decreases |rs|
  {
    TilesBounds(m, i, rs, j);
    if |rs| == 1 {
      assert rs[1..] == [] && rs[..0] == [];
    } else {
      TilesLast(m, i + rs[0].pages, rs[1..], j);
      assert rs[1..][..|rs| - 2] == rs[..|rs| - 1][1..];
    }
  }

  /** The accounts of a list around one of its runs. */
  lemma Around(a: seq<Run>, x: Run, b: seq<Run>)
    ensures var v := a + [x] + b;
            && Pages(v) == Pages(a) + x.pages + Pages(b)
            && Active(v) == Active(a) + (if x.Free() then 0 else x.pages) + Active(b)
            && Dirty(v) == Dirty(a) + (if x.Free() && x.dirty then x.pages else 0) + Dirty(b)
            && Count(v) == Count(a) + One(x.Free()) + Count(b)
            && Adjac(v) == Adjac(a) + (if x.Free() then One(LastFree(a)) + One(FirstFree(b)) else 0) + Adjac(b)
  {
    Concat(a, [x]);
    Concat(a + [x], b);
    assert [x][1..] == [];
  }

  lemma FreesAround(a: seq<Run>, x: Run, b: seq<Run>, i: nat)
    ensures Frees(a + [x] + b, i) ==
            Frees(a, i) + (if x.Free() then {i + Pages(a)} else {}) + Frees(b, i + Pages(a) + x.pages)
  {
    Concat(a, [x]);
    FreesConcat(a, [x], i);
    FreesConcat(a + [x], b, i);
    assert [x][1..] == [];
  }

  /** The start of a run is not the start of an unallocated run before or after it. */
  lemma FreesElsewhere(a: seq<Run>, n: nat, b: seq<Run>, i: nat, p: nat)
    requires Solid(a) && Solid(b)
    requires i + Pages(a) <= p < i + Pages(a) + n
    ensures p !in Frees(a, i) && p !in Frees(b, i + Pages(a) + n)
  {
    FreesRange(a, i);
    FreesRange(b, i + Pages(a) + n);
  }

  /** v has one unallocated run more than w: n pages at p with so many neighbours. */
  ghost predicate Gains(v: seq<Run>, w: seq<Run>, i: nat, p: nat, n: nat, dirty: bool, neighbours: nat)
  {
    && Count(v) == Count(w) + 1 && Adjac(v) == Adjac(w) + neighbours && Dirty(v) == Dirty(w) + (if dirty then n else 0)
    && Frees(v, i) == Frees(w, i) + {p} && p !in Frees(w, i)
  }

  /** Two lists amount to the same. */
  ghost predicate Alike(v: seq<Run>, w: seq<Run>, i: nat)
  {
    Count(v) == Count(w) && Adjac(v) == Adjac(w) && Dirty(v) == Dirty(w) && Active(v) == Active(w)
      && Frees(v, i) == Frees(w, i)
  }

  lemma WholeNumbers(a: seq<Run>, f: Run, x: Run, b: seq<Run>)
    requires f.Free() && !x.Free() && x.pages == f.pages
    ensures var v, w := a + [f] + b, a + [x] + b;
            && Count(v) == Count(w) + 1 && Dirty(v) == Dirty(w) + (if f.dirty then f.pages else 0)
            && Adjac(v) == Adjac(w) + One(LastFree(a)) + One(FirstFree(b)) && Active(v) + f.pages == Active(w)
  {
    Around(a, f, b);
    Around(a, x, b);
  }

  lemma WholeFrees(a: seq<Run>, f: Run, x: Run, b: seq<Run>, i: nat)
    requires f.Free() && !x.Free() && x.pages == f.pages > 0
    requires Solid(a) && Solid(b)
    ensures Frees(a + [f] + b, i) == Frees(a + [x] + b, i) + {i + Pages(a)} && i + Pages(a) !in Frees(a + [x] + b, i)
  {
    FreesAround(a, f, b, i);
    FreesAround(a, x, b, i);
    FreesElsewhere(a, f.pages, b, i, i + Pages(a));
  }

  /** An unallocated run f in place of an allocated one. */
  lemma GainWhole(a: seq<Run>, f: Run, x: Run, b: seq<Run>, i: nat, p: nat, dirty: bool, neighbours: nat)
    requires p == i + Pages(a) && dirty == f.dirty && neighbours == One(LastFree(a)) + One(FirstFree(b))
    requires f.Free() && !x.Free() && x.pages == f.pages > 0
    requires Solid(a) && Solid(b)
    ensures Gains(a + [f] + b, a + [x] + b, i, p, f.pages, dirty, neighbours)
  {
    WholeNumbers(a, f, x, b);
    WholeFrees(a, f, x, b, i);
  }

  lemma PairNumbers(a: seq<Run>, x: Run, f: Run, y: Run, b: seq<Run>)
    requires !y.Free() && y.pages == x.pages + f.pages && !(x.Free() && f.Free())
    ensures var v, w := a + [x] + [f] + b, a + [y] + b;
            && Count(v) == Count(w) + One(x.Free()) + One(f.Free())
            && Dirty(v) == Dirty(w) + (if x.Free() && x.dirty then x.pages else 0)
                            + (if f.Free() && f.dirty then f.pages else 0)
            && Adjac(v) == Adjac(w) + One(x.Free() && LastFree(a)) + One(f.Free() && FirstFree(b))
            && Active(v) == Active(w) - (if x.Free() then x.pages else 0) - (if f.Free() then f.pages else 0)
  {
    Around(a + [x], f, b);
    Around(a, x, []);
    assert a + [x] + [] == a + [x];
    Around(a, y, b);
  }

  lemma PairFrees(a: seq<Run>, x: Run, f: Run, y: Run, b: seq<Run>, i: nat)
    requires !y.Free() && y.pages == x.pages + f.pages
    ensures var p := i + Pages(a);
            Frees(a + [x] + [f] + b, i) == Frees(a + [y] + b, i) + (if x.Free() then {p} else {})
                                              + (if f.Free() then {p + x.pages} else {})
  {
    FreesAround(a + [x], f, b, i);
    FreesAround(a, x, [], i);
    assert a + [x] + [] == a + [x];
    Concat(a, [x]);
    FreesAround(a, y, b, i);
  }

  /** No unallocated run begins inside the run y. */
  lemma PairElsewhere(a: seq<Run>, y: Run, b: seq<Run>, i: nat, p: nat)
    requires Solid(a) && Solid(b)
    requires !y.Free() && i + Pages(a) <= p < i + Pages(a) + y.pages
    ensures p !in Frees(a + [y] + b, i)
  {
    FreesAround(a, y, b, i);
    FreesElsewhere(a, y.pages, b, i, p);
  }

  lemma TailFrees(a: seq<Run>, x: Run, f: Run, y: Run, b: seq<Run>, i: nat)
    requires f.Free() && !x.Free() && !y.Free() && y.pages == x.pages + f.pages && 0 < f.pages
    requires Solid(a) && Solid(b)
    ensures var v, w, p := a + [x] + [f] + b, a + [y] + b, i + Pages(a) + x.pages;
            Frees(v, i) == Frees(w, i) + {p} && p !in Frees(w, i)
  {
    PairFrees(a, x, f, y, b, i);
    PairElsewhere(a, y, b, i, i + Pages(a) + x.pages);
  }

  /** At the end of an allocated one. */
  lemma GainTail(a: seq<Run>, x: Run, f: Run, y: Run, b: seq<Run>, i: nat, p: nat, dirty: bool, neighbours: nat)
    requires p == i + Pages(a) + x.pages && dirty == f.dirty && neighbours == One(FirstFree(b))
    requires f.Free() && !x.Free() && !y.Free() && y.pages == x.pages + f.pages && 0 < f.pages
    requires Solid(a) && Solid(b)
    ensures Gains(a + [x] + [f] + b, a + [y] + b, i, p, f.pages, dirty, neighbours)
  {
    PairNumbers(a, x, f, y, b);
    TailFrees(a, x, f, y, b, i);
  }

  lemma HeadFrees(a: seq<Run>, f: Run, x: Run, y: Run, b: seq<Run>, i: nat)
    requires f.Free() && !x.Free() && !y.Free() && y.pages == f.pages + x.pages && 0 < f.pages
    requires Solid(a) && Solid(b)
    ensures var v, w, p := a + [f] + [x] + b, a + [y] + b, i + Pages(a);
            Frees(v, i) == Frees(w, i) + {p} && p !in Frees(w, i)
  {
    PairFrees(a, f, x, y, b, i);
    PairElsewhere(a, y, b, i, i + Pages(a));
  }

  /** At the beginning of an allocated one. */
  lemma GainHead(a: seq<Run>, f: Run, x: Run, y: Run, b: seq<Run>, i: nat, p: nat, dirty: bool, neighbours: nat)
    requires p == i + Pages(a) && dirty == f.dirty && neighbours == One(LastFree(a))
    requires f.Free() && !x.Free() && !y.Free() && y.pages == f.pages + x.pages && 0 < f.pages
    requires Solid(a) && Solid(b)
    ensures Gains(a + [f] + [x] + b, a + [y] + b, i, p, f.pages, dirty, neighbours)
  {
    PairNumbers(a, f, x, y, b);
    HeadFrees(a, f, x, y, b, i);
  }

  /** Two allocated runs amount to as much as one. */
  lemma JoinAllocated(a: seq<Run>, x: Run, y: Run, z: Run, b: seq<Run>, i: nat)
    requires !x.Free() && !y.Free() && !z.Free() && z.pages == x.pages + y.pages
    ensures Alike(a + [x] + [y] + b, a + [z] + b, i)
  {
    PairNumbers(a, x, y, z, b);
    PairFrees(a, x, y, z, b, i);
  }

  // -------------------------------------------------------------------- edits

  lemma TilesAround(m: seq<Page>, i: nat, a: seq<Run>, x: Run, b: seq<Run>, j: nat)
    requires Tiles(m, i, a + [x] + b, j)
    ensures var p := i + Pages(a); Tiles(m, i, a, p) && Tags(m, p, x) && Tiles(m, p + x.pages, b, j) && p + x.pages <= j
  {
    TilesSplit(m, i, a + [x], b, j);
    TilesSplit(m, i, a, [x], i + Pages(a + [x]));
    assert Tiles(m, i + Pages(a) + x.pages, [x][1..], i + Pages(a + [x]));
    TilesBounds(m, i + Pages(a) + x.pages, b, j);
  }

  /** The pages of two maps agree outside the interval from i to j. */
  predicate Outside(m: seq<Page>, n: seq<Page>, i: nat, j: nat)
  {
    |m| == |n| && forall x :: 0 <= x < |m| && !(i <= x < j) ==> m[x] == n[x]
  }

  /** New tags between runs that stay. */
  lemma TilesReplaced(m: seq<Page>, n: seq<Page>, i: nat, a: seq<Run>, p: nat, x: Run, b: seq<Run>, j: nat)
    requires Tiles(m, i, a, p) && Tiles(m, p + x.pages, b, j) && Outside(m, n, p, p + x.pages) && Tags(n, p, x)
    ensures Tiles(n, i, a + [x] + b, j)
  {
    TilesBounds(m, i, a, p);
    TilesBounds(m, p + x.pages, b, j);
    TilesFrame(m, n, i, a, p);
    TilesFrame(m, n, p + x.pages, b, j);
    assert [x][1..] == [];
    assert Tiles(n, p, [x], p + x.pages);
    TilesConcat(n, i, a, p, [x], p + x.pages);
    TilesConcat(n, i, a + [x], p + x.pages, b, j);
  }

  /** The runs on both sides of a boundary differ in their dirty flags if both are
      unallocated. */
  predicate Parted(a: seq<Run>, b: seq<Run>)
  {
    LastFree(a) && FirstFree(b) ==> a[|a| - 1].dirty != b[0].dirty
  }

  lemma {:induction false} CoalescedConcat(a: seq<Run>, b: seq<Run>)
    ensures Coalesced(a + b) <==> Coalesced(a) && Coalesced(b) && Parted(a, b)
  {
    if a == [] {
      assert a + b == b;
    } else {
      CoalescedConcat(a[1..], b);
      assert (a + b)[1..] == a[1..] + b;
    }
  }

  lemma CoalescedAround(a: seq<Run>, f: Run, b: seq<Run>)
    requires Coalesced(a + [f] + b)
    ensures Coalesced(a) && Coalesced(b)
    ensures f.Free() && LastFree(a) ==> a[|a| - 1].dirty != f.dirty
    ensures f.Free() && FirstFree(b) ==> b[0].dirty != f.dirty
  {
    CoalescedConcat(a + [f], b);
    CoalescedConcat(a, [f]);
  }

  lemma ReplaceAllocated(a: seq<Run>, x: Run, y: Run, b: seq<Run>, i: nat)
    requires !x.Free() && !y.Free() && x.pages == y.pages
    ensures Alike(a + [x] + b, a + [y] + b, i)
  {
    Around(a, x, b);
    Around(a, y, b);
    FreesAround(a, x, b, i);
    FreesAround(a, y, b, i);
  }

  /** What arena_run_split makes of an unallocated run. */
  function Splitted(f: Run, need: nat, kind: Kind): seq<Run>
  {
    [Run(need, kind, f.dirty)] + if f.pages > need then [Run(f.pages - need, Unused, f.dirty)] else []
  }

  function SplitAt(rs: seq<Run>, k: nat, need: nat, kind: Kind): seq<Run>
    requires k < |rs|
  {
    rs[..k] + Splitted(rs[k], need, kind) + rs[k + 1..]
  }

  /** The tags of an unallocated run. */
  function TagFree(m: seq<Page>, p: nat, n: nat, dirty: bool): seq<Page>
    requires 0 < n && p + n <= |m|
  {
    m[p := Unallocated(n, dirty)][p + n - 1 := Unallocated(n, dirty)]
  }

  lemma CoalescedSplit(a: seq<Run>, f: Run, need: nat, kind: Kind, b: seq<Run>)
    requires Coalesced(a + [f] + b) && f.Free() && kind != Unused
    ensures Coalesced(a + Splitted(f, need, kind) + b)
  {
    var d := Splitted(f, need, kind);
    CoalescedAround(a, f, b);
    assert Coalesced(d) by { assert d[1..] == [] || d[1..] == [d[1]]; }
    CoalescedConcat(a, d);
    CoalescedConcat(a + d, b);
  }

  lemma ActiveSplit(a: seq<Run>, f: Run, need: nat, kind: Kind, b: seq<Run>)
    requires f.Free() && kind != Unused && need <= f.pages
    ensures Active(a + Splitted(f, need, kind) + b) == Active(a + [f] + b) + need
  {
    var d := Splitted(f, need, kind);
    ActiveMiddle(a, d, b);
    ActiveMiddle(a, [f], b);
    assert d[1..] == [] || (d[1..] == [d[1]] && d[1..][1..] == []);
    assert [f][1..] == [];
  }

  lemma ActiveMiddle(a: seq<Run>, d: seq<Run>, b: seq<Run>)
    ensures Active(a + d + b) == Active(a) + Active(d) + Active(b)
  {
    Concat(a, d);
    Concat(a + d, b);
  }

  // ------------------------------------------------------------------- frees

  /** The run after k can be coalesced with an unallocated run of this flag. */
  predicate NextMerges(rs: seq<Run>, k: nat, dirty: bool)
  {
    k + 1 < |rs| && rs[k + 1].Free() && rs[k + 1].dirty == dirty
  }

  predicate PrevMerges(rs: seq<Run>, k: nat, dirty: bool)
  {
    0 < k < |rs| && rs[k - 1].Free() && rs[k - 1].dirty == dirty
  }

  /** What arena_run_dalloc makes of run k. */
  function FreeAt(rs: seq<Run>, k: nat, dirty: bool): seq<Run>
    requires k < |rs|
  {
    var prev := if PrevMerges(rs, k, dirty) then 1 else 0;
    var next := if NextMerges(rs, k, dirty) then 1 else 0;
    var pages := (if prev == 1 then rs[k - 1].pages else 0) + rs[k].pages + (if next == 1 then rs[k + 1].pages else 0);
    rs[..k - prev] + [Run(pages, Unused, dirty)] + rs[k + 1 + next..]
  }

  function MergeNext(v: seq<Run>, k: nat, dirty: bool): seq<Run>
    requires NextMerges(v, k, dirty)
  {
    v[..k] + [Run(v[k].pages + v[k + 1].pages, LargeRun, dirty)] + v[k + 2..]
  }

  function MergePrev(v: seq<Run>, k: nat, dirty: bool): seq<Run>
    requires PrevMerges(v, k, dirty)
  {
    v[..k - 1] + [Run(v[k - 1].pages + v[k].pages, LargeRun, dirty)] + v[k + 1..]
  }

  /** The state in the middle of arena_run_dalloc: n pages at p are tagged as
      unallocated, but run k of the list v is still there in their place. */
  predicate Hole(m: seq<Page>, i: nat, j: nat, v: seq<Run>, k: nat, p: nat, n: nat, dirty: bool)
  {
    && k < |v| && !v[k].Free() && v[k].pages == n && |m| == j
    && Tags(m, p, Run(n, Unused, dirty)) && Tiles(m, i, v[..k], p) && Tiles(m, p + n, v[k + 1..], j)
    && Coalesced(v[..k]) && Coalesced(v[k + 1..])
  }

  lemma TagFreeTags(m: seq<Page>, p: nat, n: nat, dirty: bool)
    requires 0 < n && p + n <= |m|
    ensures Tags(TagFree(m, p, n, dirty), p, Run(n, Unused, dirty)) && Outside(m, TagFree(m, p, n, dirty), p, p + n)
  {}

  lemma Retagged(m: seq<Page>, i: nat, j: nat, a: seq<Run>, q: nat, n: nat, dirty: bool, b: seq<Run>)
    requires Tiles(m, i, a, q) && 0 < n && q + n <= |m| == j && Tiles(m, q + n, b, j)
    ensures var t := TagFree(m, q, n, dirty);
            Tags(t, q, Run(n, Unused, dirty)) && Tiles(t, i, a, q) && Tiles(t, q + n, b, j)
  {
    var t := TagFree(m, q, n, dirty);
    TagFreeTags(m, q, n, dirty);
    TilesFrame(m, t, i, a, q);
    TilesFrame(m, t, q + n, b, j);
  }

  lemma ForwardHole(m: seq<Page>, i: nat, j: nat, v: seq<Run>, k: nat, p: nat, n: nat, dirty: bool)
    requires Hole(m, i, j, v, k, p, n, dirty) && NextMerges(v, k, dirty)
    ensures var r := v[k + 1];
            && Tags(m, p + n, r) && Tiles(m, p + n + r.pages, v[k + 2..], j) && p + n + r.pages <= j
            && Hole(TagFree(m, p, n + r.pages, dirty), i, j, MergeNext(v, k, dirty), k, p, n + r.pages, dirty)
  {
    var r, w := v[k + 1], MergeNext(v, k, dirty);
    assert v[k + 1..][0] == r && v[k + 1..][1..] == v[k + 2..];
    TilesBounds(m, p + n + r.pages, v[k + 2..], j);
    Retagged(m, i, j, v[..k], p, n + r.pages, dirty, v[k + 2..]);
    assert w[..k] == v[..k] && w[k + 1..] == v[k + 2..];
  }

  lemma BackwardFacts(m: seq<Page>, i: nat, a: seq<Run>, p: nat, r: Run)
    requires Tiles(m, i, a + [r], p) && Coalesced(a + [r])
    ensures i + r.pages <= p && Tags(m, p - r.pages, r) && Tiles(m, i, a, p - r.pages) && Coalesced(a)
  {
    assert (a + [r])[..|a|] == a;
    TilesLast(m, i, a + [r], p);
    TilesBounds(m, i, a, p - r.pages);
    CoalescedConcat(a, [r]);
  }

  lemma BackwardHole(m: seq<Page>, i: nat, j: nat, v: seq<Run>, k: nat, p: nat, n: nat, dirty: bool)
    requires Hole(m, i, j, v, k, p, n, dirty) && PrevMerges(v, k, dirty)
    ensures var r := v[k - 1];
            && i + r.pages <= p && p + n <= j && Tags(m, p - r.pages, r) && Tiles(m, i, v[..k - 1], p - r.pages)
            && Hole(TagFree(m, p - r.pages, n + r.pages, dirty), i, j, MergePrev(v, k, dirty), k - 1, p - r.pages,
                    n + r.pages, dirty)
  {
    var r, w := v[k - 1], MergePrev(v, k, dirty);
    assert v[..k] == v[..k - 1] + [r];
    BackwardFacts(m, i, v[..k - 1], p, r);
    Retagged(m, i, j, v[..k - 1], p - r.pages, n + r.pages, dirty, v[k + 1..]);
    assert w[..k - 1] == v[..k - 1] && w[k..] == v[k + 1..];
  }

  /** After coalescing forward there is nothing more to coalesce forward. */
  lemma ForwardOnce(v: seq<Run>, k: nat, dirty: bool)
    requires NextMerges(v, k, dirty) && Coalesced(v[k + 1..])
    ensures var w := MergeNext(v, k, dirty);
            !NextMerges(w, k, dirty) && (PrevMerges(w, k, dirty) <==> PrevMerges(v, k, dirty)) && |w| == |v| - 1
  {
    var w := MergeNext(v, k, dirty);
    assert w[k + 1..] == v[k + 2..];
    assert v[k + 1..] == [v[k + 1]] + v[k + 2..];
    CoalescedConcat([v[k + 1]], v[k + 2..]);
    if k + 1 < |w| { assert w[k + 1] == v[k + 2] == v[k + 2..][0]; }
  }

  lemma BackwardOnce(v: seq<Run>, k: nat, dirty: bool)
    requires PrevMerges(v, k, dirty) && Coalesced(v[..k])
    ensures var w := MergePrev(v, k, dirty);
            !PrevMerges(w, k - 1, dirty) && (NextMerges(w, k - 1, dirty) <==> NextMerges(v, k, dirty)) && |w| == |v| - 1
  {
    assert v[..k] == v[..k - 1] + [v[k - 1]];
    CoalescedConcat(v[..k - 1], [v[k - 1]]);
    if k > 1 { assert v[..k - 1][k - 2] == v[k - 2] == MergePrev(v, k, dirty)[k - 2]; }
  }

  /** The list with the hole filled, when nothing more can be coalesced. */
  lemma Filled(m: seq<Page>, i: nat, j: nat, v: seq<Run>, k: nat, p: nat, n: nat, dirty: bool)
    requires Hole(m, i, j, v, k, p, n, dirty) && !NextMerges(v, k, dirty) && !PrevMerges(v, k, dirty)
    ensures var u := v[k := Run(n, Unused, dirty)]; Tiles(m, i, u, j) && Coalesced(u)
  {
    var f, a, b := Run(n, Unused, dirty), v[..k], v[k + 1..];
    assert v[k := f] == a + [f] + b;
    TilesReplaced(m, m, i, a, p, f, b, j);
    assert LastFree(a) ==> a[k - 1] == v[k - 1];
    assert FirstFree(b) ==> b[0] == v[k + 1];
    assert Coalesced([f]) by { assert [f][1..] == []; }
    CoalescedConcat(a, [f]);
    assert (a + [f])[k] == f;
    CoalescedConcat(a + [f], b);
  }

  /** The steps of arena_run_dalloc amount to FreeAt. */
  lemma FreeSteps(v: seq<Run>, k: nat, dirty: bool)
    requires k < |v|
    ensures var w := if NextMerges(v, k, dirty) then MergeNext(v, k, dirty) else v;
            var i := if PrevMerges(w, k, dirty) then k - 1 else k;
            var u := if PrevMerges(w, k, dirty) then MergePrev(w, k, dirty) else w;
            i < |u| && u[i := Run(u[i].pages, Unused, dirty)] == FreeAt(v, k, dirty)
  {
    if NextMerges(v, k, dirty) {
      FreeStepsNext(v, k, dirty);
    } else if PrevMerges(v, k, dirty) {
      FillPrev(v, k, dirty);
    } else {
      FillHere(v, k, dirty);
    }
  }

  lemma FreeStepsNext(v: seq<Run>, k: nat, dirty: bool)
    requires NextMerges(v, k, dirty)
    ensures var w := MergeNext(v, k, dirty);
            var i := if PrevMerges(w, k, dirty) then k - 1 else k;
            var u := if PrevMerges(w, k, dirty) then MergePrev(w, k, dirty) else w;
            i < |u| && u[i := Run(u[i].pages, Unused, dirty)] == FreeAt(v, k, dirty)
  {
    var w := MergeNext(v, k, dirty);
    assert w[..k] == v[..k] && w[k + 1..] == v[k + 2..];
    assert k > 0 ==> w[k - 1] == v[k - 1];
    if PrevMerges(v, k, dirty) {
      FillPrev(w, k, dirty);
      assert w[..k - 1] == v[..k - 1];
    } else {
      FillHere(w, k, dirty);
    }
  }

  lemma FillHere(w: seq<Run>, k: nat, dirty: bool)
    requires k < |w|
    ensures w[k := Run(w[k].pages, Unused, dirty)] == w[..k] + [Run(w[k].pages, Unused, dirty)] + w[k + 1..]
  {}

  lemma FillPrev(w: seq<Run>, k: nat, dirty: bool)
    requires PrevMerges(w, k, dirty)
    ensures var u, n := MergePrev(w, k, dirty), w[k - 1].pages + w[k].pages;
            k - 1 < |u| && u[k - 1].pages == n
            && u[k - 1 := Run(n, Unused, dirty)] == w[..k - 1] + [Run(n, Unused, dirty)] + w[k + 1..]
  {
    var u := MergePrev(w, k, dirty);
    assert u[..k - 1] == w[..k - 1] && u[k..] == w[k + 1..];
    FillHere(u, k - 1, dirty);
  }

  /** Every run of FreeAt but the new one is a run of the list. */
  lemma FreeKeeps(rs: seq<Run>, k: nat, dirty: bool, i: nat)
    requires k < |rs| && i < |FreeAt(rs, k, dirty)|
    ensures FreeAt(rs, k, dirty)[i].Free() || FreeAt(rs, k, dirty)[i] in rs
  {}

  lemma {:induction false} ActiveFree(a: seq<Run>)
    requires forall i :: 0 <= i < |a| ==> a[i].Free()
    ensures Active(a) == 0
  {
    if a != [] { ActiveFree(a[1..]); }
  }

  lemma ActiveAround(a: seq<Run>, l: seq<Run>, x: Run, r: seq<Run>, b: seq<Run>)
    requires (forall i :: 0 <= i < |l| ==> l[i].Free()) && (forall i :: 0 <= i < |r| ==> r[i].Free()) && !x.Free()
    ensures Active((a + l) + [x] + (r + b)) == Active(a) + x.pages + Active(b)
  {
    Around(a + l, x, r + b);
    Concat(a, l);
    Concat(r, b);
    ActiveFree(l);
    ActiveFree(r);
  }

  /** FreeAt puts the new run f in the place of run k and its free neighbours l, r. */
  lemma FreeParts(rs: seq<Run>, k: nat, dirty: bool)
    returns (a: seq<Run>, l: seq<Run>, r: seq<Run>, b: seq<Run>, f: Run)
    requires k < |rs|
    ensures rs == (a + l) + [rs[k]] + (r + b) && FreeAt(rs, k, dirty) == a + [f] + b && f.Free()
    ensures (forall i :: 0 <= i < |l| ==> l[i].Free() && l[i].dirty == dirty)
            && (forall i :: 0 <= i < |r| ==> r[i].Free() && r[i].dirty == dirty)
    ensures f.dirty == dirty && f.pages == Pages(l) + rs[k].pages + Pages(r) && |a| + |l| == k
  {
    var i := if PrevMerges(rs, k, dirty) then k - 1 else k;
    var j := if NextMerges(rs, k, dirty) then k + 2 else k + 1;
    PagesAtMostOne(rs[i..k]);
    PagesAtMostOne(rs[k + 1..j]);
    a, b, l, r, f := rs[..i], rs[j..], rs[i..k], rs[k + 1..j], FreeAt(rs, k, dirty)[i];
    assert FreeAt(rs, k, dirty) == a + [f] + b;
    Slices(rs, i, k, j);
  }

  lemma PagesAtMostOne(l: seq<Run>)
    requires |l| <= 1
    ensures Pages(l) == if l == [] then 0 else l[0].pages
  {
    if l != [] { assert l[1..] == []; }
  }

  lemma Slices(rs: seq<Run>, i: nat, k: nat, j: nat)
    requires i <= k < j <= |rs|
    ensures rs == (rs[..i] + rs[i..k]) + [rs[k]] + (rs[k + 1..j] + rs[j..])
  {
    assert rs[..k] == rs[..i] + rs[i..k];
    assert rs[k + 1..] == rs[k + 1..j] + rs[j..];
    assert rs == rs[..k] + [rs[k]] + rs[k + 1..];
  }

  lemma FreeActive(rs: seq<Run>, k: nat, dirty: bool)
    requires k < |rs| && !rs[k].Free()
    ensures Active(FreeAt(rs, k, dirty)) + rs[k].pages == Active(rs)
  {
    var a, l, r, b, f := FreeParts(rs, k, dirty);
    ActiveAround(a, l, rs[k], r, b);
    ActiveAroundFree(a, f, b);
  }

  lemma ActiveAroundFree(a: seq<Run>, f: Run, b: seq<Run>)
    requires f.Free()
    ensures Active(a + [f] + b) == Active(a) + Active(b)
  {
    Around(a, f, b);
  }

  /** A run as long as the whole list is its only one. */
  lemma LoneRun(rs: seq<Run>, i: nat)
    requires Solid(rs) && i < |rs|
    ensures rs[i].pages == Pages(rs) <==> |rs| == 1
  {
    if |rs| == 1 {
      assert rs[1..] == [];
    } else if i > 0 {
      LongerThan(rs[1..], i - 1);
    } else {
      LongerThan(rs[1..], 0);
    }
  }

  lemma {:induction false} LongerThan(rs: seq<Run>, i: nat)
    requires Solid(rs) && i < |rs|
    ensures 0 < rs[i].pages <= Pages(rs)
  {
    if i > 0 { LongerThan(rs[1..], i - 1); }
  }

  /** Every start of an unallocated run belongs to one. */
  lemma {:induction false} FreesIndex(rs: seq<Run>, i: nat, p: nat) returns (k: nat)
    requires p in Frees(rs, i)
    ensures k < |rs| && rs[k].Free() && p == i + Pages(rs[..k])
  {
    if rs[0].Free() && p == i {
      k := 0;
    } else {
      var j := FreesIndex(rs[1..], i + rs[0].pages, p);
      k := j + 1;
      assert rs[..k] == [rs[0]] + rs[1..][..j];
      assert rs[..k][1..] == rs[1..][..j];
    }
  }

  lemma FreesHas(rs: seq<Run>, i: nat, k: nat)
    requires k < |rs| && rs[k].Free()
    ensures i + Pages(rs[..k]) in Frees(rs, i)
  {
    assert rs == rs[..k] + [rs[k]] + rs[k + 1..];
    FreesAround(rs[..k], rs[k], rs[k + 1..], i);
  }

  // --------------------------------------------------- cutting and joining

  /** A large run cut in two after `head` pages. */
  function CutAt(rs: seq<Run>, k: nat, head: nat): seq<Run>
    requires k < |rs| && head <= rs[k].pages
  {
    rs[..k] + [Run(head, LargeRun, rs[k].dirty)] + [Run(rs[k].pages - head, LargeRun, rs[k].dirty)] + rs[k + 1..]
  }

  /** Two runs made one large run. */
  function JoinAt(rs: seq<Run>, k: nat, dirty: bool): seq<Run>
    requires k + 1 < |rs|
  {
    rs[..k] + [Run(rs[k].pages + rs[k + 1].pages, LargeRun, dirty)] + rs[k + 2..]
  }

  function TagLarge(m: seq<Page>, p: nat, n: nat, dirty: bool): seq<Page>
    requires 0 < n && p + n <= |m|
  {
    m[p + n - 1 := Large(0, dirty)][p := Large(n, dirty)]
  }

  /** Allocated runs between two lists do not matter for coalescing. */
  lemma CoalescedOver(a: seq<Run>, x: Run, b: seq<Run>)
    requires !x.Free()
    ensures Coalesced(a + [x] + b) <==> Coalesced(a) && Coalesced(b)
  {
    assert [x][1..] == [];
    CoalescedConcat(a, [x]);
    CoalescedConcat(a + [x], b);
  }

  lemma CoalescedTwo(a: seq<Run>, x: Run, y: Run, b: seq<Run>)
    requires !x.Free() && !y.Free()
    ensures Coalesced(a + [x] + [y] + b) <==> Coalesced(a) && Coalesced(b)
  {
    CoalescedOver(a + [x], y, b);
    CoalescedOver(a, x, []);
    assert a + [x] + [] == a + [x];
  }

  lemma CutTiles(m: seq<Page>, i: nat, a: seq<Run>, p: nat, r: Run, head: nat, b: seq<Run>, j: nat)
    requires Tiles(m, i, a, p) && Tags(m, p, r) && Tiles(m, p + r.pages, b, j) && r.kind == LargeRun
             && 0 < head < r.pages
    ensures var n := TagLarge(m, p, head, r.dirty)[p + head := Large(r.pages - head, r.dirty)];
            Tiles(n, i, a + [Run(head, LargeRun, r.dirty)] + [Run(r.pages - head, LargeRun, r.dirty)] + b, j)
  {
    var n := TagLarge(m, p, head, r.dirty)[p + head := Large(r.pages - head, r.dirty)];
    var x, y := Run(head, LargeRun, r.dirty), Run(r.pages - head, LargeRun, r.dirty);
    CutTags(m, p, r, head);
    assert Tiles(n, i, a, p) by { TilesBounds(m, i, a, p); TilesFrame(m, n, i, a, p); }
    assert Tiles(n, p + r.pages, b, j) by { TilesBounds(m, p + r.pages, b, j); TilesFrame(m, n, p + r.pages, b, j); }
    TilesTwo(n, i, a, p, x, y, b, j);
  }

  lemma CutTags(m: seq<Page>, p: nat, r: Run, head: nat)
    requires Tags(m, p, r) && r.kind == LargeRun && 0 < head < r.pages
    ensures var n := TagLarge(m, p, head, r.dirty)[p + head := Large(r.pages - head, r.dirty)];
            && Tags(n, p, Run(head, LargeRun, r.dirty)) && Tags(n, p + head, Run(r.pages - head, LargeRun, r.dirty))
            && Outside(m, n, p, p + r.pages)
  {}

  lemma TilesTwo(m: seq<Page>, i: nat, a: seq<Run>, p: nat, x: Run, y: Run, b: seq<Run>, j: nat)
    requires Tiles(m, i, a, p) && Tags(m, p, x) && Tags(m, p + x.pages, y) && Tiles(m, p + x.pages + y.pages, b, j)
    ensures Tiles(m, i, a + [x] + [y] + b, j)
  {
    TilesOne(m, i, a, p, x);
    TilesOne(m, i, a + [x], p + x.pages, y);
    TilesConcat(m, i, a + [x] + [y], p + x.pages + y.pages, b, j);
  }

  lemma TilesOne(m: seq<Page>, i: nat, a: seq<Run>, p: nat, x: Run)
    requires Tiles(m, i, a, p) && Tags(m, p, x)
    ensures Tiles(m, i, a + [x], p + x.pages)
  {
    assert [x][1..] == [];
    assert Tiles(m, p, [x], p + x.pages);
    TilesConcat(m, i, a, p, [x], p + x.pages);
  }

  lemma JoinTiles(m: seq<Page>, i: nat, a: seq<Run>, p: nat, x: Run, y: Run, dirty: bool, b: seq<Run>, j: nat)
    requires Tiles(m, i, a, p) && Tags(m, p, x) && Tags(m, p + x.pages, y) && Tiles(m, p + x.pages + y.pages, b, j)
    ensures Tiles(TagLarge(m, p, x.pages + y.pages, dirty), i, a + [Run(x.pages + y.pages, LargeRun, dirty)] + b, j)
  {
    TilesReplaced(m, TagLarge(m, p, x.pages + y.pages, dirty), i, a, p, Run(x.pages + y.pages, LargeRun, dirty), b, j);
  }

  /** The second part of a cut run begins where the first ends. */
  lemma CutStarts(rs: seq<Run>, k: nat, head: nat)
    requires k < |rs| && head <= rs[k].pages
    ensures var v := CutAt(rs, k, head);
            && |v| == |rs| + 1 && v[..k] == rs[..k] && v[k] == Run(head, LargeRun, rs[k].dirty)
            && v[k + 1] == Run(rs[k].pages - head, LargeRun, rs[k].dirty) && Pages(v[..k + 1]) == Pages(rs[..k]) + head
  {
    var v := CutAt(rs, k, head);
    assert v[..k] == rs[..k];
    assert v[..k + 1] == rs[..k] + [v[k]];
    NextStart(v, k);
  }

  lemma NextStart(rs: seq<Run>, k: nat)
    requires k < |rs|
    ensures Pages(rs[..k + 1]) == Pages(rs[..k]) + rs[k].pages
  {
    assert rs[..k + 1] == rs[..k] + [rs[k]];
    Concat(rs[..k], [rs[k]]);
    assert [rs[k]][1..] == [];
  }

  /** A list with another allocated run does not become one unallocated run. */
  lemma FreeNotAll(rs: seq<Run>, k: nat, dirty: bool, j: nat)
    requires k < |rs| && j < |rs| && j != k && !rs[j].Free()
    ensures |FreeAt(rs, k, dirty)| > 1
  {}

  // ------------------------------------------------------------------- purge

  /** What the purge scan knows of a chunk's runs when it stands at run i: no two
      neighbours before it are unallocated, and if it and the run before it are, it is
      the dirty one; with `all` no dirty run before it is. */
  predicate ScannedTo(rs: seq<Run>, i: nat, all: bool)
  {
    && i <= |rs| && Adjac(rs[..i]) == 0 && (all ==> Dirty(rs[..i]) == 0)
    && (0 < i < |rs| && rs[i - 1].Free() && rs[i].Free() ==> rs[i].dirty)
  }

  lemma PrefixStep(rs: seq<Run>, i: nat)
    requires i < |rs|
    ensures Adjac(rs[..i + 1]) == Adjac(rs[..i]) + One(i > 0 && rs[i - 1].Free() && rs[i].Free())
    ensures Dirty(rs[..i + 1]) == Dirty(rs[..i]) + if rs[i].Free() && rs[i].dirty then rs[i].pages else 0
  {
    assert rs[..i + 1] == rs[..i] + [rs[i]];
    Concat(rs[..i], [rs[i]]);
    assert [rs[i]][1..] == [];
  }

  lemma CoalescedPair(rs: seq<Run>, i: nat)
    requires Coalesced(rs) && i + 1 < |rs| && rs[i].Free() && rs[i + 1].Free()
    ensures rs[i].dirty != rs[i + 1].dirty
  {
    assert rs == rs[..i] + [rs[i]] + rs[i + 1..];
    CoalescedAround(rs[..i], rs[i], rs[i + 1..]);
  }

  /** The run is passed over. */
  lemma ScanPast(rs: seq<Run>, i: nat, all: bool)
    requires ScannedTo(rs, i, all) && i < |rs| && Coalesced(rs)
    requires rs[i].Free() && rs[i].dirty ==> !all && !(i > 0 && rs[i - 1].Free()) && !(i + 1 < |rs| && rs[i + 1].Free())
    ensures ScannedTo(rs, i + 1, all)
  {
    PrefixStep(rs, i);
    if i + 1 < |rs| && rs[i].Free() && rs[i + 1].Free() { CoalescedPair(rs, i); }
  }

  /** The run, which was unallocated, is taken. */
  lemma ScanTake(rs: seq<Run>, i: nat, all: bool, v: seq<Run>)
    requires ScannedTo(rs, i, all) && i < |rs| && v == rs[i := Run(rs[i].pages, LargeRun, rs[i].dirty)]
    ensures ScannedTo(v, i + 1, all)
  {
    assert v[..i] == rs[..i];
    PrefixStep(v, i);
  }

  /** Splitting off all of a run. */
  lemma SplitWhole(rs: seq<Run>, i: nat)
    requires i < |rs|
    ensures SplitAt(rs, i, rs[i].pages, LargeRun) == rs[i := Run(rs[i].pages, LargeRun, rs[i].dirty)]
  {}

  lemma TakenDirty(rs: seq<Run>, i: nat, v: seq<Run>)
    requires i < |rs| && rs[i].Free() && v == rs[i := Run(rs[i].pages, LargeRun, rs[i].dirty)]
    ensures Dirty(v) + (if rs[i].dirty then rs[i].pages else 0) == Dirty(rs)
    ensures forall j :: 0 <= j <= |rs| ==> Pages(v[..j]) == Pages(rs[..j])
  {
    assert rs == rs[..i] + [rs[i]] + rs[i + 1..] && v == rs[..i] + [v[i]] + rs[i + 1..];
    Around(rs[..i], rs[i], rs[i + 1..]);
    Around(rs[..i], v[i], rs[i + 1..]);
    forall j | 0 <= j <= |rs| ensures Pages(v[..j]) == Pages(rs[..j]) {
      SamePages(v[..j], rs[..j]);
    }
  }

  lemma {:induction false} SamePages(v: seq<Run>, w: seq<Run>)
    requires |v| == |w| && forall j :: 0 <= j < |v| ==> v[j].pages == w[j].pages
    ensures Pages(v) == Pages(w)
  {
    if v != [] { SamePages(v[1..], w[1..]); }
  }

  lemma ScanEnd(rs: seq<Run>, all: bool)
    requires ScannedTo(rs, |rs|, all)
    ensures Adjac(rs) == 0 && (all ==> Dirty(rs) == 0)
  {
    assert rs[..|rs|] == rs;
  }

  lemma {:induction false} CleanList(l: seq<Run>)
    requires forall i :: 0 <= i < |l| ==> !l[i].dirty
    ensures Dirty(l) == 0
  {
    if l != [] { CleanList(l[1..]); }
  }

  lemma DirtyAround(a: seq<Run>, l: seq<Run>, x: Run, r: seq<Run>, b: seq<Run>)
    requires (forall i :: 0 <= i < |l| ==> !l[i].dirty) && (forall i :: 0 <= i < |r| ==> !r[i].dirty) && !x.Free()
    ensures Dirty((a + l) + [x] + (r + b)) == Dirty(a) + Dirty(b)
  {
    Around(a + l, x, r + b);
    Concat(a, l);
    Concat(r, b);
    CleanList(l);
    CleanList(r);
  }

  /** A run that is freed as clean does not add to the dirty pages. */
  lemma FreeDirty(rs: seq<Run>, k: nat)
    requires k < |rs| && !rs[k].Free()
    ensures Dirty(FreeAt(rs, k, false)) == Dirty(rs)
  {
    var a, l, r, b, f := FreeParts(rs, k, false);
    DirtyAround(a, l, rs[k], r, b);
    CleanAround(a, f, b);
  }

  lemma CleanAround(a: seq<Run>, f: Run, b: seq<Run>)
    requires !f.dirty
    ensures Dirty(a + [f] + b) == Dirty(a) + Dirty(b)
  {
    Around(a, f, b);
  }

  /** Another allocated run stays where it is. */
  lemma FreeKeepsStart(rs: seq<Run>, k: nat, dirty: bool, j: nat) returns (i: nat)
    requires k < |rs| && j < |rs| && j != k && !rs[j].Free()
    ensures var u := FreeAt(rs, k, dirty); i < |u| && u[i] == rs[j] && Pages(u[..i]) == Pages(rs[..j])
  {
    var a, l, r, b, f := FreeParts(rs, k, dirty);
    var u := FreeAt(rs, k, dirty);
    if j < k {
      i := j;
      assert j < |a| by { assert rs == (a + l) + [rs[k]] + (r + b); }
      assert u[..i] == a[..i] == rs[..j];
    } else {
      var o := j - |a| - |l| - 1 - |r|;
      assert o >= 0 && rs[j..] == b[o..] by { assert rs == (a + l) + [rs[k]] + (r + b); }
      i := |a| + 1 + o;
      assert rs[..j] == (a + l) + [rs[k]] + (r + b[..o]);
      assert u[..i] == a + [f] + b[..o];
      MiddlePages(a, l, rs[k], r, b[..o], f);
    }
  }

  lemma MiddlePages(a: seq<Run>, l: seq<Run>, x: Run, r: seq<Run>, b: seq<Run>, f: Run)
    requires f.pages == Pages(l) + x.pages + Pages(r)
    ensures Pages(a + [f] + b) == Pages((a + l) + [x] + (r + b))
  {
    Around(a + l, x, r + b);
    Concat(a, l);
    Concat(r, b);
    Around(a, f, b);
  }
}
