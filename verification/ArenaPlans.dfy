/** The lists of runs and the page maps in the course of each operation of
    deps/jemalloc/src/arena.c. */
module ArenaPlans {
  import opened Options
  import opened ArenaRuns
  import opened ArenaState

  // ------------------------------------------------------------------- splits

  predicate Fits(g: Layout, need: nat, kind: Kind)
  {
    kind != Unused && (kind.SmallRun? ==> kind.binind < |g.bins| && g.bins[kind.binind] == need)
  }

  lemma SizedSplit(g: Layout, a: seq<Run>, f: Run, need: nat, kind: Kind, b: seq<Run>)
    requires Sized(g, a + [f] + b) && Fits(g, need, kind)
    ensures Sized(g, a + Splitted(f, need, kind) + b)
  {
    var v, w := a + [f] + b, a + Splitted(f, need, kind) + b;
    var n := |Splitted(f, need, kind)|;
    forall k | 0 <= k < |w| && w[k].kind.SmallRun?
      ensures w[k].kind.binind < |g.bins| && w[k].pages == g.bins[w[k].kind.binind]
    {
      if k < |a| { assert v[k] == w[k]; } else if k >= |a| + n { assert v[k + 1 - n] == w[k]; }
    }
  }

  /** The map from before a split, with the tail tagged, and with all tags set. */
  lemma SplitTiles(m0: seq<Page>, m1: seq<Page>, m2: seq<Page>, i: nat, a: seq<Run>, p: nat, f: Run, need: nat,
                   kind: Kind, b: seq<Run>, j: nat)
    requires Tiles(m0, i, a, p) && Tiles(m0, p + f.pages, b, j) && 0 < need <= f.pages
    requires Outside(m0, m1, p + need, p + f.pages) && Outside(m1, m2, p, p + need)
    requires need < f.pages ==> Tags(m1, p + need, Run(f.pages - need, Unused, f.dirty))
    requires Tags(m2, p, Run(need, kind, f.dirty))
    ensures Tiles(m2, i, a + Splitted(f, need, kind) + b, j)
  {
    var y, r := Run(need, kind, f.dirty), Run(f.pages - need, Unused, f.dirty);
    assert Tiles(m1, i, a, p) && Tiles(m1, p + f.pages, b, j) by { SplitFrame(m0, m1, i, a, p, need, f.pages, b, j); }
    if need < f.pages {
      assert Tiles(m1, p + need, [r] + b, j) by { assert ([r] + b)[1..] == b; }
      TilesReplaced(m1, m2, i, a, p, y, [r] + b, j);
      assert a + [y] + ([r] + b) == a + Splitted(f, need, kind) + b;
    } else {
      TilesReplaced(m1, m2, i, a, p, y, b, j);
      assert a + [y] + b == a + Splitted(f, need, kind) + b;
    }
  }

  lemma SplitFrame(m0: seq<Page>, m1: seq<Page>, i: nat, a: seq<Run>, p: nat, need: nat, n: nat, b: seq<Run>, j: nat)
    requires Tiles(m0, i, a, p) && Tiles(m0, p + n, b, j) && need <= n && Outside(m0, m1, p + need, p + n)
    ensures Tiles(m1, i, a, p) && Tiles(m1, p + n, b, j)
  {
    TilesBounds(m0, i, a, p);
    TilesBounds(m0, p + n, b, j);
    TilesFrame(m0, m1, i, a, p);
    TilesFrame(m0, m1, p + n, b, j);
  }

  /** The new runs of the chunk are in order. */
  lemma SplitMapOk(g: Layout, s: State, t: State, c: nat, p: nat, m0: seq<Page>, m1: seq<Page>,
                   a: seq<Run>, f: Run, need: nat, kind: Kind, b: seq<Run>)
    requires MapOk(g, s, c) && s.runs[c] == a + [f] + b && m0 == s.chunks[c].pagemap && p == g.bias + Pages(a)
    requires f.Free() && 0 < need <= f.pages && Fits(g, need, kind)
    requires Outside(m0, m1, p + need, p + f.pages)
             && (need < f.pages ==> Tags(m1, p + need, Run(f.pages - need, Unused, f.dirty)))
    requires c in t.chunks && c in t.runs && t.runs[c] == a + Splitted(f, need, kind) + b
    requires Outside(m1, t.chunks[c].pagemap, p, p + need) && Tags(t.chunks[c].pagemap, p, Run(need, kind, f.dirty))
    ensures MapOk(g, t, c)
  {
    TilesAround(m0, g.bias, a, f, b, g.npages);
    SplitTiles(m0, m1, t.chunks[c].pagemap, g.bias, a, p, f, need, kind, b, g.npages);
    CoalescedSplit(a, f, need, kind, b);
    SizedSplit(g, a, f, need, kind, b);
  }

  /** Where run k of a chunk begins. */
  ghost predicate At(g: Layout, rs: seq<Run>, k: nat, p: nat)
  {
    k < |rs| && p == g.bias + Pages(rs[..k])
  }

  /** What the map says of a run. */
  lemma Located(g: Layout, m: seq<Page>, rs: seq<Run>, k: nat, p: nat)
    requires Tiles(m, g.bias, rs, g.npages) && At(g, rs, k, p)
    ensures Tiles(m, g.bias, rs[..k], p) && Tags(m, p, rs[k]) && Tiles(m, p + rs[k].pages, rs[k + 1..], g.npages)
    ensures p + rs[k].pages <= g.npages && g.bias <= p
  {
    assert rs == rs[..k] + [rs[k]] + rs[k + 1..];
    TilesAround(m, g.bias, rs[..k], rs[k], rs[k + 1..], g.npages);
  }

  lemma Neighbourly(rs: seq<Run>, k: nat)
    requires k < |rs| && Coalesced(rs) && rs[k].Free()
    ensures LastFree(rs[..k]) ==> rs[..k][k - 1].dirty != rs[k].dirty
    ensures FirstFree(rs[k + 1..]) ==> rs[k + 1..][0].dirty != rs[k].dirty
  {
    assert rs == rs[..k] + [rs[k]] + rs[k + 1..];
    CoalescedAround(rs[..k], rs[k], rs[k + 1..]);
  }

  /** Taking the run k that is to be split: w has it allocated. */
  lemma TakePlan(g: Layout, s: State, c: nat, p: nat, k: nat) returns (w: seq<Run>)
    requires g.bias < g.npages && MapOk(g, s, c) && At(g, s.runs[c], k, p) && s.runs[c][k].Free()
    ensures var m, f := s.chunks[c].pagemap, s.runs[c][k];
            && |w| == |s.runs[c]| && w == s.runs[c][k := Run(f.pages, LargeRun, f.dirty)]
            && g.bias <= p && 0 < f.pages && p + f.pages <= g.npages && Tags(m, p, f)
            && Plus(g, m, p, f.pages, true, true, s.runs[c], w)
  {
    var m, rs := s.chunks[c].pagemap, s.runs[c];
    var f := rs[k];
    Located(g, m, rs, k, p);
    Neighbourly(rs, k);
    w := rs[k := Run(f.pages, LargeRun, f.dirty)];
    PlusWhole(g, m, rs[..k], p, f, Run(f.pages, LargeRun, f.dirty), rs[k + 1..]);
    assert rs == rs[..k] + [f] + rs[k + 1..];
    assert w == rs[..k] + [Run(f.pages, LargeRun, f.dirty)] + rs[k + 1..];
  }

  /** Giving back what is left of it. */
  lemma TailPlan(g: Layout, s: State, c: nat, p: nat, k: nat, need: nat, kind: Kind, w: seq<Run>)
    requires g.bias < g.npages && MapOk(g, s, c) && At(g, s.runs[c], k, p) && s.runs[c][k].Free()
    requires 0 < need < s.runs[c][k].pages && kind != Unused && p + s.runs[c][k].pages <= g.npages
    requires w == s.runs[c][k := Run(s.runs[c][k].pages, LargeRun, s.runs[c][k].dirty)]
    ensures var f := s.runs[c][k];
            var n := TagFree(s.chunks[c].pagemap, p + need, f.pages - need, f.dirty);
            Plus(g, n, p + need, f.pages - need, false, true, SplitAt(s.runs[c], k, need, kind), w)
  {
    var m, rs := s.chunks[c].pagemap, s.runs[c];
    var f, a, b := rs[k], rs[..k], rs[k + 1..];
    Located(g, m, rs, k, p);
    Neighbourly(rs, k);
    TailTags(g, m, a, p, f, b, need);
    var n := TagFree(m, p + need, f.pages - need, f.dirty);
    var x, y, r := Run(f.pages, LargeRun, f.dirty), Run(need, kind, f.dirty), Run(f.pages - need, Unused, f.dirty);
    PlusTail(g, n, a, y, r, p + need, x, b);
    SplitLists(rs, k, need, kind);
  }

  /** The tags of the tail, and what they leave alone. */
  lemma TailTags(g: Layout, m: seq<Page>, a: seq<Run>, p: nat, f: Run, b: seq<Run>, need: nat)
    requires Tiles(m, g.bias, a, p) && Tiles(m, p + f.pages, b, g.npages) && |m| == g.npages
    requires 0 < need < f.pages && p + f.pages <= g.npages
    ensures var n := TagFree(m, p + need, f.pages - need, f.dirty);
            && Tags(n, p + need, Run(f.pages - need, Unused, f.dirty)) && Tiles(n, p + f.pages, b, g.npages)
            && Solid(a) && p == g.bias + Pages(a)
  {
    var n := TagFree(m, p + need, f.pages - need, f.dirty);
    TagFreeTags(m, p + need, f.pages - need, f.dirty);
    TilesFrame(m, n, p + f.pages, b, g.npages);
    TilesBounds(m, g.bias, a, p);
  }

  lemma SplitLists(rs: seq<Run>, k: nat, need: nat, kind: Kind)
    requires k < |rs| && rs[k].Free() && 0 < need < rs[k].pages
    ensures var f, a, b := rs[k], rs[..k], rs[k + 1..];
            && rs[k := Run(f.pages, LargeRun, f.dirty)] == a + [Run(f.pages, LargeRun, f.dirty)] + b
            && SplitAt(rs, k, need, kind) == a + [Run(need, kind, f.dirty)] + [Run(f.pages - need, Unused, f.dirty)] + b
  {}

  lemma WholePlan(g: Layout, rs: seq<Run>, k: nat, kind: Kind, w: seq<Run>)
    requires k < |rs| && rs[k].Free() && kind != Unused && w == rs[k := Run(rs[k].pages, LargeRun, rs[k].dirty)]
    ensures Alike(w, SplitAt(rs, k, rs[k].pages, kind), g.bias)
  {
    var f := rs[k];
    ReplaceAllocated(rs[..k], Run(f.pages, LargeRun, f.dirty), Run(f.pages, kind, f.dirty), rs[k + 1..], g.bias);
    assert w == rs[..k] + [Run(f.pages, LargeRun, f.dirty)] + rs[k + 1..];
    assert SplitAt(rs, k, f.pages, kind) == rs[..k] + [Run(f.pages, kind, f.dirty)] + rs[k + 1..];
  }

  /** All that a split needs to know. */
  lemma SplitPlan(g: Layout, s: State, c: nat, p: nat, k: nat, need: nat, kind: Kind)
    returns (v: seq<Run>, w: seq<Run>, u: seq<Run>)
    requires g.bias < g.npages && MapOk(g, s, c) && At(g, s.runs[c], k, p) && s.runs[c][k].Free()
    requires 0 < need <= s.runs[c][k].pages && kind != Unused
    ensures v == s.runs[c] && u == SplitAt(v, k, need, kind) && k < |v|
    ensures var m, f := s.chunks[c].pagemap, v[k];
            && g.bias <= p && p + f.pages <= g.npages && Tags(m, p, f)
            && Plus(g, m, p, f.pages, true, true, v, w)
            && if need == f.pages then Alike(w, u, g.bias) else
                 Plus(g, TagFree(m, p + need, f.pages - need, f.dirty), p + need, f.pages - need, false, true, u, w)
  {
    v, u := s.runs[c], SplitAt(s.runs[c], k, need, kind);
    w := TakePlan(g, s, c, p, k);
    if need < v[k].pages {
      TailPlan(g, s, c, p, k, need, kind, w);
    } else {
      WholePlan(g, v, k, kind, w);
    }
  }

  /** Between the two maps of a split, and the last. */
  ghost predicate SplitMaps(m0: seq<Page>, m1: seq<Page>, m2: seq<Page>, p: nat, f: Run, need: nat, kind: Kind)
    requires 0 < need <= f.pages && p + f.pages <= |m0|
  {
    && m1 == (if need < f.pages then TagFree(m0, p + need, f.pages - need, f.dirty) else m0)
    && Outside(m1, m2, p, p + need) && Tags(m2, p, Run(need, kind, f.dirty))
  }

  lemma SplitMapsApart(m0: seq<Page>, m1: seq<Page>, m2: seq<Page>, p: nat, f: Run, need: nat, kind: Kind)
    requires 0 < need <= f.pages && p + f.pages <= |m0| && SplitMaps(m0, m1, m2, p, f, need, kind)
    ensures Outside(m0, m1, p + need, p + f.pages)
            && (need < f.pages ==> Tags(m1, p + need, Run(f.pages - need, Unused, f.dirty)))
  {}

  lemma SplitMapAt(g: Layout, s: State, t: State, c: nat, p: nat, k: nat, need: nat, kind: Kind, m1: seq<Page>)
    requires MapOk(g, s, c) && At(g, s.runs[c], k, p) && s.runs[c][k].Free() && 0 < need <= s.runs[c][k].pages
             && Fits(g, need, kind)
    requires c in t.chunks && c in t.runs && t.runs[c] == SplitAt(s.runs[c], k, need, kind)
    requires p + s.runs[c][k].pages <= |s.chunks[c].pagemap|
    requires SplitMaps(s.chunks[c].pagemap, m1, t.chunks[c].pagemap, p, s.runs[c][k], need, kind)
    ensures MapOk(g, t, c)
  {
    var rs := s.runs[c];
    assert rs == rs[..k] + [rs[k]] + rs[k + 1..];
    SplitMapsApart(s.chunks[c].pagemap, m1, t.chunks[c].pagemap, p, rs[k], need, kind);
    SplitMapOk(g, s, t, c, p, s.chunks[c].pagemap, m1, rs[..k], rs[k], need, kind, rs[k + 1..]);
  }

  lemma SplitActive(rs: seq<Run>, k: nat, need: nat, kind: Kind)
    requires k < |rs| && rs[k].Free() && kind != Unused && need <= rs[k].pages
    ensures Active(SplitAt(rs, k, need, kind)) == Active(rs) + need
  {
    assert rs == rs[..k] + [rs[k]] + rs[k + 1..];
    ActiveSplit(rs[..k], rs[k], need, kind, rs[k + 1..]);
  }

  /** What arena_run_split does to the fields. */
  ghost predicate SplitStep(g: Layout, s: State, t: State, c: nat, p: nat, f: Run, need: nat, kind: Kind, u: seq<Run>)
  {
    && c in s.chunks && c in t.chunks && 0 < need <= f.pages && p + f.pages <= |s.chunks[c].pagemap|
    && t.chunks.Keys == s.chunks.Keys && t.runs == s.runs[c := u] && t.spare == s.spare
    && Ledger(t) && Beyond(s, t, c) && Books(g, t, c, u) && t.nactive == s.nactive + need
    && var m0 := s.chunks[c].pagemap;
    var m := if need < f.pages then TagFree(m0, p + need, f.pages - need, f.dirty) else m0;
    SplitMaps(m0, m, t.chunks[c].pagemap, p, f, need, kind)
  }

  lemma SplitStepped(g: Layout, s: State, t: State, c: nat, p: nat, f: Run, need: nat, kind: Kind, u: seq<Run>,
                     m: seq<Page>)
    requires c in s.chunks && c in t.chunks && 0 < need <= f.pages && p + f.pages <= |s.chunks[c].pagemap|
    requires t.chunks.Keys == s.chunks.Keys && t.runs == s.runs[c := u] && t.spare == s.spare
    requires Ledger(t) && Beyond(s, t, c) && Books(g, t, c, u) && t.nactive == s.nactive + need
    requires m == if need < f.pages then TagFree(s.chunks[c].pagemap, p + need, f.pages - need, f.dirty)
               else s.chunks[c].pagemap
    requires Outside(m, t.chunks[c].pagemap, p, p + need) && Tags(t.chunks[c].pagemap, p, Run(need, kind, f.dirty))
    ensures SplitStep(g, s, t, c, p, f, need, kind, u)
  {}

  lemma SplitMapEnd(g: Layout, s: State, t: State, c: nat, p: nat, k: nat, need: nat, kind: Kind)
    requires MapOk(g, s, c) && At(g, s.runs[c], k, p) && s.runs[c][k].Free() && Fits(g, need, kind)
    requires SplitStep(g, s, t, c, p, s.runs[c][k], need, kind, SplitAt(s.runs[c], k, need, kind))
    ensures MapOk(g, t, c)
  {
    var f, m0 := s.runs[c][k], s.chunks[c].pagemap;
    var m1 := if need < f.pages then TagFree(m0, p + need, f.pages - need, f.dirty) else m0;
    SplitMapAt(g, s, t, c, p, k, need, kind, m1);
  }

  lemma SplitEnd(g: Layout, s: State, t: State, c: nat, p: nat, k: nat, need: nat, kind: Kind, u: seq<Run>)
    requires Ok(g, s) && c in s.runs && s.spare != Some(c) && k < |s.runs[c]| && u == SplitAt(s.runs[c], k, need, kind)
    requires s.runs[c][k].Free() && kind != Unused && SplitStep(g, s, t, c, p, s.runs[c][k], need, kind, u)
             && MapOk(g, t, c)
    ensures Ok(g, t)
  {
    SplitActive(s.runs[c], k, need, kind);
    Restored(g, s, t, c, u);
  }

  // ------------------------------------------------------------------- frees

  /** What the map shows after a hole. */
  lemma ShowsNext(g: Layout, m: seq<Page>, v: seq<Run>, k: nat, p: nat, n: nat, dirty: bool)
    requires Hole(m, g.bias, g.npages, v, k, p, n, dirty)
    ensures p + n <= g.npages
    ensures (p + n < g.npages && m[p + n].Unallocated? && m[p + n].dirty == dirty) <==> NextMerges(v, k, dirty)
    ensures NextMerges(v, k, dirty) ==> m[p + n].size == v[k + 1].pages && m[p + n + v[k + 1].pages - 1] == m[p + n]
  {
    TilesBounds(m, p + n, v[k + 1..], g.npages);
  }

  /** And before it. */
  lemma ShowsPrev(g: Layout, m: seq<Page>, v: seq<Run>, k: nat, p: nat, n: nat, dirty: bool)
    requires Hole(m, g.bias, g.npages, v, k, p, n, dirty)
    ensures g.bias <= p && p + n <= g.npages
    ensures (p > g.bias && m[p - 1].Unallocated? && m[p - 1].dirty == dirty) <==> PrevMerges(v, k, dirty)
    ensures PrevMerges(v, k, dirty) ==> m[p - 1].size == v[k - 1].pages <= p - g.bias
  {
    TilesBounds(m, g.bias, v[..k], p);
    if k > 0 { TilesLast(m, g.bias, v[..k], p); }
  }

  lemma ForwardPlus(g: Layout, m: seq<Page>, v: seq<Run>, k: nat, p: nat, n: nat, dirty: bool)
    requires g.bias < g.npages && Hole(m, g.bias, g.npages, v, k, p, n, dirty) && NextMerges(v, k, dirty)
    ensures var r := v[k + 1];
            0 < r.pages && g.bias <= p && p + n + r.pages <= g.npages
              && Plus(g, m, p + n, r.pages, false, true, v, MergeNext(v, k, dirty))
  {
    var r, a, b := v[k + 1], v[..k], v[k + 2..];
    assert v[k + 1..] == [r] + b;
    CoalescedConcat([r], b);
    TilesBounds(m, g.bias, a, p);
    PlusTail(g, m, a, v[k], r, p + n, Run(n + r.pages, LargeRun, dirty), b);
    assert v == a + [v[k]] + [r] + b;
  }

  lemma BackwardPlus(g: Layout, m: seq<Page>, v: seq<Run>, k: nat, p: nat, n: nat, dirty: bool)
    requires g.bias < g.npages && Hole(m, g.bias, g.npages, v, k, p, n, dirty) && PrevMerges(v, k, dirty)
    ensures var r := v[k - 1];
            0 < r.pages && g.bias + r.pages <= p && p <= g.npages
            && Plus(g, m, p - r.pages, r.pages, true, false, v, MergePrev(v, k, dirty))
  {
    var r, a, b := v[k - 1], v[..k - 1], v[k + 1..];
    assert v[..k] == a + [r];
    BackwardFacts(m, g.bias, a, p, r);
    CoalescedConcat(a, [r]);
    TilesBounds(m, p + n, b, g.npages);
    PlusHead(g, m, a, r, p - r.pages, v[k], Run(n + r.pages, LargeRun, dirty), b);
    assert v == a + [r] + [v[k]] + b;
  }

  lemma FinalPlus(g: Layout, m: seq<Page>, v: seq<Run>, k: nat, p: nat, n: nat, dirty: bool)
    requires g.bias < g.npages && Hole(m, g.bias, g.npages, v, k, p, n, dirty) && !NextMerges(v, k, dirty)
             && !PrevMerges(v, k, dirty)
    ensures g.bias <= p && p + n <= g.npages && Plus(g, m, p, n, true, true, v[k := Run(n, Unused, dirty)], v)
  {
    var f, a, b := Run(n, Unused, dirty), v[..k], v[k + 1..];
    assert LastFree(a) ==> a[k - 1] == v[k - 1];
    assert FirstFree(b) ==> b[0] == v[k + 1];
    PlusWhole(g, m, a, p, f, v[k], b);
    assert v == a + [v[k]] + b && v[k := f] == a + [f] + b;
  }

  /** One step of coalescing: from the runs v to w, after which n pages at p are
      tagged in the map m. */
  datatype Step = Step(v: seq<Run>, w: seq<Run>, p: nat, n: nat, m: seq<Page>)

  ghost predicate ForwardStep(g: Layout, m: seq<Page>, p: nat, n: nat, dirty: bool, x: Step)
  {
    && g.bias < g.npages == |m| && g.bias <= p && 0 < n && p + n <= g.npages && x.p == p
    && if p + n < g.npages && m[p + n].Unallocated? && m[p + n].dirty == dirty then
         var nr := m[p + n].size;
         && 0 < nr && p + n + nr <= g.npages && m[p + n + nr - 1] == m[p + n]
         && Plus(g, m, p + n, nr, false, true, x.v, x.w) && x.n == n + nr && x.m == TagFree(m, p, n + nr, dirty)
       else x.w == x.v && x.n == n && x.m == m
  }

  ghost predicate BackwardStep(g: Layout, m: seq<Page>, p: nat, n: nat, dirty: bool, x: Step)
  {
    && g.bias < g.npages == |m| && g.bias <= p && 0 < n && p + n <= g.npages
    && if p > g.bias && m[p - 1].Unallocated? && m[p - 1].dirty == dirty then
         var np := m[p - 1].size;
         && 0 < np && g.bias + np <= p && m[p - np].Unallocated? && m[p - np].size == np && m[p - np].dirty == dirty
         && Plus(g, m, p - np, np, true, false, x.v, x.w) && x.p == p - np && x.n == n + np
            && x.m == TagFree(m, p - np, n + np, dirty)
       else x.w == x.v && x.p == p && x.n == n && x.m == m
  }

  lemma ForwardPlan(g: Layout, m: seq<Page>, v: seq<Run>, k: nat, p: nat, n: nat, dirty: bool) returns (x: Step)
    requires g.bias < g.npages && Hole(m, g.bias, g.npages, v, k, p, n, dirty)
    ensures x.v == v && x.w == (if NextMerges(v, k, dirty) then MergeNext(v, k, dirty) else v)
    ensures ForwardStep(g, m, p, n, dirty, x) && Hole(x.m, g.bias, g.npages, x.w, k, p, x.n, dirty)
  {
    ShowsNext(g, m, v, k, p, n, dirty);
    if NextMerges(v, k, dirty) {
      x := ForwardMerge(g, m, v, k, p, n, dirty);
    } else {
      assert g.bias <= p by { TilesBounds(m, g.bias, v[..k], p); }
      x := Step(v, v, p, n, m);
    }
  }

  lemma ForwardMerge(g: Layout, m: seq<Page>, v: seq<Run>, k: nat, p: nat, n: nat, dirty: bool) returns (x: Step)
    requires g.bias < g.npages && Hole(m, g.bias, g.npages, v, k, p, n, dirty) && NextMerges(v, k, dirty)
    ensures x.v == v && x.w == MergeNext(v, k, dirty)
    ensures ForwardStep(g, m, p, n, dirty, x) && Hole(x.m, g.bias, g.npages, x.w, k, p, x.n, dirty)
  {
    var nr := v[k + 1].pages;
    ShowsNext(g, m, v, k, p, n, dirty);
    ForwardPlus(g, m, v, k, p, n, dirty);
    ForwardHole(m, g.bias, g.npages, v, k, p, n, dirty);
    x := Step(v, MergeNext(v, k, dirty), p, n + nr, TagFree(m, p, n + nr, dirty));
  }

  lemma BackwardPlan(g: Layout, m: seq<Page>, v: seq<Run>, k: nat, p: nat, n: nat, dirty: bool) returns (x: Step)
    requires g.bias < g.npages && Hole(m, g.bias, g.npages, v, k, p, n, dirty)
    ensures x.v == v && x.w == (if PrevMerges(v, k, dirty) then MergePrev(v, k, dirty) else v)
    ensures BackwardStep(g, m, p, n, dirty, x)
    ensures Hole(x.m, g.bias, g.npages, x.w, if PrevMerges(v, k, dirty) then k - 1 else k, x.p, x.n, dirty)
  {
    ShowsPrev(g, m, v, k, p, n, dirty);
    x := Step(v, v, p, n, m);
    if PrevMerges(v, k, dirty) {
      var np := v[k - 1].pages;
      BackwardPlus(g, m, v, k, p, n, dirty);
      BackwardHole(m, g.bias, g.npages, v, k, p, n, dirty);
      x := Step(v, MergePrev(v, k, dirty), p - np, n + np, TagFree(m, p - np, n + np, dirty));
    }
  }

  /** Where arena_run_dalloc begins. */
  lemma HoleAt(g: Layout, m: seq<Page>, rs: seq<Run>, k: nat, p: nat, dirty: bool)
    requires g.bias < g.npages == |m| && Tiles(m, g.bias, rs, g.npages) && Coalesced(rs) && At(g, rs, k, p)
             && !rs[k].Free()
    ensures 0 < rs[k].pages && p + rs[k].pages <= g.npages
    ensures Hole(TagFree(m, p, rs[k].pages, dirty), g.bias, g.npages, rs, k, p, rs[k].pages, dirty)
  {
    var a, x, b := rs[..k], rs[k], rs[k + 1..];
    Located(g, m, rs, k, p);
    assert Coalesced(a) && Coalesced(b) by {
      assert rs == a + [x] + b;
      CoalescedAround(a, x, b);
    }
    Retagged(m, g.bias, g.npages, a, p, x.pages, dirty, b);
  }

  /** The last step of arena_run_dalloc. */
  ghost predicate FillStep(g: Layout, x: Step, u: seq<Run>)
  {
    && g.bias < g.npages == |x.m| && g.bias <= x.p && 0 < x.n && x.p + x.n <= g.npages
    && Plus(g, x.m, x.p, x.n, true, true, u, x.w)
  }

  /** The chunk consists of one unallocated run. */
  ghost predicate Unused1(g: Layout, rs: seq<Run>)
  {
    |rs| == 1 && rs[0].Free() && rs[0].pages + g.bias == g.npages
  }

  /** arena.c:1079: the whole chunk is unallocated. */
  lemma WholeFree(g: Layout, m: seq<Page>, u: seq<Run>, i: nat)
    requires g.bias < g.npages && Tiles(m, g.bias, u, g.npages) && i < |u| && u[i].Free()
    ensures u[i].pages == g.npages - g.bias <==> Unused1(g, u)
  {
    TilesBounds(m, g.bias, u, g.npages);
    LoneRun(u, i);
    if |u| == 1 { assert u[1..] == []; }
  }

  lemma FillPlan(g: Layout, x: Step, k: nat, dirty: bool) returns (u: seq<Run>)
    requires g.bias < g.npages && Hole(x.m, g.bias, g.npages, x.w, k, x.p, x.n, dirty)
    requires !NextMerges(x.w, k, dirty) && !PrevMerges(x.w, k, dirty)
    ensures u == x.w[k := Run(x.n, Unused, dirty)] && FillStep(g, x, u) && (x.n == g.npages - g.bias <==> Unused1(g, u))
    ensures Tiles(x.m, g.bias, u, g.npages) && Coalesced(u)
  {
    u := x.w[k := Run(x.n, Unused, dirty)];
    FinalPlus(g, x.m, x.w, k, x.p, x.n, dirty);
    Filled(x.m, g.bias, g.npages, x.w, k, x.p, x.n, dirty);
    WholeFree(g, x.m, u, k);
  }

  /** All steps of arena_run_dalloc. */
  lemma FreePlan(g: Layout, m: seq<Page>, rs: seq<Run>, k: nat, p: nat, dirty: bool)
    returns (x: Step, y: Step, u: seq<Run>)
    requires g.bias < g.npages == |m| && Tiles(m, g.bias, rs, g.npages) && Coalesced(rs) && At(g, rs, k, p)
             && !rs[k].Free()
    ensures 0 < rs[k].pages && p + rs[k].pages <= g.npages
    ensures x.v == rs && ForwardStep(g, TagFree(m, p, rs[k].pages, dirty), p, rs[k].pages, dirty, x)
    ensures y.v == x.w && BackwardStep(g, x.m, p, x.n, dirty, y) && FillStep(g, y, u)
    ensures u == FreeAt(rs, k, dirty) && Tiles(y.m, g.bias, u, g.npages) && Coalesced(u)
    ensures |y.m| == g.npages && (y.n == g.npages - g.bias <==> Unused1(g, u))
  {
    HoleAt(g, m, rs, k, p, dirty);
    x := ForwardPlan(g, TagFree(m, p, rs[k].pages, dirty), rs, k, p, rs[k].pages, dirty);
    if NextMerges(rs, k, dirty) { ForwardOnce(rs, k, dirty); }
    y := BackwardPlan(g, x.m, x.w, k, p, x.n, dirty);
    if PrevMerges(x.w, k, dirty) { BackwardOnce(x.w, k, dirty); }
    FreeSteps(rs, k, dirty);
    u := FillPlan(g, y, if PrevMerges(x.w, k, dirty) then k - 1 else k, dirty);
  }

  /** What arena_run_dalloc does to the fields. */
  ghost predicate FreeStep(g: Layout, s: State, t: State, c: nat, n: nat, m: seq<Page>, u: seq<Run>)
  {
    && c in s.chunks && c in t.chunks && t.chunks[c].pagemap == m
    && t.chunks.Keys == s.chunks.Keys && t.runs == s.runs[c := u] && t.spare == s.spare
    && Ledger(t) && Beyond(s, t, c) && Books(g, t, c, u) && t.nactive + n == s.nactive
  }

  lemma FreeMapOk(g: Layout, s: State, t: State, c: nat, k: nat, dirty: bool)
    requires MapOk(g, s, c) && k < |s.runs[c]|
    requires c in t.chunks && c in t.runs && |t.chunks[c].pagemap| == g.npages
             && t.runs[c] == FreeAt(s.runs[c], k, dirty)
    requires Tiles(t.chunks[c].pagemap, g.bias, t.runs[c], g.npages) && Coalesced(t.runs[c])
    ensures MapOk(g, t, c)
  {
    var rs, u := s.runs[c], t.runs[c];
    forall i | 0 <= i < |u| && u[i].kind.SmallRun?
      ensures u[i].kind.binind < |g.bins| && u[i].pages == g.bins[u[i].kind.binind]
    {
      FreeKeeps(rs, k, dirty, i);
    }
  }

  lemma FreeEnd(g: Layout, s: State, t: State, c: nat, k: nat, dirty: bool, m: seq<Page>, u: seq<Run>)
    requires Ok(g, s) && c in s.runs && s.spare != Some(c) && k < |s.runs[c]| && u == FreeAt(s.runs[c], k, dirty)
    requires !s.runs[c][k].Free() && FreeStep(g, s, t, c, s.runs[c][k].pages, m, u) && MapOk(g, t, c)
    ensures Ok(g, t)
  {
    FreeActive(s.runs[c], k, dirty);
    Restored(g, s, t, c, u);
  }

  /** An allocated run is counted in nactive. */
  lemma ActivePages(g: Layout, s: State, c: nat, k: nat)
    requires Ok(g, s) && c in s.runs && k < |s.runs[c]| && !s.runs[c][k].Free()
    ensures s.runs[c][k].pages <= s.nactive
  {
    SumActiveRemove(s.runs, c);
    FreeActive(s.runs[c], k, false);
  }

  // ------------------------------------------------------------------ chunks

  lemma WholeChunk(g: Layout, m: seq<Page>, rs: seq<Run>)
    requires g.bias < g.npages == |m| && Tiles(m, g.bias, rs, g.npages) && |rs| == 1 && rs[0].Free()
    ensures Unused1(g, rs) && Tags(m, g.bias, rs[0]) && Plus(g, m, g.bias, g.npages - g.bias, false, false, rs, [])
    ensures Active(rs) == 0
  {
    var f := rs[0];
    assert rs == [] + [f] + [] && rs[1..] == [];
    Around([], f, []);
    FreesAround([], f, [], g.bias);
    assert Frees(rs, g.bias) == {g.bias};
  }

  /** t is s after the runs of chunk c, which became unallocated, were withdrawn. */
  lemma DeallocChunks(g: Layout, s: State, t: State, u: State, c: nat)
    requires s.chunks.Keys == s.runs.Keys && ChunksOk(g, s) && c in s.chunks && s.spare != Some(c)
    requires t.chunks.Keys == s.chunks.Keys && t.runs == s.runs && Beyond(s, t, c) && MapOk(g, t, c)
             && Books(g, t, c, [])
    requires u == t.(spare := Some(c), chunks := if s.spare.Some? then t.chunks - {s.spare.value} else t.chunks,
                     runs := if s.spare.Some? then t.runs - {s.spare.value} else t.runs)
    ensures ChunksOk(g, u)
  {
    forall d | d in u.chunks ensures ChunkOk(g, u, d) {
      if d != c { assert ChunkOk(g, s, d); }
    }
  }

  lemma DropDirty(cs: map<nat, Chunk>, c: nat)
    requires c in cs && cs[c].ndirty == 0
    ensures SumDirty(cs - {c}) == SumDirty(cs)
  {
    SumDirtyRemove(cs, c);
  }

  lemma DropActive(rs: map<nat, seq<Run>>, c: nat)
    requires c in rs && Active(rs[c]) == 0
    ensures SumActive(rs - {c}) == SumActive(rs)
  {
    SumActiveRemove(rs, c);
  }

  /** The old spare is not in any account. */
  lemma DropSpare(g: Layout, s: State, t: State, c: nat)
    requires Ok(g, s) && s.spare.Some? && c != s.spare.value && Beyond(s, t, c) && Ledger(t)
    requires t.chunks.Keys == s.chunks.Keys && t.runs == s.runs && t.nactive == s.nactive
    ensures var d := s.spare.value;
            && Ledger(t.(chunks := t.chunks - {d}, runs := t.runs - {d})) && t.nactive == SumActive(t.runs - {d})
  {
    var d := s.spare.value;
    assert ChunkOk(g, s, d);
    WholeChunk(g, s.chunks[d].pagemap, s.runs[d]);
    DropDirty(t.chunks, d);
    DropActive(t.runs, d);
  }

  lemma DeallocEnd(g: Layout, s: State, t: State, u: State, c: nat)
    requires Ok(g, s) && c in s.chunks && s.spare != Some(c) && Unused1(g, s.runs[c])
    requires t.chunks.Keys == s.chunks.Keys && t.runs == s.runs && t.nactive == s.nactive && Beyond(s, t, c)
             && Ledger(t)
    requires MapOk(g, t, c) && Books(g, t, c, [])
    requires u == t.(spare := Some(c), chunks := if s.spare.Some? then t.chunks - {s.spare.value} else t.chunks,
                     runs := if s.spare.Some? then t.runs - {s.spare.value} else t.runs)
    ensures Ok(g, u)
  {
    DeallocChunks(g, s, t, u, c);
    if s.spare.Some? { DropSpare(g, s, t, c); }
  }

  ghost predicate SizeTags(g: Layout, m: seq<Page>, p: nat, r: Run)
  {
    && Tags(m, p, r) && !r.Free() && (r.kind.SmallRun? ==> r.kind.binind < |g.bins| && r.pages == g.bins[r.kind.binind])
  }

  lemma RunTags(g: Layout, s: State, c: nat, k: nat, p: nat)
    requires Ok(g, s) && c in s.chunks && At(g, s.runs[c], k, p) && !s.runs[c][k].Free()
    ensures SizeTags(g, s.chunks[c].pagemap, p, s.runs[c][k])
  {
    assert ChunkOk(g, s, c);
    Located(g, s.chunks[c].pagemap, s.runs[c], k, p);
  }

  /** The map of a new chunk: arena.c:547-578. */
  function NewMap(g: Layout): seq<Page>
    requires g.bias < g.npages
  {
    seq(g.npages, _ => Unallocated(g.npages - g.bias, false))
  }

  function NewRuns(g: Layout): seq<Run>
    requires g.bias < g.npages
  {
    [Run(g.npages - g.bias, Unused, false)]
  }

  /** t is s with a new chunk. */
  lemma NewChunkOk(g: Layout, s: State, t: State, c: nat)
    requires g.bias < g.npages && Ledger(s) && c !in s.chunks
    requires t == s.(chunks := s.chunks[c := Chunk(NewMap(g), 0, 0, 0)], runs := s.runs[c := NewRuns(g)])
    ensures Ledger(t) && MapOk(g, t, c) && Books(g, t, c, [])
  {
    SumDirtyUpdate(s.chunks, c, t.chunks[c]);
    assert s.chunks - {c} == s.chunks;
    assert NewRuns(g)[1..] == [];
  }

  lemma AllocChunks(g: Layout, s: State, u: State, c: nat, rs: seq<Run>)
    requires s.chunks.Keys == s.runs.Keys && ChunksOk(g, s) && (s.spare == None || s.spare == Some(c))
    requires u.chunks.Keys == s.chunks.Keys + {c} && u.runs == s.runs[c := rs] && u.spare == None && Beyond(s, u, c)
    requires MapOk(g, u, c) && Books(g, u, c, rs)
    ensures ChunksOk(g, u)
  {
    forall d | d in u.chunks ensures ChunkOk(g, u, d) {
      if d != c { assert ChunkOk(g, s, d); }
    }
  }

  lemma AllocActive(rs: map<nat, seq<Run>>, c: nat, x: seq<Run>)
    requires (c in rs ==> Active(rs[c]) == 0) && Active(x) == 0
    ensures SumActive(rs[c := x]) == SumActive(rs)
  {
    SumActiveUpdate(rs, c, x);
    if c in rs { SumActiveRemove(rs, c); } else { assert rs - {c} == rs; }
  }

  lemma AllocEnd(g: Layout, s: State, u: State, c: nat, rs: seq<Run>)
    requires Ok(g, s) && (s.spare == None || s.spare == Some(c)) && (c in s.chunks ==> s.spare == Some(c))
             && Unused1(g, rs)
    requires u.chunks.Keys == s.chunks.Keys + {c} && u.runs == s.runs[c := rs] && u.spare == None && Beyond(s, u, c)
    requires u.nactive == s.nactive && Ledger(u) && MapOk(g, u, c) && Books(g, u, c, rs)
    ensures Ok(g, u)
  {
    AllocChunks(g, s, u, c, rs);
    LoneActive(rs);
    if c in s.runs { LoneActive(s.runs[c]); }
    AllocActive(s.runs, c, rs);
  }

  lemma ReuseEnd(g: Layout, s: State, u: State, c: nat)
    requires Ok(g, s) && s.spare == Some(c) && Unused1(g, s.runs[c])
    requires u.chunks.Keys == s.chunks.Keys && u.runs == s.runs && u.spare == None && Beyond(s, u, c)
    requires u.nactive == s.nactive && Ledger(u) && MapOk(g, u, c) && Books(g, u, c, s.runs[c])
    ensures Ok(g, u)
  {
    assert s.runs == s.runs[c := s.runs[c]] && s.chunks.Keys == s.chunks.Keys + {c};
    AllocEnd(g, s, u, c, s.runs[c]);
  }

  lemma LoneActive(rs: seq<Run>)
    requires |rs| == 1 && rs[0].Free()
    ensures Active(rs) == 0
  {
    assert rs[1..] == [];
  }

  /** The spare is one unallocated run that is in no account. */
  lemma SpareReady(g: Layout, s: State)
    requires Ok(g, s) && s.spare.Some?
    ensures var c, t := s.spare.value, s.(spare := None);
            Ledger(t) && MapOk(g, t, c) && Books(g, t, c, []) && Unused1(g, s.runs[c])
  {
    assert ChunkOk(g, s, s.spare.value);
    WholeChunk(g, s.chunks[s.spare.value].pagemap, s.runs[s.spare.value]);
  }

  // ------------------------------------------------------------------ search

  /** arena_avail_comp, arena.c:107-132: by size, then by address. */
  predicate NotAfter(n: nat, a: (nat, nat), m: nat, b: (nat, nat))
  {
    n < m || (n == m && (a.0 < b.0 || (a.0 == b.0 && a.1 <= b.1)))
  }

  predicate Least(sizes: map<(nat, nat), nat>, e: (nat, nat), need: nat)
  {
    e in sizes && sizes[e] >= need && forall f :: f in sizes && sizes[f] >= need ==> NotAfter(sizes[e], e, sizes[f], f)
  }

  lemma {:induction false} LeastExists(sizes: map<(nat, nat), nat>, need: nat)
    requires exists e :: e in sizes && sizes[e] >= need
    ensures exists e :: e in sizes && Least(sizes, e, need)
  {
    var e :| e in sizes && sizes[e] >= need;
    var rest := sizes - {e};
    assert forall h :: h in sizes && h != e ==> h in rest && rest[h] == sizes[h];
    if exists f :: f in rest && rest[f] >= need {
      LeastExists(rest, need);
      var f :| f in rest && Least(rest, f, need);
      if NotAfter(sizes[e], e, sizes[f], f) {
        assert forall h :: h in rest && rest[h] >= need ==> NotAfter(sizes[e], e, rest[h], h);
        assert Least(sizes, e, need);
      } else {
        assert Least(sizes, f, need);
      }
    } else {
      assert Least(sizes, e, need);
    }
  }

  /** Run k of chunk c begins at page p and can be allocated. */
  ghost predicate FreeRun(g: Layout, s: State, c: nat, k: nat, p: nat)
  {
    c in s.runs && s.spare != Some(c) && At(g, s.runs[c], k, p) && s.runs[c][k].Free()
  }

  /** Of the runs that are large enough, the smallest; of those, the lowest. */
  ghost predicate LowestBestFit(g: Layout, s: State, need: nat, c: nat, k: nat, p: nat)
  {
    && FreeRun(g, s, c, k, p) && s.runs[c][k].pages >= need
    && forall d: nat, j: nat, q: nat :: FreeRun(g, s, d, j, q) && s.runs[d][j].pages >= need ==>
      NotAfter(s.runs[c][k].pages, (c, p), s.runs[d][j].pages, (d, q))
  }

  ghost predicate NothingFits(g: Layout, s: State, need: nat)
  {
    forall d: nat, j: nat, q: nat :: FreeRun(g, s, d, j, q) ==> s.runs[d][j].pages < need
  }

  /** An element of runs_avail stands for an unallocated run. */
  lemma AvailRun(g: Layout, s: State, c: nat, p: nat) returns (k: nat)
    requires Ok(g, s) && (c, p) in s.avail
    ensures FreeRun(g, s, c, k, p) && c in s.chunks && p < |s.chunks[c].pagemap|
    ensures s.chunks[c].pagemap[p] == Unallocated(s.runs[c][k].pages, s.runs[c][k].dirty)
  {
    assert ChunkOk(g, s, c);
    k := FreesIndex(s.runs[c], g.bias, p);
    Located(g, s.chunks[c].pagemap, s.runs[c], k, p);
  }

  lemma RunAvail(g: Layout, s: State, c: nat, k: nat, p: nat)
    requires Ok(g, s) && FreeRun(g, s, c, k, p)
    ensures c in s.chunks && p < |s.chunks[c].pagemap| && (c, p) in s.avail
    ensures s.chunks[c].pagemap[p] == Unallocated(s.runs[c][k].pages, s.runs[c][k].dirty)
  {
    Mapped(g, s, c);
    Located(g, s.chunks[c].pagemap, s.runs[c], k, p);
    Booked(g, s, c);
    RunListed(g, s, c, k, p);
  }

  lemma RunListed(g: Layout, s: State, c: nat, k: nat, p: nat)
    requires c in s.runs && Books(g, s, c, s.runs[c]) && At(g, s.runs[c], k, p) && s.runs[c][k].Free()
    ensures (c, p) in s.avail
  {
    FreesHas(s.runs[c], g.bias, k);
  }

  ghost predicate SizesOk(s: State, sizes: map<(nat, nat), nat>)
  {
    && sizes.Keys == s.avail
    && forall c, p :: (c, p) in s.avail ==>
        && c in s.chunks && p < |s.chunks[c].pagemap| && s.chunks[c].pagemap[p].Unallocated?
        && sizes[(c, p)] == s.chunks[c].pagemap[p].size
  }

  lemma LeastFits(g: Layout, s: State, sizes: map<(nat, nat), nat>, c: nat, p: nat, need: nat) returns (k: nat)
    requires Ok(g, s) && SizesOk(s, sizes) && Least(sizes, (c, p), need)
    ensures LowestBestFit(g, s, need, c, k, p)
  {
    k := AvailRun(g, s, c, p);
    forall d: nat, j: nat, q: nat | FreeRun(g, s, d, j, q) && s.runs[d][j].pages >= need
      ensures NotAfter(s.runs[c][k].pages, (c, p), s.runs[d][j].pages, (d, q))
    {
      RunAvail(g, s, d, j, q);
      assert (d, q) in sizes;
    }
  }

  lemma NoneFits(g: Layout, s: State, sizes: map<(nat, nat), nat>, need: nat)
    requires Ok(g, s) && SizesOk(s, sizes) && forall e :: e in sizes ==> sizes[e] < need
    ensures NothingFits(g, s, need)
  {
    forall d: nat, j: nat, q: nat | FreeRun(g, s, d, j, q) ensures s.runs[d][j].pages < need {
      RunAvail(g, s, d, j, q);
      assert (d, q) in sizes;
    }
  }

  // ---------------------------------------------------------------- reshaping

  /** A map and a list of runs that amount to as much as another list. */
  ghost predicate Reshaped(g: Layout, m: seq<Page>, v: seq<Run>, w: seq<Run>)
  {
    |m| == g.npages && Tiles(m, g.bias, w, g.npages) && Coalesced(w) && Sized(g, w) && Alike(v, w, g.bias)
  }

  lemma CutPlan(g: Layout, s: State, c: nat, k: nat, p: nat, head: nat)
    requires MapOk(g, s, c) && At(g, s.runs[c], k, p) && s.runs[c][k].kind == LargeRun && 0 < head < s.runs[c][k].pages
    ensures var r, m := s.runs[c][k], s.chunks[c].pagemap;
            && p + r.pages <= |m| && Tags(m, p, r)
            && Reshaped(g, TagLarge(m, p, head, r.dirty)[p + head := Large(r.pages - head, r.dirty)], s.runs[c],
                        CutAt(s.runs[c], k, head))
  {
    var rs, m := s.runs[c], s.chunks[c].pagemap;
    var r, a, b := rs[k], rs[..k], rs[k + 1..];
    var x, y := Run(head, LargeRun, r.dirty), Run(r.pages - head, LargeRun, r.dirty);
    Located(g, m, rs, k, p);
    CutTiles(m, g.bias, a, p, r, head, b, g.npages);
    assert rs == a + [r] + b;
    CoalescedOver(a, r, b);
    CoalescedTwo(a, x, y, b);
    JoinAllocated(a, x, y, r, b, g.bias);
    assert Sized(g,
                 CutAt(rs, k,
                       head)) by { SizedParts(g, rs, k, [x] + [y], 1); assert CutAt(rs, k,
                                                                                    head) == a + ([x] + [y]) + b; }
  }

  lemma CutStep(g: Layout, s: State, c: nat, k: nat, p: nat, head: nat, w: seq<Run>)
    requires Ok(g, s) && c in s.chunks && At(g, s.runs[c], k, p) && s.runs[c][k].kind == LargeRun
             && 0 < head < s.runs[c][k].pages
    requires w == CutAt(s.runs[c], k, head)
    ensures var n, m := s.runs[c][k].pages, s.chunks[c].pagemap;
            && p + n <= |m|
            && Reshaped(g, TagLarge(m, p, head, m[p].dirty)[p + head := Large(n - head, m[p].dirty)], s.runs[c], w)
  {
    Mapped(g, s, c);
    CutPlan(g, s, c, k, p, head);
  }

  lemma SizedParts(g: Layout, rs: seq<Run>, k: nat, d: seq<Run>, n: nat)
    requires Sized(g, rs) && k + n <= |rs| && forall i :: 0 <= i < |d| ==> !d[i].kind.SmallRun?
    ensures Sized(g, rs[..k] + d + rs[k + n..])
  {
    var w := rs[..k] + d + rs[k + n..];
    forall i | 0 <= i < |w| && w[i].kind.SmallRun?
      ensures w[i].kind.binind < |g.bins| && w[i].pages == g.bins[w[i].kind.binind]
    {
      if i < k { assert w[i] == rs[i]; } else { assert i >= k + |d| && w[i] == rs[i - |d| + n]; }
    }
  }

  lemma JoinPlan(g: Layout, s: State, c: nat, k: nat, p: nat, dirty: bool)
    requires MapOk(g, s, c) && At(g, s.runs[c], k, p) && k + 1 < |s.runs[c]| && !s.runs[c][k].Free()
             && !s.runs[c][k + 1].Free()
    ensures var n, m := s.runs[c][k].pages + s.runs[c][k + 1].pages, s.chunks[c].pagemap;
            && 0 < n && p + n <= |m| && Reshaped(g, TagLarge(m, p, n, dirty), s.runs[c], JoinAt(s.runs[c], k, dirty))
  {
    var rs, m := s.runs[c], s.chunks[c].pagemap;
    var x, y, a, b := rs[k], rs[k + 1], rs[..k], rs[k + 2..];
    var z := Run(x.pages + y.pages, LargeRun, dirty);
    assert rs == a + [x] + [y] + b;
    JoinMap(g, m, a, p, x, y, dirty, b);
    assert Coalesced(a + [z] + b) by {
      CoalescedTwo(a, x, y, b);
      CoalescedOver(a, z, b);
    }
    JoinAllocated(a, x, y, z, b, g.bias);
    SizedParts(g, rs, k, [z], 2);
  }

  lemma JoinMap(g: Layout, m: seq<Page>, a: seq<Run>, p: nat, x: Run, y: Run, dirty: bool, b: seq<Run>)
    requires |m| == g.npages && Tiles(m, g.bias, a + [x] + [y] + b, g.npages) && p == g.bias + Pages(a)
    ensures var n := x.pages + y.pages;
            0 < n && p + n <= |m|
              && Tiles(TagLarge(m, p, n, dirty), g.bias, a + [Run(n, LargeRun, dirty)] + b, g.npages)
  {
    assert a + [x] + [y] + b == a + [x] + ([y] + b);
    assert Tiles(m, g.bias, a, p) && Tags(m, p, x) && Tiles(m, p + x.pages, [y] + b, g.npages) by {
      TilesAround(m, g.bias, a, x, [y] + b, g.npages);
    }
    assert Tags(m, p + x.pages, y) && Tiles(m, p + x.pages + y.pages, b, g.npages) by { assert ([y] + b)[1..] == b; }
    TilesBounds(m, p + x.pages + y.pages, b, g.npages);
    JoinTiles(m, g.bias, a, p, x, y, dirty, b, g.npages);
  }

  lemma ReshapeEnd(g: Layout, s: State, t: State, c: nat, m: seq<Page>, w: seq<Run>)
    requires Ok(g, s) && c in s.runs && s.spare != Some(c) && Reshaped(g, m, s.runs[c], w) && Ledger(t)
    requires t == s.(chunks := s.chunks[c := s.chunks[c].(pagemap := m)], runs := s.runs[c := w], ndirty := t.ndirty,
                     dirtyChunks := t.dirtyChunks)
    ensures Ok(g, t)
  {
    Booked(g, s, c);
    Restored(g, s, t, c, w);
  }

  /** What the map shows after run k. */
  lemma NextRun(g: Layout, s: State, c: nat, k: nat, p: nat)
    requires MapOk(g, s, c) && At(g, s.runs[c], k, p)
    ensures var rs, m := s.runs[c], s.chunks[c].pagemap;
            var q := p + rs[k].pages;
            && q <= |m| && Tags(m, p, rs[k])
               && (q < g.npages && m[q].Unallocated? <==> k + 1 < |rs| && rs[k + 1].Free())
            && (k + 1 < |rs| ==> At(g, rs, k + 1, q))
            && (k + 1 < |rs| && rs[k + 1].Free() ==> m[q].size == rs[k + 1].pages)
  {
    var rs := s.runs[c];
    Located(g, s.chunks[c].pagemap, rs, k, p);
    TilesBounds(s.chunks[c].pagemap, p + rs[k].pages, rs[k + 1..], g.npages);
    NextStart(rs, k);
  }

  /** The lists of runs of arena_run_trim_head and arena_run_trim_tail: cut, then
      freed on one side, j being k or k + 1. */
  lemma TrimPlan(g: Layout, rs: seq<Run>, k: nat, p: nat, head: nat, j: nat, dirty: bool)
    returns (v: seq<Run>, u: seq<Run>)
    requires At(g, rs, k, p) && !rs[k].Free() && 0 < head < rs[k].pages && (j == k || j == k + 1)
    ensures v == CutAt(rs, k, head) && |v| == |rs| + 1 && u == FreeAt(v, j, dirty) && !Unused1(g, u)
    ensures v[j].kind == LargeRun && v[j].dirty == rs[k].dirty && At(g, v, j, if j == k then p else p + head)
    ensures v[j].pages == if j == k then head else rs[k].pages - head
  {
    v, u := CutAt(rs, k, head), FreeAt(CutAt(rs, k, head), j, dirty);
    CutStarts(rs, k, head);
    FreeNotAll(v, j, dirty, if j == k then k + 1 else k);
  }

  /** The dirty flags of two neighbours, read from the map. */
  lemma JoinTags(g: Layout, s: State, c: nat, k: nat, p: nat)
    requires MapOk(g, s, c) && At(g, s.runs[c], k, p) && k + 1 < |s.runs[c]|
    ensures var m, n := s.chunks[c].pagemap, s.runs[c][k].pages + s.runs[c][k + 1].pages;
            && 0 < n && p + n <= |m| && m[p].dirty == s.runs[c][k].dirty && m[p + n - 1].dirty == s.runs[c][k + 1].dirty
  {
    NextRun(g, s, c, k, p);
    NextRun(g, s, c, k + 1, p + s.runs[c][k].pages);
  }

  lemma Follows(g: Layout, s: State, c: nat, k: nat, p: nat)
    requires Ok(g, s) && c in s.chunks && At(g, s.runs[c], k, p)
    ensures var rs, m := s.runs[c], s.chunks[c].pagemap;
            var q := p + rs[k].pages;
            && |m| == g.npages && (q < g.npages && m[q].Unallocated? <==> k + 1 < |rs| && rs[k + 1].Free())
            && (k + 1 < |rs| && rs[k + 1].Free() ==> At(g, rs, k + 1, q) && m[q].size == rs[k + 1].pages > 0)
  {
    Mapped(g, s, c);
    NextRun(g, s, c, k, p);
    if k + 1 < |s.runs[c]| { NextRun(g, s, c, k + 1, p + s.runs[c][k].pages); }
  }

  /** The tags and lists of joining two large runs. */
  lemma JoinReady(g: Layout, s: State, c: nat, k: nat, p: nat, n: nat, u: seq<Run>)
    requires Ok(g, s) && c in s.chunks && At(g, s.runs[c], k, p) && k + 1 < |s.runs[c]|
    requires s.runs[c][k].kind == LargeRun && s.runs[c][k + 1].kind == LargeRun
             && n == s.runs[c][k].pages + s.runs[c][k + 1].pages
    requires u == JoinAt(s.runs[c], k, s.runs[c][k].dirty || s.runs[c][k + 1].dirty)
    ensures var m := s.chunks[c].pagemap;
            0 < n && p + n <= |m| && Reshaped(g, TagLarge(m, p, n, m[p].dirty || m[p + n - 1].dirty), s.runs[c], u)
  {
    Mapped(g, s, c);
    JoinTags(g, s, c, k, p);
    JoinPlan(g, s, c, k, p, s.runs[c][k].dirty || s.runs[c][k + 1].dirty);
  }

  /** The lists of runs of arena_ralloc_large_grow. */
  lemma GrowPlan(g: Layout, rs: seq<Run>, k: nat, p: nat, n: nat) returns (v: seq<Run>, u: seq<Run>)
    requires At(g, rs, k, p) && rs[k].kind == LargeRun && k + 1 < |rs| && rs[k + 1].Free() && 0 < n <= rs[k + 1].pages
    ensures v == SplitAt(rs, k + 1, n, LargeRun) && k + 1 < |v| && At(g, v, k, p) && v[k] == rs[k]
    ensures v[k + 1] == Run(n, LargeRun, rs[k + 1].dirty) && u == JoinAt(v, k, rs[k].dirty || rs[k + 1].dirty)
  {
    v := SplitAt(rs, k + 1, n, LargeRun);
    assert v[..k] == rs[..k];
    u := JoinAt(v, k, rs[k].dirty || rs[k + 1].dirty);
  }

  /** Only the runs of chunk c differ. */
  ghost predicate SameBut(v: map<nat, seq<Run>>, w: map<nat, seq<Run>>, c: nat)
  {
    v.Keys == w.Keys && forall d :: d in v && d != c ==> w[d] == v[d]
  }

  /** Of the other chunks, at most the old spare has gone. */
  ghost predicate AtMostSpareGone(v: map<nat, seq<Run>>, spare: Option<nat>, w: map<nat, seq<Run>>, c: nat)
  {
    && (forall d :: d in w && d != c ==> d in v && w[d] == v[d])
    && (forall d :: d in v && d != c ==> d in w || spare == Some(d))
  }

  lemma GoneTwice(v: map<nat, seq<Run>>, spare: Option<nat>, w: map<nat, seq<Run>>, x: map<nat, seq<Run>>, c: nat)
    requires (SameBut(v, w, c) || AtMostSpareGone(v, spare, w, c)) && AtMostSpareGone(w, spare, x, c)
    ensures AtMostSpareGone(v, spare, x, c)
  {}

  /** The runs after arena_run_dalloc. */
  lemma Dropped(v: map<nat, seq<Run>>, spare: Option<nat>, w: map<nat, seq<Run>>, c: nat, u: seq<Run>)
    requires c in v && spare != Some(c)
    requires w == v[c := u] || (spare.Some? && w == v[c := u] - {spare.value})
    ensures c in w && w[c] == u && AtMostSpareGone(v, spare, w, c)
  {}

  lemma Twice(rs: map<nat, seq<Run>>, c: nat, v: seq<Run>, u: seq<Run>)
    ensures rs[c := v][c := u] == rs[c := u]
  {}

  // ------------------------------------------------------------------- purge

  /** What the map shows of run i and its neighbours. */
  ghost predicate Seen(g: Layout, m: seq<Page>, rs: seq<Run>, i: nat, p: nat)
  {
    && i < |rs| && g.bias < g.npages == |m| && g.bias <= p && 0 < rs[i].pages && p + rs[i].pages <= g.npages
    && (if rs[i].Free() then m[p] == Unallocated(rs[i].pages, rs[i].dirty) && m[p + rs[i].pages - 1] == m[p]
        else !m[p].Unallocated? && SizeTags(g, m, p, rs[i]))
    && (AdjacPred(g, m, p) <==> i > 0 && rs[i - 1].Free())
    && (AdjacSucc(g, m, p, rs[i].pages) <==> i + 1 < |rs| && rs[i + 1].Free())
  }

  lemma See(g: Layout, s: State, c: nat, i: nat, p: nat)
    requires Ok(g, s) && c in s.chunks && At(g, s.runs[c], i, p)
    ensures Seen(g, s.chunks[c].pagemap, s.runs[c], i, p)
  {
    Mapped(g, s, c);
    SeeSides(g, s.chunks[c].pagemap, s.runs[c], i, p);
    SeeTags(g, s, c, i, p);
  }

  lemma SeeTags(g: Layout, s: State, c: nat, i: nat, p: nat)
    requires Ok(g, s) && c in s.chunks && At(g, s.runs[c], i, p)
    ensures !s.runs[c][i].Free() ==> SizeTags(g, s.chunks[c].pagemap, p, s.runs[c][i])
  {
    if !s.runs[c][i].Free() { RunTags(g, s, c, i, p); }
  }

  lemma SeeSides(g: Layout, m: seq<Page>, rs: seq<Run>, i: nat, p: nat)
    requires g.bias < g.npages == |m| && Tiles(m, g.bias, rs, g.npages) && At(g, rs, i, p)
    ensures g.bias <= p && p + rs[i].pages <= g.npages && Tags(m, p, rs[i])
    ensures (AdjacPred(g, m, p) <==> i > 0 && rs[i - 1].Free())
            && (AdjacSucc(g, m, p, rs[i].pages) <==> i + 1 < |rs| && rs[i + 1].Free())
  {
    Located(g, m, rs, i, p);
    Beside(g, m, rs[..i], p, rs[i].pages, rs[i + 1..]);
    assert LastFree(rs[..i]) <==> i > 0 && rs[i - 1].Free();
    assert FirstFree(rs[i + 1..]) <==> i + 1 < |rs| && rs[i + 1].Free();
  }

  /** n allocated pages at q are a large run. */
  ghost predicate Taken(g: Layout, rs: seq<Run>, q: nat, n: nat)
  {
    exists k: nat :: At(g, rs, k, q) && rs[k].kind == LargeRun && rs[k].pages == n
  }

  /** The runs that the scan has put on its list. */
  ghost predicate AllTaken(g: Layout, rs: seq<Run>, list: seq<nat>, sizes: seq<nat>)
  {
    && |list| == |sizes| && (forall x :: 0 <= x < |list| ==> Taken(g, rs, list[x], sizes[x]))
    && (forall x, y :: 0 <= x < y < |list| ==> list[x] != list[y])
  }

  function Total(sizes: seq<nat>): nat
  {
    if sizes == [] then 0 else sizes[0] + Total(sizes[1..])
  }

  lemma {:induction false} TotalAppend(sizes: seq<nat>, n: nat)
    ensures Total(sizes + [n]) == Total(sizes) + n
  {
    if sizes != [] {
      TotalAppend(sizes[1..], n);
      assert (sizes + [n])[1..] == sizes[1..] + [n];
    }
  }

  /** Taking one more run keeps the others, whose starts differ from its own. */
  lemma TakeOne(g: Layout, rs: seq<Run>, list: seq<nat>, sizes: seq<nat>, i: nat, p: nat, v: seq<Run>)
    requires AllTaken(g, rs, list, sizes) && At(g, rs, i, p) && rs[i].Free() && Solid(rs)
    requires v == rs[i := Run(rs[i].pages, LargeRun, rs[i].dirty)]
    ensures AllTaken(g, v, list + [p], sizes + [rs[i].pages])
  {
    TakenDirty(rs, i, v);
    assert At(g, v, i, p);
    forall x | 0 <= x < |list| ensures Taken(g, v, list[x], sizes[x]) && list[x] != p {
      var k: nat :| At(g, rs, k, list[x]) && rs[k].kind == LargeRun && rs[k].pages == sizes[x];
      assert At(g, v, k, list[x]);
      StartsDiffer(rs, i, k);
    }
  }

  lemma StartsDiffer(rs: seq<Run>, i: nat, k: nat)
    requires Solid(rs) && i < |rs| && k < |rs| && i != k
    ensures Pages(rs[..i]) != Pages(rs[..k])
  {
    var lo, hi := if i < k then i else k, if i < k then k else i;
    SolidPrefix(rs, hi);
    assert rs[..hi][..lo] == rs[..lo];
    PrefixFull(rs[..hi], lo);
  }

  lemma {:induction false} SolidSlice(rs: seq<Run>, i: nat)
    requires Solid(rs) && i <= |rs|
    ensures Solid(rs[i..])
  {
    if i > 0 {
      SolidSlice(rs[1..], i - 1);
      assert rs[1..][i - 1..] == rs[i..];
    }
  }

  lemma {:induction false} SolidPrefix(rs: seq<Run>, i: nat)
    requires Solid(rs) && i <= |rs|
    ensures Solid(rs[..i])
  {
    if i > 0 {
      SolidPrefix(rs[1..], i - 1);
      assert rs[..i][1..] == rs[1..][..i - 1];
    }
  }

  /** Freeing the first run of the list keeps the others. */
  lemma FreeOne(g: Layout, rs: seq<Run>, list: seq<nat>, sizes: seq<nat>, k: nat)
    requires AllTaken(g, rs, list, sizes) && list != [] && At(g, rs, k, list[0]) && !rs[k].Free()
    ensures AllTaken(g, FreeAt(rs, k, false), list[1..], sizes[1..])
    ensures |list| > 1 ==> |FreeAt(rs, k, false)| > 1
  {
    var u := FreeAt(rs, k, false);
    forall x | 0 < x < |list| ensures Taken(g, u, list[x], sizes[x]) && |u| > 1 {
      var j: nat :| At(g, rs, j, list[x]) && rs[j].kind == LargeRun && rs[j].pages == sizes[x];
      assert j != k;
      var i := FreeKeepsStart(rs, k, false, j);
      assert At(g, u, i, list[x]);
      FreeNotAll(rs, k, false, j);
    }
    if |list| > 1 { assert Taken(g, u, list[1], sizes[1]); }
  }

  lemma Solidity(g: Layout, s: State, c: nat)
    requires Ok(g, s) && c in s.chunks
    ensures Solid(s.runs[c]) && Coalesced(s.runs[c])
    ensures g.bias + Pages(s.runs[c]) == g.npages
  {
    assert ChunkOk(g, s, c);
    TilesBounds(s.chunks[c].pagemap, g.bias, s.runs[c], g.npages);
  }

  lemma PrefixFull(rs: seq<Run>, i: nat)
    requires Solid(rs) && i <= |rs|
    ensures Pages(rs[..i]) < Pages(rs) <==> i < |rs|
  {
    assert rs == rs[..i] + rs[i..];
    Concat(rs[..i], rs[i..]);
    SolidSlice(rs, i);
    if rs[i..] != [] { LongerThan(rs[i..], 0); }
  }

  /** The scan of arena_chunk_purge, which began with the chunk's runs rs, is at run i
      and page p. */
  ghost predicate Scanning(g: Layout, rs: seq<Run>, nactive: nat, s: State, c: nat, i: nat, p: nat, all: bool,
                           list: seq<nat>, sizes: seq<nat>)
  {
    && c in s.runs && i <= |s.runs[c]| && p == g.bias + Pages(s.runs[c][..i]) && ScannedTo(s.runs[c], i, all)
    && AllTaken(g, s.runs[c], list, sizes) && Dirty(s.runs[c]) + Total(sizes) == Dirty(rs)
       && s.nactive == nactive + Total(sizes)
  }

  lemma ScanStarts(g: Layout, s: State, c: nat, all: bool)
    requires c in s.runs
    ensures Scanning(g, s.runs[c], s.nactive, s, c, 0, g.bias, all, [], [])
  {
    assert s.runs[c][..0] == [];
  }

  lemma ScanMore(g: Layout, s: State, c: nat, i: nat)
    requires Ok(g, s) && c in s.chunks && i <= |s.runs[c]|
    ensures g.bias + Pages(s.runs[c][..i]) < g.npages <==> i < |s.runs[c]|
    ensures i < |s.runs[c]| ==> 0 < s.runs[c][i].pages
  {
    Solidity(g, s, c);
    PrefixFull(s.runs[c], i);
    if i < |s.runs[c]| { LongerThan(s.runs[c], i); }
  }

  lemma ScanPassed(g: Layout, rs: seq<Run>, nactive: nat, s: State, c: nat, i: nat, p: nat, all: bool,
                   list: seq<nat>, sizes: seq<nat>, n: nat)
    requires Scanning(g, rs, nactive, s, c, i, p, all, list, sizes) && i < |s.runs[c]| && n == s.runs[c][i].pages
    requires ScannedTo(s.runs[c], i + 1, all)
    ensures Scanning(g, rs, nactive, s, c, i + 1, p + n, all, list, sizes)
  {
    NextStart(s.runs[c], i);
  }

  lemma ScanKept(g: Layout, rs: seq<Run>, nactive: nat, s: State, t: State, c: nat, i: nat, p: nat, all: bool,
                 list: seq<nat>, sizes: seq<nat>, n: nat)
    requires Scanning(g, rs, nactive, s, c, i, p, all, list, sizes) && i < |s.runs[c]| && Solid(s.runs[c])
             && n == s.runs[c][i].pages
    requires s.runs[c][i].Free() && s.runs[c][i].dirty && c in t.runs && t.nactive == s.nactive + n
    requires t.runs[c] == s.runs[c][i := Run(n, LargeRun, true)] && ScannedTo(t.runs[c], i + 1, all)
    ensures Scanning(g, rs, nactive, t, c, i + 1, p + n, all, list + [p], sizes + [n])
  {
    TakeOne(g, s.runs[c], list, sizes, i, p, t.runs[c]);
    TakenDirty(s.runs[c], i, t.runs[c]);
    TotalAppend(sizes, n);
    NextStart(t.runs[c], i);
  }

  lemma Counted(g: Layout, s: State, c: nat)
    requires Ok(g, s) && c in s.chunks && s.spare != Some(c)
    ensures s.chunks[c].ndirty == Dirty(s.runs[c]) && s.chunks[c].nrunsAdjac == Adjac(s.runs[c])
    ensures s.chunks[c].nrunsAvail == Count(s.runs[c])
  {
    assert ChunkOk(g, s, c);
  }

  lemma ScanDone(g: Layout, s: State, c: nat, all: bool)
    requires Ok(g, s) && c in s.chunks && s.spare != Some(c) && ScannedTo(s.runs[c], |s.runs[c]|, all)
    ensures s.chunks[c].nrunsAdjac == 0 && (all ==> s.chunks[c].ndirty == 0)
  {
    ScanEnd(s.runs[c], all);
    assert Books(g, s, c, s.runs[c]) by { assert ChunkOk(g, s, c); }
  }

  /** A spare is never in the tree of dirty chunks: the branch of arena.c:728-733 is
      not taken. */
  lemma SpareClean(g: Layout, s: State)
    requires Ok(g, s) && s.spare.Some?
    ensures s.spare.value !in s.dirtyChunks
  {
    assert ChunkOk(g, s, s.spare.value);
  }
}
