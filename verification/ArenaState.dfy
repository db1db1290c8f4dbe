/** The fields of an arena in deps/jemalloc/src/arena.c and what always holds of
    them. */
module ArenaState {
  import opened Options
  import opened ArenaRuns

  /** arena_chunk_t. */
  datatype Chunk = Chunk(pagemap: seq<Page>, ndirty: nat, nrunsAvail: nat, nrunsAdjac: nat)

  // --------------------------------------------------------------------- sums

  ghost function SumDirty(cs: map<nat, Chunk>): nat
  {
    if cs == map[] then 0 else
      var c :| c in cs;
      cs[c].ndirty + SumDirty(cs - {c})
  }

  lemma {:induction false} SumDirtyRemove(cs: map<nat, Chunk>, c: nat)
    requires c in cs
    ensures SumDirty(cs) == cs[c].ndirty + SumDirty(cs - {c})
  {
    var d :| d in cs && SumDirty(cs) == cs[d].ndirty + SumDirty(cs - {d});
    if d != c {
      SumDirtyRemove(cs - {d}, c);
      SumDirtyRemove(cs - {c}, d);
      assert cs - {d} - {c} == cs - {c} - {d};
    }
  }

  lemma SumDirtyUpdate(cs: map<nat, Chunk>, c: nat, x: Chunk)
    ensures SumDirty(cs[c := x]) == x.ndirty + SumDirty(cs - {c})
  {
    SumDirtyRemove(cs[c := x], c);
    assert cs[c := x] - {c} == cs - {c};
  }

  ghost function SumActive(rs: map<nat, seq<Run>>): nat
  {
    if rs == map[] then 0 else
      var c :| c in rs;
      Active(rs[c]) + SumActive(rs - {c})
  }

  lemma {:induction false} SumActiveRemove(rs: map<nat, seq<Run>>, c: nat)
    requires c in rs
    ensures SumActive(rs) == Active(rs[c]) + SumActive(rs - {c})
  {
    var d :| d in rs && SumActive(rs) == Active(rs[d]) + SumActive(rs - {d});
    if d != c {
      SumActiveRemove(rs - {d}, c);
      SumActiveRemove(rs - {c}, d);
      assert rs - {d} - {c} == rs - {c} - {d};
    }
  }

  lemma SumActiveUpdate(rs: map<nat, seq<Run>>, c: nat, x: seq<Run>)
    ensures SumActive(rs[c := x]) == Active(x) + SumActive(rs - {c})
  {
    SumActiveRemove(rs[c := x], c);
    assert rs[c := x] - {c} == rs - {c};
  }

  // -------------------------------------------------------------- invariants

  /** map_bias and chunk_npages; the pages of a small run of each bin. */
  datatype Layout = Layout(bias: nat, npages: nat, bins: seq<nat>)

  /** The fields of an arena, with the runs that tile each chunk. */
  datatype State = State(chunks: map<nat, Chunk>, spare: Option<nat>, nactive: nat, ndirty: nat,
                         avail: set<(nat, nat)>, dirtyChunks: set<nat>, runs: map<nat, seq<Run>>)

  /** The dirty counters agree and the tree of dirty chunks holds those that have any. */
  ghost predicate Ledger(s: State)
  {
    && s.ndirty == SumDirty(s.chunks)
    && (forall c :: c in s.dirtyChunks <==> c in s.chunks && s.chunks[c].ndirty != 0)
    && (forall c, p :: (c, p) in s.avail ==> c in s.chunks)
  }

  /** The counters and trees hold what the runs v of chunk c amount to. */
  ghost predicate Books(g: Layout, s: State, c: nat, v: seq<Run>)
  {
    && c in s.chunks && s.chunks[c].nrunsAvail == Count(v) && s.chunks[c].nrunsAdjac == Adjac(v)
       && s.chunks[c].ndirty == Dirty(v)
    && (forall p :: (c, p) in s.avail <==> p in Frees(v, g.bias))
  }

  ghost predicate Sized(g: Layout, rs: seq<Run>)
  {
    forall k :: 0 <= k < |rs| && rs[k].kind.SmallRun? ==>
      rs[k].kind.binind < |g.bins| && rs[k].pages == g.bins[rs[k].kind.binind]
  }

  /** The runs of a chunk tile its page map. */
  ghost predicate MapOk(g: Layout, s: State, c: nat)
  {
    && c in s.chunks && c in s.runs && |s.chunks[c].pagemap| == g.npages
    && Tiles(s.chunks[c].pagemap, g.bias, s.runs[c], g.npages) && Coalesced(s.runs[c]) && Sized(g, s.runs[c])
  }

  /** The runs of a chunk that the arena can see: none of the spare's. */
  function Listed(s: State, c: nat): seq<Run>
    requires c in s.runs
  {
    if s.spare == Some(c) then [] else s.runs[c]
  }

  ghost predicate ChunkOk(g: Layout, s: State, c: nat)
  {
    MapOk(g, s, c) && Books(g, s, c, Listed(s, c))
  }

  ghost predicate ChunksOk(g: Layout, s: State)
  {
    forall c {:trigger ChunkOk(g, s, c)} :: c in s.chunks ==> ChunkOk(g, s, c)
  }

  lemma Mapped(g: Layout, s: State, c: nat)
    requires Ok(g, s) && c in s.chunks
    ensures MapOk(g, s, c)
  {
    assert ChunkOk(g, s, c);
  }

  ghost predicate Ok(g: Layout, s: State)
  {
    && g.bias < g.npages && Ledger(s) && s.nactive == SumActive(s.runs) && s.chunks.Keys == s.runs.Keys
    && SpareOk(s.spare, s.runs) && ChunksOk(g, s)
  }

  lemma Booked(g: Layout, s: State, c: nat)
    requires Ok(g, s) && c in s.chunks && s.spare != Some(c)
    ensures Books(g, s, c, s.runs[c])
  {
    assert ChunkOk(g, s, c);
  }

  /** The other chunks of t are as in s. */
  ghost predicate Beyond(s: State, t: State, c: nat)
  {
    && (forall d :: d in t.chunks && d != c ==> d in s.chunks && t.chunks[d] == s.chunks[d])
    && (forall d, p :: d != c ==> ((d, p) in t.avail <==> (d, p) in s.avail))
  }

  lemma BeyondTwice(s: State, t: State, u: State, c: nat)
    requires Beyond(s, t, c) && Beyond(t, u, c)
    ensures Beyond(s, u, c)
  {}

  lemma OtherChunk(g: Layout, s: State, t: State, c: nat, d: nat)
    requires Beyond(s, t, c) && d != c && d in t.chunks && d in s.runs && d in t.runs && t.runs[d] == s.runs[d]
    requires (t.spare == Some(d) <==> s.spare == Some(d)) && ChunkOk(g, s, d)
    ensures ChunkOk(g, t, d)
  {}

  lemma OtherChunks(g: Layout, s: State, t: State, c: nat)
    requires Beyond(s, t, c) && forall d :: d in t.chunks && d != c ==>
               d in s.runs && d in t.runs && t.runs[d] == s.runs[d]
    requires t.spare == s.spare && ChunksOk(g, s)
    requires c in t.chunks ==> ChunkOk(g, t, c)
    ensures ChunksOk(g, t)
  {
    forall d | d in t.chunks && d != c ensures ChunkOk(g, t, d) {
      OtherChunk(g, s, t, c, d);
    }
  }

  lemma Reposted(rs: map<nat, seq<Run>>, c: nat, x: seq<Run>)
    requires c in rs
    ensures SumActive(rs[c := x]) + Active(rs[c]) == SumActive(rs) + Active(x)
  {
    SumActiveRemove(rs, c);
    SumActiveUpdate(rs, c, x);
  }

  ghost predicate SpareOk(spare: Option<nat>, runs: map<nat, seq<Run>>)
  {
    spare.Some? ==> spare.value in runs && |runs[spare.value]| == 1 && runs[spare.value][0].Free()
  }

  lemma RestoredKeys(s: State, t: State, c: nat, rs: seq<Run>)
    requires s.chunks.Keys == s.runs.Keys && SpareOk(s.spare, s.runs) && c in s.chunks && s.spare != Some(c)
    requires t.spare == s.spare && t.chunks.Keys == s.chunks.Keys && t.runs == s.runs[c := rs]
    ensures SpareOk(t.spare, t.runs) && t.chunks.Keys == t.runs.Keys
  {}

  lemma RestoredSum(s: State, t: State, c: nat, rs: seq<Run>)
    requires s.nactive == SumActive(s.runs) && c in s.runs && t.runs == s.runs[c := rs]
    requires t.nactive + Active(s.runs[c]) == s.nactive + Active(rs)
    ensures t.nactive == SumActive(t.runs)
  {
    Reposted(s.runs, c, rs);
  }

  lemma RestoredChunks(g: Layout, s: State, t: State, c: nat, rs: seq<Run>)
    requires s.chunks.Keys == s.runs.Keys && ChunksOk(g, s)
    requires c in s.chunks && t.spare == s.spare && t.chunks.Keys == s.chunks.Keys && t.runs == s.runs[c := rs]
    requires Beyond(s, t, c) && ChunkOk(g, t, c)
    ensures ChunksOk(g, t)
  {
    OtherChunks(g, s, t, c);
  }

  /** After a change of chunk c the arena is in order again. */
  lemma Restored(g: Layout, s: State, t: State, c: nat, rs: seq<Run>)
    requires g.bias < g.npages && s.nactive == SumActive(s.runs) && s.chunks.Keys == s.runs.Keys
             && SpareOk(s.spare, s.runs)
    requires ChunksOk(g, s) && c in s.chunks && s.spare != Some(c) && t.spare == s.spare
    requires t.chunks.Keys == s.chunks.Keys && t.runs == s.runs[c := rs] && Ledger(t) && Beyond(s, t, c)
    requires MapOk(g, t, c) && Books(g, t, c, rs) && t.nactive + Active(s.runs[c]) == s.nactive + Active(rs)
    ensures Ok(g, t)
  {
    RestoredSum(s, t, c, rs);
    RestoredKeys(s, t, c, rs);
    RestoredChunks(g, s, t, c, rs);
  }

  // ----------------------------------------------------------- available runs

  /** arena_avail_adjac_pred, arena.c:208-221. */
  predicate AdjacPred(g: Layout, m: seq<Page>, pageind: nat)
    requires g.bias < g.npages == |m| && g.bias <= pageind < g.npages
  {
    pageind > g.bias && m[pageind - 1].Unallocated?
  }

  /** arena_avail_adjac_succ, arena.c:223-237. */
  predicate AdjacSucc(g: Layout, m: seq<Page>, pageind: nat, n: nat)
    requires g.npages == |m| && pageind + n <= g.npages
  {
    pageind + n < g.npages && m[pageind + n].Unallocated?
  }

  /** The change of nrunsAdjac that a run brings. */
  function Neighbours(g: Layout, m: seq<Page>, p: nat, n: nat, pred: bool, succ: bool): nat
    requires g.bias < g.npages == |m| && g.bias <= p && 0 < n && p + n <= g.npages
  {
    One(pred && AdjacPred(g, m, p)) + One(succ && AdjacSucc(g, m, p, n))
  }

  /** v has one unallocated run more than w: n pages at p, next to others as far as
      the flags ask.  Neighbours differ in their dirty flags, as arena.c:217-218
      and 233-234 assert. */
  ghost predicate Plus(g: Layout, m: seq<Page>, p: nat, n: nat, pred: bool, succ: bool, v: seq<Run>, w: seq<Run>)
    requires g.bias < g.npages == |m| && g.bias <= p && 0 < n && p + n <= g.npages
  {
    && Gains(v, w, g.bias, p, n, m[p].dirty, Neighbours(g, m, p, n, pred, succ))
    && (pred && AdjacPred(g, m, p) ==> m[p - 1].dirty != m[p].dirty)
    && (succ && AdjacSucc(g, m, p, n) ==> m[p].dirty != m[p + n].dirty)
  }

  /** What the map shows beside a run. */
  lemma Beside(g: Layout, m: seq<Page>, a: seq<Run>, p: nat, n: nat, b: seq<Run>)
    requires g.bias < g.npages == |m| && g.bias <= p && 0 < n && p + n <= g.npages
    requires Tiles(m, g.bias, a, p) && Tiles(m, p + n, b, g.npages)
    ensures AdjacPred(g, m, p) <==> LastFree(a)
    ensures AdjacSucc(g, m, p, n) <==> FirstFree(b)
    ensures LastFree(a) ==> m[p - 1].dirty == a[|a| - 1].dirty
    ensures FirstFree(b) ==> m[p + n].dirty == b[0].dirty
  {
    TilesBounds(m, g.bias, a, p);
    TilesBounds(m, p + n, b, g.npages);
    if a != [] { TilesLast(m, g.bias, a, p); }
  }

  /** The neighbour counts that the map shows for an unallocated run. */
  lemma Shown(g: Layout, m: seq<Page>, a: seq<Run>, p: nat, f: Run, b: seq<Run>)
    requires g.bias < g.npages == |m| && Tiles(m, g.bias, a, p) && Tags(m, p, f) && Tiles(m, p + f.pages, b, g.npages)
    requires (LastFree(a) ==> a[|a| - 1].dirty != f.dirty) && (FirstFree(b) ==> b[0].dirty != f.dirty)
    ensures p == g.bias + Pages(a) && p + f.pages <= g.npages && m[p].dirty == f.dirty
    ensures (AdjacPred(g, m, p) <==> LastFree(a)) && (AdjacSucc(g, m, p, f.pages) <==> FirstFree(b))
    ensures AdjacPred(g, m, p) ==> m[p - 1].dirty != m[p].dirty
    ensures AdjacSucc(g, m, p, f.pages) ==> m[p].dirty != m[p + f.pages].dirty
    ensures Solid(a) && Solid(b)
  {
    TilesBounds(m, g.bias, a, p);
    TilesBounds(m, p + f.pages, b, g.npages);
    Beside(g, m, a, p, f.pages, b);
  }

  lemma PlusWhole(g: Layout, m: seq<Page>, a: seq<Run>, p: nat, f: Run, x: Run, b: seq<Run>)
    requires g.bias < g.npages == |m| && Tiles(m, g.bias, a, p) && Tags(m, p, f) && Tiles(m, p + f.pages, b, g.npages)
    requires f.Free() && !x.Free() && x.pages == f.pages
    requires (LastFree(a) ==> a[|a| - 1].dirty != f.dirty) && (FirstFree(b) ==> b[0].dirty != f.dirty)
    ensures g.bias <= p && p + f.pages <= g.npages && Plus(g, m, p, f.pages, true, true, a + [f] + b, a + [x] + b)
  {
    Shown(g, m, a, p, f, b);
    GainWhole(a, f, x, b, g.bias, p, m[p].dirty, Neighbours(g, m, p, f.pages, true, true));
  }

  lemma PlusTail(g: Layout, m: seq<Page>, a: seq<Run>, x: Run, f: Run, p: nat, y: Run, b: seq<Run>)
    requires g.bias < g.npages == |m| && p == g.bias + Pages(a) + x.pages && Tags(m, p, f)
             && Tiles(m, p + f.pages, b, g.npages)
    requires f.Free() && !x.Free() && !y.Free() && y.pages == x.pages + f.pages
    requires Solid(a)
    requires FirstFree(b) ==> b[0].dirty != f.dirty
    ensures p + f.pages <= g.npages && Plus(g, m, p, f.pages, false, true, a + [x] + [f] + b, a + [y] + b)
  {
    TilesBounds(m, p + f.pages, b, g.npages);
    GainTail(a, x, f, y, b, g.bias, p, m[p].dirty, Neighbours(g, m, p, f.pages, false, true));
  }

  lemma PlusHead(g: Layout, m: seq<Page>, a: seq<Run>, f: Run, p: nat, x: Run, y: Run, b: seq<Run>)
    requires g.bias < g.npages == |m| && Tiles(m, g.bias, a, p) && Tags(m, p, f) && p + f.pages <= g.npages
    requires f.Free() && !x.Free() && !y.Free() && y.pages == f.pages + x.pages
    requires Solid(b)
    requires LastFree(a) ==> a[|a| - 1].dirty != f.dirty
    ensures g.bias <= p && Plus(g, m, p, f.pages, true, false, a + [f] + [x] + b, a + [y] + b)
  {
    TilesBounds(m, g.bias, a, p);
    if a != [] { TilesLast(m, g.bias, a, p); }
    GainHead(a, f, x, y, b, g.bias, p, m[p].dirty, Neighbours(g, m, p, f.pages, true, false));
  }
}
