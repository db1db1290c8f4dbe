/** The page allocator of deps/jemalloc/src/arena.c, run by one thread.  Sizes and
    run addresses count pages; a run is known by its chunk's address and the index of
    its first page. */
module ArenaPages {
  import opened Options
  import opened ArenaRuns
  import opened ArenaState
  import opened ArenaPlans
  import opened ArenaLaws

  class Arena {
    const g: Layout
    var chunks: map<nat, Chunk>
    var spare: Option<nat>
    var nactive: nat
    var ndirty: nat
    var runsAvail: set<(nat, nat)>
    var chunksDirty: set<nat>
    /** The runs that tile each chunk. */
    ghost var runs: map<nat, seq<Run>>

    ghost function Now(): State
      reads this
    {
      State(chunks, spare, nactive, ndirty, runsAvail, chunksDirty, runs)
    }

    ghost predicate Valid()
      reads this
    {
      Ok(g, Now())
    }

    /** arena_new, arena.c:2097-2149: an arena without chunks. */
    constructor (g: Layout)
      requires g.bias < g.npages
      ensures Valid() && this.g == g && chunks == map[] && spare == None && nactive == 0 && ndirty == 0
    {
      this.g, chunks, spare, nactive, ndirty, runsAvail, chunksDirty, runs := g, map[], None, 0, 0, {}, {}, map[];
    }

    /** Stores the header and map of chunk c, whose dirty pages move by as many as the
        arena's, and its place in chunksDirty. */
    method Post(c: nat, x: Chunk)
      requires c in chunks && Ledger(Now())
      modifies this`chunks, this`ndirty, this`chunksDirty
      ensures Ledger(Now()) && chunks == old(chunks)[c := x]
    {
      SumDirtyRemove(chunks, c);
      SumDirtyUpdate(chunks, c, x);
      ndirty := ndirty - chunks[c].ndirty + x.ndirty;
      if chunks[c].ndirty != 0 { chunksDirty := chunksDirty - {c}; }
      chunks := chunks[c := x];
      if x.ndirty != 0 { chunksDirty := chunksDirty + {c}; }
    }

    /** arena_avail_insert, arena.c:247-278. */
    method AvailInsert(c: nat, p: nat, n: nat, pred: bool, succ: bool, ghost v: seq<Run>, ghost w: seq<Run>)
      requires c in chunks && g.bias < g.npages == |chunks[c].pagemap| && g.bias <= p && 0 < n && p + n <= g.npages
      requires Ledger(Now()) && Books(g, Now(), c, w) && Plus(g, chunks[c].pagemap, p, n, pred, succ, v, w)
      modifies this`chunks, this`ndirty, this`runsAvail, this`chunksDirty
      ensures Ledger(Now()) && Books(g, Now(), c, v)
      ensures chunks == old(chunks)[c := chunks[c]] && chunks[c].pagemap == old(chunks)[c].pagemap
      ensures runsAvail == old(runsAvail) + {(c, p)}
    {
      var x := chunks[c];
      x := x.(nrunsAdjac := x.nrunsAdjac + Neighbours(g, x.pagemap, p, n, pred, succ), nrunsAvail := x.nrunsAvail + 1);
      AdjacBound(v);
      assert x.nrunsAvail > x.nrunsAdjac;
      if x.pagemap[p].dirty { x := x.(ndirty := x.ndirty + n); }
      Post(c, x);
      runsAvail := runsAvail + {(c, p)};
    }

    /** arena_avail_remove, arena.c:280-312. */
    method AvailRemove(c: nat, p: nat, n: nat, pred: bool, succ: bool, ghost v: seq<Run>, ghost w: seq<Run>)
      requires c in chunks && g.bias < g.npages == |chunks[c].pagemap| && g.bias <= p && 0 < n && p + n <= g.npages
      requires Ledger(Now()) && Books(g, Now(), c, v) && Plus(g, chunks[c].pagemap, p, n, pred, succ, v, w)
      modifies this`chunks, this`ndirty, this`runsAvail, this`chunksDirty
      ensures Ledger(Now()) && Books(g, Now(), c, w)
      ensures chunks == old(chunks)[c := chunks[c]] && chunks[c].pagemap == old(chunks)[c].pagemap
      ensures runsAvail == old(runsAvail) - {(c, p)}
    {
      var x := chunks[c];
      x := x.(nrunsAdjac := x.nrunsAdjac - Neighbours(g, x.pagemap, p, n, pred, succ), nrunsAvail := x.nrunsAvail - 1);
      AdjacBound(w);
      assert x.nrunsAvail > x.nrunsAdjac || (x.nrunsAvail == 0 && x.nrunsAdjac == 0);
      if x.pagemap[p].dirty { x := x.(ndirty := x.ndirty - n); }
      Post(c, x);
      runsAvail := runsAvail - {(c, p)};
    }

    /** Stores the map m, in which n pages from p are tagged as an unallocated run, and
        inserts the run. */
    method PutFree(c: nat, p: nat, n: nat, m: seq<Page>, pred: bool, succ: bool, ghost v: seq<Run>, ghost w: seq<Run>)
      requires c in chunks && g.bias < g.npages == |m| && g.bias <= p && 0 < n && p + n <= g.npages
      requires Ledger(Now()) && Books(g, Now(), c, w) && Plus(g, m, p, n, pred, succ, v, w)
      modifies this`chunks, this`ndirty, this`runsAvail, this`chunksDirty
      ensures Ledger(Now()) && Books(g, Now(), c, v)
      ensures chunks == old(chunks)[c := chunks[c]] && chunks[c].pagemap == m
      ensures runsAvail == old(runsAvail) + {(c, p)}
    {
      Post(c, chunks[c].(pagemap := m));
      AvailInsert(c, p, n, pred, succ, v, w);
    }

    /** arena.c:384-428 on a run f; w is the list of runs with f taken and u the list
        in the end.  Returns the map with the tail tagged. */
    method SplitTake(c: nat, p: nat, need: nat, ghost f: Run, ghost v: seq<Run>, ghost w: seq<Run>, ghost u: seq<Run>)
      returns (m: seq<Page>, dirty: bool)
      requires g.bias < g.npages && Ledger(Now()) && Books(g, Now(), c, v) && |chunks[c].pagemap| == g.npages
      requires g.bias <= p && p + f.pages <= g.npages && f.Free() && Tags(chunks[c].pagemap, p, f)
               && 0 < need <= f.pages
      requires Plus(g, chunks[c].pagemap, p, f.pages, true, true, v, w)
      requires if need == f.pages then Alike(w, u, g.bias) else
                 Plus(g, TagFree(chunks[c].pagemap, p + need, f.pages - need, f.dirty), p + need, f.pages - need,
                      false, true, u, w)
      modifies this`chunks, this`ndirty, this`runsAvail, this`chunksDirty, this`nactive
      ensures Ledger(Now()) && Books(g, Now(), c, u) && nactive == old(nactive) + need && dirty == f.dirty
              && chunks[c].pagemap == m
      ensures m == if need < f.pages then TagFree(old(chunks)[c].pagemap, p + need, f.pages - need, f.dirty)
                else old(chunks)[c].pagemap
      ensures chunks.Keys == old(chunks.Keys) && Beyond(old(Now()), Now(), c)
    {
      m := chunks[c].pagemap;
      var total := m[p].size;
      dirty := m[p].dirty;
      assert m[p + total - 1].dirty == dirty;
      var rem := total - need;
      AvailRemove(c, p, total, true, true, v, w);
      nactive := nactive + need;
      if rem > 0 {
        m := TagFree(m, p + need, rem, dirty);
        PutFree(c, p + need, rem, m, false, true, u, w);
      }
    }

    method TagRun(c: nat, p: nat, need: nat, kind: Kind, dirty: bool)
      requires c in chunks && Ledger(Now()) && 0 < need && p + need <= |chunks[c].pagemap| && kind != Unused
      modifies this`chunks, this`ndirty, this`chunksDirty
      ensures Ledger(Now()) && chunks.Keys == old(chunks.Keys) && Beyond(old(Now()), Now(), c)
      ensures c in chunks && chunks[c] == old(chunks)[c].(pagemap := chunks[c].pagemap)
      ensures Outside(old(chunks)[c].pagemap, chunks[c].pagemap, p, p + need)
              && Tags(chunks[c].pagemap, p, Run(need, kind, dirty))
    {
      var n := MarkAllocated(chunks[c].pagemap, p, need, kind, dirty);
      Post(c, chunks[c].(pagemap := n));
    }

    method SplitCore(c: nat, p: nat, need: nat, kind: Kind, ghost f: Run, ghost v: seq<Run>, ghost w: seq<Run>,
                     ghost u: seq<Run>)
      requires g.bias < g.npages && Ledger(Now()) && Books(g, Now(), c, v) && |chunks[c].pagemap| == g.npages
      requires g.bias <= p && p + f.pages <= g.npages && f.Free() && Tags(chunks[c].pagemap, p, f)
               && 0 < need <= f.pages && kind != Unused
      requires Plus(g, chunks[c].pagemap, p, f.pages, true, true, v, w)
      requires if need == f.pages then Alike(w, u, g.bias) else
                 Plus(g, TagFree(chunks[c].pagemap, p + need, f.pages - need, f.dirty), p + need, f.pages - need,
                      false, true, u, w)
      modifies this
      ensures SplitStep(g, old(Now()), Now(), c, p, f, need, kind, u)
    {
      ghost var s := Now();
      var m, dirty := SplitTake(c, p, need, f, v, w, u);
      ghost var t := Now();
      TagRun(c, p, need, kind, dirty);
      BeyondTwice(s, t, Now(), c);
      runs := runs[c := u];
      SplitStepped(g, s, Now(), c, p, f, need, kind, u, m);
    }

    /** arena_run_split, arena.c:371-511: allocates the first pages of run k of chunk c,
        which is unallocated and begins at page p. */
    method RunSplit(c: nat, p: nat, need: nat, kind: Kind, ghost k: nat)
      requires Valid() && c in runs && spare != Some(c) && At(g, runs[c], k, p) && runs[c][k].Free()
      requires 0 < need <= runs[c][k].pages && Fits(g, need, kind)
      modifies this
      ensures Valid() && spare == old(spare) && chunks.Keys == old(chunks.Keys)
      ensures runs == old(runs)[c := SplitAt(old(runs)[c], k, need, kind)] && nactive == old(nactive) + need
      ensures Painted(old(runs)[c], runs[c], g.bias, p, need, Owned(p, Run(need, kind, old(runs)[c][k].dirty)))
    {
      ghost var s := Now();
      assert ChunkOk(g, s, c);
      SplitPaints(runs[c], g.bias, k, need, kind);
      ghost var v, w, u := SplitPlan(g, s, c, p, k, need, kind);
      SplitCore(c, p, need, kind, v[k], v, w, u);
      SplitMapEnd(g, s, Now(), c, p, k, need, kind);
      SplitEnd(g, s, Now(), c, p, k, need, kind, runs[c]);
    }

    /** arena.c:1017-1042: returns the size of the run. */
    method CoalesceForward(c: nat, p: nat, n: nat, dirty: bool, ghost m: seq<Page>, ghost x: Step) returns (n': nat)
      requires g.bias < g.npages && Ledger(Now()) && Books(g, Now(), c, x.v) && chunks[c].pagemap == m
               && ForwardStep(g, m, p, n, dirty, x)
      modifies this`chunks, this`ndirty, this`runsAvail, this`chunksDirty
      ensures Ledger(Now()) && Books(g, Now(), c, x.w) && chunks[c].pagemap == x.m && n' == x.n
      ensures chunks.Keys == old(chunks.Keys) && Beyond(old(Now()), Now(), c)
    {
      var pages := chunks[c].pagemap;
      n' := n;
      if p + n < g.npages && pages[p + n].Unallocated? && pages[p + n].dirty == dirty {
        var nr := pages[p + n].size;
        assert pages[p + n + nr - 1].size == nr && pages[p + n + nr - 1].dirty == dirty;
        AvailRemove(c, p + n, nr, false, true, x.v, x.w);
        n' := n + nr;
        Post(c, chunks[c].(pagemap := TagFree(pages, p, n', dirty)));
      }
    }

    /** arena.c:1044-1069: returns the first page and the size of the run. */
    method CoalesceBackward(c: nat, p: nat, n: nat, dirty: bool, ghost m: seq<Page>, ghost x: Step)
      returns (p': nat, n': nat)
      requires g.bias < g.npages && Ledger(Now()) && Books(g, Now(), c, x.v) && chunks[c].pagemap == m
               && BackwardStep(g, m, p, n, dirty, x)
      modifies this`chunks, this`ndirty, this`runsAvail, this`chunksDirty
      ensures Ledger(Now()) && Books(g, Now(), c, x.w) && chunks[c].pagemap == x.m && n' == x.n && p' == x.p
      ensures chunks.Keys == old(chunks.Keys) && Beyond(old(Now()), Now(), c)
    {
      var pages := chunks[c].pagemap;
      p', n' := p, n;
      if p > g.bias && pages[p - 1].Unallocated? && pages[p - 1].dirty == dirty {
        var np := pages[p - 1].size;
        p' := p - np;
        assert pages[p'].size == np && pages[p'].dirty == dirty;
        AvailRemove(c, p', np, true, false, x.v, x.w);
        n' := n + np;
        Post(c, chunks[c].(pagemap := TagFree(pages, p', n', dirty)));
      }
    }

    /** arena.c:991-1069 on n allocated pages at p. */
    method Coalesce(c: nat, p: nat, n: nat, dirty: bool, ghost x: Step, ghost y: Step) returns (p': nat, n': nat)
      requires g.bias < g.npages && Ledger(Now()) && Books(g, Now(), c, x.v) && n <= nactive
      requires 0 < n && p + n <= |chunks[c].pagemap|
               && ForwardStep(g, TagFree(chunks[c].pagemap, p, n, dirty), p, n, dirty, x)
      requires y.v == x.w && BackwardStep(g, x.m, p, x.n, dirty, y)
      modifies this`chunks, this`ndirty, this`runsAvail, this`chunksDirty, this`nactive
      ensures Ledger(Now()) && Books(g, Now(), c, y.w) && chunks[c].pagemap == y.m && n' == y.n && p' == y.p
      ensures nactive == old(nactive) - n && chunks.Keys == old(chunks.Keys) && Beyond(old(Now()), Now(), c)
    {
      nactive := nactive - n;
      Post(c, chunks[c].(pagemap := TagFree(chunks[c].pagemap, p, n, dirty)));
      n' := CoalesceForward(c, p, n, dirty, chunks[c].pagemap, x);
      p', n' := CoalesceBackward(c, p, n', dirty, x.m, y);
    }

    /** arena.c:991-1076 without the list of runs. */
    method Account(c: nat, p: nat, n: nat, dirty: bool, ghost x: Step, ghost y: Step, ghost u: seq<Run>)
      returns (n': nat)
      requires g.bias < g.npages && Ledger(Now()) && Books(g, Now(), c, x.v) && n <= nactive
      requires 0 < n && p + n <= |chunks[c].pagemap|
               && ForwardStep(g, TagFree(chunks[c].pagemap, p, n, dirty), p, n, dirty, x)
      requires y.v == x.w && BackwardStep(g, x.m, p, x.n, dirty, y) && FillStep(g, y, u)
      modifies this`chunks, this`ndirty, this`runsAvail, this`chunksDirty, this`nactive
      ensures Ledger(Now()) && Books(g, Now(), c, u) && chunks[c].pagemap == y.m && n' == y.n
      ensures nactive == old(nactive) - n && chunks.Keys == old(chunks.Keys) && Beyond(old(Now()), Now(), c)
    {
      ghost var s := Now();
      var p';
      p', n' := Coalesce(c, p, n, dirty, x, y);
      ghost var t := Now();
      AvailInsert(c, p', n', true, true, u, y.w);
      BeyondTwice(s, t, Now(), c);
    }

    /** arena.c:991-1076; returns the size of the unallocated run. */
    method DallocCore(c: nat, p: nat, n: nat, dirty: bool, ghost x: Step, ghost y: Step, ghost u: seq<Run>)
      returns (n': nat)
      requires g.bias < g.npages && Ledger(Now()) && Books(g, Now(), c, x.v) && n <= nactive
      requires 0 < n && p + n <= |chunks[c].pagemap|
               && ForwardStep(g, TagFree(chunks[c].pagemap, p, n, dirty), p, n, dirty, x)
      requires y.v == x.w && BackwardStep(g, x.m, p, x.n, dirty, y) && FillStep(g, y, u)
      modifies this
      ensures FreeStep(g, old(Now()), Now(), c, n, y.m, u) && n' == y.n
    {
      n' := Account(c, p, n, dirty, x, y, u);
      runs := runs[c := u];
    }

    /** arena.c:591-605: the chunk's only run is no longer available. */
    method Withdraw(c: nat, ghost rs: seq<Run>)
      requires g.bias < g.npages && Ledger(Now()) && MapOk(g, Now(), c) && runs[c] == rs && Unused1(g, rs)
               && Books(g, Now(), c, rs)
      modifies this`chunks, this`ndirty, this`runsAvail, this`chunksDirty
      ensures Ledger(Now()) && MapOk(g, Now(), c) && Books(g, Now(), c, [])
      ensures chunks.Keys == old(chunks.Keys) && Beyond(old(Now()), Now(), c)
    {
      WholeChunk(g, chunks[c].pagemap, rs);
      assert chunks[c].pagemap[g.bias].size == chunks[c].pagemap[g.npages - 1].size == g.npages - g.bias;
      AvailRemove(c, g.bias, g.npages - g.bias, false, false, rs, []);
    }

    /** arena.c:607-617: the old spare goes back to the system. */
    method KeepSpare(c: nat)
      modifies this`chunks, this`runs, this`spare
      ensures spare == Some(c) && chunks == (if old(spare).Some? then old(chunks) - {old(spare).value} else old(chunks))
      ensures runs == (if old(spare).Some? then old(runs) - {old(spare).value} else old(runs))
    {
      if spare.Some? {
        chunks, runs := chunks - {spare.value}, runs - {spare.value};
      }
      spare := Some(c);
    }

    /** arena_chunk_dealloc, arena.c:588-618. */
    method ChunkDealloc(c: nat)
      requires Valid() && c in runs && spare != Some(c) && Unused1(g, runs[c])
      modifies this
      ensures Valid() && spare == Some(c) && nactive == old(nactive)
      ensures runs == if old(spare).Some? then old(runs) - {old(spare).value} else old(runs)
    {
      ghost var s := Now();
      assert ChunkOk(g, s, c);
      Withdraw(c, runs[c]);
      ghost var t := Now();
      KeepSpare(c);
      DeallocEnd(g, s, t, Now(), c);
    }

    /** arena.c:991-1076 on run k; tells whether all of the chunk is unallocated. */
    method DallocRun(c: nat, p: nat, n: nat, dirty: bool, ghost k: nat) returns (whole: bool)
      requires Valid() && c in runs && spare != Some(c) && At(g, runs[c], k, p) && !runs[c][k].Free()
               && n == runs[c][k].pages
      modifies this
      ensures Valid() && spare == old(spare) && nactive == old(nactive) - n
      ensures runs == old(runs)[c := FreeAt(old(runs)[c], k, dirty)] && (whole <==> Unused1(g, runs[c]))
    {
      ghost var s := Now();
      assert ChunkOk(g, s, c);
      ActivePages(g, s, c, k);
      ghost var x, y, u := FreePlan(g, chunks[c].pagemap, runs[c], k, p, dirty);
      var n' := DallocCore(c, p, n, dirty, x, y, u);
      FreeMapOk(g, s, Now(), c, k, dirty);
      FreeEnd(g, s, Now(), c, k, dirty, y.m, u);
      whole := n' == g.npages - g.bias;
    }

    /** The size of an allocated run from its tags: arena.c:970-979.  The bin of a
        small run is read from the page map, not from the run's header. */
    method RunSize(c: nat, p: nat, ghost r: Run) returns (n: nat, dirty: bool)
      requires c in chunks && SizeTags(g, chunks[c].pagemap, p, r)
      ensures n == r.pages && dirty == r.dirty
    {
      var m := chunks[c].pagemap;
      n := if m[p].Large? then m[p].size else g.bins[m[p].binind];
      dirty := m[p].dirty;
      assert m[p + n - 1].dirty == dirty;
    }

    /** The first page of the run of a page in a small run: arena.c:1174, 1710, 1741. */
    method RunOf(c: nat, q: nat, ghost k: nat, ghost p: nat) returns (start: nat)
      requires Valid() && c in runs && At(g, runs[c], k, p) && runs[c][k].kind.SmallRun?
               && p <= q < p + runs[c][k].pages
      ensures start == p && q < |chunks[c].pagemap| && chunks[c].pagemap[q].Small?
      ensures chunks[c].pagemap[q].binind == runs[c][k].kind.binind
    {
      RegionPage(g, Now(), c, k, p, q);
      start := q - chunks[c].pagemap[q].runind;
    }

    /** arena_run_dalloc, arena.c:960-1094, without the decision to purge. */
    method RunDalloc(c: nat, p: nat, dirty: bool, cleaned: bool, ghost k: nat)
      requires Valid() && c in runs && spare != Some(c) && At(g, runs[c], k, p) && !runs[c][k].Free()
      modifies this
      ensures Valid() && nactive == old(nactive) - old(runs)[c][k].pages
      ensures var r := old(runs)[c][k];
              var u := FreeAt(old(runs)[c], k, dirty || (!cleaned && r.dirty));
              if Unused1(g, u) then
                spare == Some(c)
                  && runs == if old(spare).Some? then old(runs)[c := u] - {old(spare).value} else old(runs)[c := u]
              else spare == old(spare) && runs == old(runs)[c := u]
      ensures var r := old(runs)[c][k];
              c in runs
              && Painted(old(runs)[c], runs[c], g.bias, p, r.pages, Vacant(dirty || (!cleaned && r.dirty)))
    {
      FreePaints(runs[c], g.bias, k, dirty || (!cleaned && runs[c][k].dirty));
      RunTags(g, Now(), c, k, p);
      var n, was := RunSize(c, p, runs[c][k]);
      var whole := DallocRun(c, p, n, dirty || (!cleaned && was), k);
      if whole { ChunkDealloc(c); }
    }

    /** arena.c:537-578. */
    method NewChunk(c: nat)
      requires g.bias < g.npages && Ledger(Now()) && c !in chunks
      modifies this`chunks, this`runs
      ensures chunks == old(chunks)[c := Chunk(NewMap(g), 0, 0, 0)] && runs == old(runs)[c := NewRuns(g)]
      ensures Ledger(Now()) && MapOk(g, Now(), c) && Books(g, Now(), c, [])
    {
      ghost var s := Now();
      chunks, runs := chunks[c := Chunk(NewMap(g), 0, 0, 0)], runs[c := NewRuns(g)];
      NewChunkOk(g, s, Now(), c);
    }

    /** arena.c:581-583: the only run of the chunk becomes available. */
    method Provide(c: nat, ghost rs: seq<Run>)
      requires g.bias < g.npages && Ledger(Now()) && MapOk(g, Now(), c) && runs[c] == rs && Unused1(g, rs)
               && Books(g, Now(), c, [])
      modifies this`chunks, this`ndirty, this`runsAvail, this`chunksDirty
      ensures Ledger(Now()) && MapOk(g, Now(), c) && Books(g, Now(), c, rs)
      ensures chunks.Keys == old(chunks.Keys) && Beyond(old(Now()), Now(), c)
    {
      WholeChunk(g, chunks[c].pagemap, rs);
      AvailInsert(c, g.bias, g.npages - g.bias, false, false, rs, []);
    }

    method ReuseSpare() returns (c: nat)
      requires Valid() && spare.Some?
      modifies this
      ensures Valid() && nactive == old(nactive) && spare == None && Some(c) == old(spare)
      ensures c in runs && Unused1(g, runs[c]) && runs == old(runs)
    {
      ghost var s := Now();
      SpareReady(g, s);
      c := spare.value;
      spare := None;
      assert Now() == s.(spare := None);
      Provide(c, runs[c]);
      ReuseEnd(g, s, Now(), c);
    }

    method MapChunk(c: nat)
      requires Valid() && spare == None && c !in chunks
      modifies this
      ensures Valid() && nactive == old(nactive) && spare == None
      ensures runs == old(runs)[c := NewRuns(g)]
    {
      ghost var s := Now();
      NewChunk(c);
      Provide(c, runs[c]);
      AllocEnd(g, s, Now(), c, runs[c]);
    }

    /** arena_chunk_alloc, arena.c:513-586; `granted` is what chunk_alloc answers. */
    method ChunkAlloc(granted: Option<nat>) returns (c: Option<nat>)
      requires Valid() && (granted.Some? ==> granted.value !in chunks)
      modifies this
      ensures Valid() && nactive == old(nactive) && spare == None
      ensures c == if old(spare).Some? then old(spare) else granted
      ensures c == None ==> Now() == old(Now())
      ensures c.Some? ==> c.value in runs && Unused1(g, runs[c.value])
      ensures c.Some? ==> runs == if old(spare).Some? then old(runs) else old(runs)[c.value := NewRuns(g)]
      ensures c.Some? && old(spare) == None ==> runs[c.value] == [Run(g.npages - g.bias, Unused, false)]
    {
      if spare.Some? {
        var d := ReuseSpare();
        c := Some(d);
      } else if granted.Some? {
        MapChunk(granted.value);
        c := granted;
      } else {
        c := None;
      }
    }

    /** The keys of runs_avail. */
    method Sizes() returns (sizes: map<(nat, nat), nat>)
      requires Valid()
      ensures SizesOk(Now(), sizes)
    {
      forall c, p | (c, p) in runsAvail
        ensures c in chunks && p < |chunks[c].pagemap| && chunks[c].pagemap[p].Unallocated?
      {
        var k := AvailRun(g, Now(), c, p);
      }
      sizes := map e | e in runsAvail :: chunks[e.0].pagemap[e.1].size;
    }

    /** arena_avail_tree_nsearch with a key that is lower than any run of its size. */
    method Search(need: nat) returns (e: Option<(nat, nat)>, ghost k: nat)
      requires Valid()
      ensures e == None ==> NothingFits(g, Now(), need)
      ensures e.Some? ==> LowestBestFit(g, Now(), need, e.value.0, k, e.value.1)
    {
      k := 0;
      var sizes := Sizes();
      if exists f :: f in sizes && sizes[f] >= need {
        LeastExists(sizes, need);
        var f :| f in sizes && Least(sizes, f, need);
        k := LeastFits(g, Now(), sizes, f.0, f.1, need);
        return Some(f), k;
      }
      NoneFits(g, Now(), sizes, need);
      return None, k;
    }

    /** arena_run_alloc_helper, arena.c:620-642. */
    method RunAllocHelper(need: nat, kind: Kind) returns (r: Option<(nat, nat)>, ghost k: nat)
      requires Valid() && 0 < need && Fits(g, need, kind)
      modifies this
      ensures Valid() && spare == old(spare)
      ensures r == None ==> Now() == old(Now()) && NothingFits(g, Now(), need)
      ensures r.Some? ==> LowestBestFit(g, old(Now()), need, r.value.0, k, r.value.1) && nactive == old(nactive) + need
      ensures r.Some? ==> runs == old(runs)[r.value.0 := SplitAt(old(runs)[r.value.0], k, need, kind)]
      ensures r.Some? ==> var (c, p) := r.value;
                Painted(old(runs)[c], runs[c], g.bias, p, need, Owned(p, Run(need, kind, old(runs)[c][k].dirty)))
    {
      r, k := Search(need);
      if r.Some? {
        RunSplit(r.value.0, r.value.1, need, kind, k);
      }
    }

    /** arena.c:664-669: the first pages of another chunk. */
    method RunAllocChunk(need: nat, kind: Kind, granted: Option<nat>) returns (r: Option<(nat, nat)>)
      requires Valid() && 0 < need && need + g.bias <= g.npages && Fits(g, need, kind)
               && (granted.Some? ==> granted.value !in chunks)
      modifies this
      ensures Valid() && (r == None <==> old(spare) == None && granted == None) && (r == None ==> Now() == old(Now()))
      ensures r.Some? ==>
                var c := if old(spare).Some? then old(spare).value else granted.value;
                var rs := if old(spare).Some? then old(runs)[c] else NewRuns(g);
                && r == Some((c, g.bias)) && rs != [] && spare == None && nactive == old(nactive) + need
                && runs == old(runs)[c := SplitAt(rs, 0, need, kind)]
                && Painted(rs, runs[c], g.bias, g.bias, need, Owned(g.bias, Run(need, kind, rs[0].dirty)))
    {
      var c := ChunkAlloc(granted);
      if c == None { return None; }
      ghost var rs := runs[c.value];
      assert rs == if old(spare).Some? then old(runs)[c.value] else NewRuns(g);
      assert runs[c.value := SplitAt(rs, 0, need, kind)] == old(runs)[c.value := SplitAt(rs, 0, need, kind)];
      RunSplit(c.value, g.bias, need, kind, 0);
      return Some((c.value, g.bias));
    }

    /** arena_run_alloc, arena.c:644-677: the lowest best fit, and if there is none,
        the first pages of another chunk. */
    method RunAlloc(need: nat, kind: Kind, granted: Option<nat>)
      returns (r: Option<(nat, nat)>, ghost k: nat, ghost found: bool)
      requires Valid() && 0 < need && need + g.bias <= g.npages && Fits(g, need, kind)
               && (granted.Some? ==> granted.value !in chunks)
      modifies this
      ensures Valid()
      ensures found ==> r.Some? && spare == old(spare) && LowestBestFit(g, old(Now()), need, r.value.0, k, r.value.1)
                        && nactive == old(nactive) + need
                           && runs == old(runs)[r.value.0 := SplitAt(old(runs)[r.value.0], k, need, kind)]
      ensures found ==> var (c, p) := r.value;
                Painted(old(runs)[c], runs[c], g.bias, p, need, Owned(p, Run(need, kind, old(runs)[c][k].dirty)))
      ensures !found ==> NothingFits(g, old(Now()), need)
      ensures !found ==> (r == None <==> old(spare) == None && granted == None) && (r == None ==> Now() == old(Now()))
      ensures !found && r.Some? ==>
                var c := if old(spare).Some? then old(spare).value else granted.value;
                var rs := if old(spare).Some? then old(runs)[c] else NewRuns(g);
                && r == Some((c, g.bias)) && rs != [] && spare == None && nactive == old(nactive) + need
                && runs == old(runs)[c := SplitAt(rs, 0, need, kind)]
                && Painted(rs, runs[c], g.bias, g.bias, need, Owned(g.bias, Run(need, kind, rs[0].dirty)))
    {
      r, k := RunAllocHelper(need, kind);
      found := r.Some?;
      if r.Some? { return; }
      r := RunAllocChunk(need, kind, granted);
      if r.Some? { return; }
      r, k := RunAllocHelper(need, kind);
    }

    /** New tags for allocated runs. */
    method Reshape(c: nat, m: seq<Page>, ghost w: seq<Run>)
      requires Valid() && c in runs && spare != Some(c) && Reshaped(g, m, runs[c], w)
      modifies this
      ensures Valid() && spare == old(spare) && nactive == old(nactive) && runs == old(runs)[c := w]
    {
      ghost var s := Now();
      Post(c, chunks[c].(pagemap := m));
      runs := runs[c := w];
      ReshapeEnd(g, s, Now(), c, m, w);
    }

    /** The new tags of arena_run_trim_head and arena_run_trim_tail. */
    method CutLarge(c: nat, p: nat, n: nat, head: nat, ghost k: nat, ghost w: seq<Run>)
      requires Valid() && c in runs && spare != Some(c) && At(g, runs[c], k, p)
      requires runs[c][k].kind == LargeRun && n == runs[c][k].pages && 0 < head < n && w == CutAt(runs[c], k, head)
      modifies this
      ensures Valid() && spare == old(spare) && nactive == old(nactive) && runs == old(runs)[c := w]
    {
      CutStep(g, Now(), c, k, p, head, w);
      var m := chunks[c].pagemap;
      var flagDirty := m[p].dirty;
      Reshape(c, TagLarge(m, p, head, flagDirty)[p + head := Large(n - head, flagDirty)], w);
    }

    /** arena_run_dalloc of a part of a chunk. */
    method DallocPart(c: nat, p: nat, dirty: bool, ghost k: nat, ghost u: seq<Run>)
      requires Valid() && c in runs && spare != Some(c) && At(g, runs[c], k, p) && !runs[c][k].Free()
      requires u == FreeAt(runs[c], k, dirty || runs[c][k].dirty) && !Unused1(g, u)
      modifies this
      ensures Valid() && spare == old(spare) && nactive == old(nactive) - old(runs)[c][k].pages
              && runs == old(runs)[c := u]
    {
      RunDalloc(c, p, dirty, false, k);
    }

    /** Cuts run k after `head` pages and frees part j, which begins at page q. */
    method CutThenFree(c: nat, p: nat, n: nat, head: nat, q: nat, dirty: bool, ghost k: nat, ghost j: nat,
                       ghost v: seq<Run>, ghost u: seq<Run>)
      requires Valid() && c in runs && spare != Some(c) && At(g, runs[c], k, p)
      requires runs[c][k].kind == LargeRun && n == runs[c][k].pages && 0 < head < n && v == CutAt(runs[c], k, head)
      requires At(g, v, j, q) && !v[j].Free() && u == FreeAt(v, j, dirty || v[j].dirty) && !Unused1(g, u)
               && v[j].pages <= nactive
      modifies this
      ensures Valid() && spare == old(spare) && nactive == old(nactive) - v[j].pages && runs == old(runs)[c := u]
    {
      Twice(runs, c, v, u);
      CutLarge(c, p, n, head, k, v);
      DallocPart(c, q, dirty, j, u);
    }

    /** arena_run_trim_head, arena.c:1096-1126. */
    method TrimHead(c: nat, p: nat, oldPages: nat, newPages: nat, ghost k: nat)
      requires Valid() && c in runs && spare != Some(c) && At(g, runs[c], k, p)
      requires runs[c][k].kind == LargeRun && oldPages == runs[c][k].pages && 0 < newPages < oldPages
      modifies this
      ensures Valid() && spare == old(spare) && nactive == old(nactive) - (oldPages - newPages)
      ensures var rs := old(runs)[c];
              runs == old(runs)[c := FreeAt(CutAt(rs, k, oldPages - newPages), k, rs[k].dirty)]
      ensures var rs, q := old(runs)[c], p + (oldPages - newPages);
              PaintedTwo(rs, runs[c], g.bias, p, oldPages - newPages, Vacant(rs[k].dirty),
                         newPages, Owned(q, Run(newPages, LargeRun, rs[k].dirty)))
    {
      TrimHeadPaints(runs[c], g.bias, k, oldPages - newPages, runs[c][k].dirty);
      ActivePages(g, Now(), c, k);
      ghost var v, u := TrimPlan(g, runs[c], k, p, oldPages - newPages, k, runs[c][k].dirty);
      CutThenFree(c, p, oldPages, oldPages - newPages, p, false, k, k, v, u);
    }

    /** arena_run_trim_tail, arena.c:1128-1159. */
    method TrimTail(c: nat, p: nat, oldPages: nat, newPages: nat, dirty: bool, ghost k: nat)
      requires Valid() && c in runs && spare != Some(c) && At(g, runs[c], k, p)
      requires runs[c][k].kind == LargeRun && oldPages == runs[c][k].pages && 0 < newPages < oldPages
      modifies this
      ensures Valid() && spare == old(spare) && nactive == old(nactive) - (oldPages - newPages)
      ensures var rs := old(runs)[c];
              runs == old(runs)[c := FreeAt(CutAt(rs, k, newPages), k + 1, dirty || rs[k].dirty)]
      ensures var rs := old(runs)[c];
              PaintedTwo(rs, runs[c], g.bias, p, newPages, Owned(p, Run(newPages, LargeRun, rs[k].dirty)),
                         oldPages - newPages, Vacant(dirty || rs[k].dirty))
    {
      TrimTailPaints(runs[c], g.bias, k, newPages, dirty || runs[c][k].dirty);
      ActivePages(g, Now(), c, k);
      ghost var v, u := TrimPlan(g, runs[c], k, p, newPages, k + 1, dirty || runs[c][k].dirty);
      CutThenFree(c, p, oldPages, newPages, p + newPages, dirty, k, k + 1, v, u);
    }

    /** The new tags of arena_ralloc_large_grow: arena.c:1855-1866. */
    method JoinLarge(c: nat, p: nat, n: nat, ghost k: nat, ghost u: seq<Run>)
      requires Valid() && c in runs && spare != Some(c) && At(g, runs[c], k, p) && k + 1 < |runs[c]|
      requires runs[c][k].kind == LargeRun && runs[c][k + 1].kind == LargeRun
               && n == runs[c][k].pages + runs[c][k + 1].pages
      requires u == JoinAt(runs[c], k, runs[c][k].dirty || runs[c][k + 1].dirty)
      modifies this
      ensures Valid() && spare == old(spare) && nactive == old(nactive) && runs == old(runs)[c := u]
    {
      JoinReady(g, Now(), c, k, p, n, u);
      var m := chunks[c].pagemap;
      var flagDirty := m[p].dirty || m[p + n - 1].dirty;
      Reshape(c, TagLarge(m, p, n, flagDirty), u);
    }

    /** Takes n pages of the run that follows run k: arena.c:1845-1866. */
    method Extend(c: nat, p: nat, oldPages: nat, n: nat, ghost k: nat)
      requires Valid() && c in runs && spare != Some(c) && At(g, runs[c], k, p) && k + 1 < |runs[c]|
               && At(g, runs[c], k + 1, p + oldPages)
      requires runs[c][k].kind == LargeRun && oldPages == runs[c][k].pages && runs[c][k + 1].Free()
               && 0 < n <= runs[c][k + 1].pages
      modifies this
      ensures Valid() && spare == old(spare) && nactive == old(nactive) + n
      ensures var rs := old(runs)[c];
              k + 1 < |SplitAt(rs, k + 1, n, LargeRun)|
              && runs == old(runs)[c := JoinAt(SplitAt(rs, k + 1, n, LargeRun), k, rs[k].dirty || rs[k + 1].dirty)]
    {
      ghost var v, u := GrowPlan(g, runs[c], k, p, n);
      Twice(runs, c, v, u);
      RunSplit(c, p + oldPages, n, LargeRun, k + 1);
      JoinLarge(c, p, oldPages + n, k, u);
    }

    /** The run that follows run k, if it is unallocated: arena.c:1836-1839. */
    method FollowSize(c: nat, p: nat, oldPages: nat, ghost k: nat) returns (n: Option<nat>)
      requires Valid() && c in runs && At(g, runs[c], k, p) && oldPages == runs[c][k].pages
      ensures n == if k + 1 < |runs[c]| && runs[c][k + 1].Free() then Some(runs[c][k + 1].pages) else None
      ensures n.Some? ==> At(g, runs[c], k + 1, p + oldPages) && n.value > 0
    {
      Follows(g, Now(), c, k, p);
      var m := chunks[c].pagemap;
      n := if p + oldPages < g.npages && m[p + oldPages].Unallocated? then Some(m[p + oldPages].size) else None;
    }

    /** arena_ralloc_large_grow, arena.c:1823-1887; true means failure.  A size below
        the old one makes the unsigned difference of arena.c:1839 wrap around, so
        that no run is large enough. */
    method Grow(c: nat, p: nat, oldPages: nat, size: nat, extra: nat, ghost k: nat) returns (failed: bool, ghost n: nat)
      requires Valid() && c in runs && spare != Some(c) && At(g, runs[c], k, p)
      requires runs[c][k].kind == LargeRun && oldPages == runs[c][k].pages && size + extra > oldPages
      modifies this
      ensures Valid() && spare == old(spare)
      ensures var rs := old(runs)[c];
              failed <==> !(k + 1 < |rs| && rs[k + 1].Free() && size >= oldPages && rs[k + 1].pages >= size - oldPages)
      ensures failed ==> Now() == old(Now())
      ensures var rs := old(runs)[c];
              !failed ==>
                && n == (if oldPages + rs[k + 1].pages <= size + extra then rs[k + 1].pages
                         else size + extra - oldPages)
                && nactive == old(nactive) + n && 0 < n <= rs[k + 1].pages && k + 1 < |SplitAt(rs, k + 1, n, LargeRun)|
                && runs == old(runs)[c := JoinAt(SplitAt(rs, k + 1, n, LargeRun), k, rs[k].dirty || rs[k + 1].dirty)]
      ensures var rs := old(runs)[c];
              !failed ==> Painted(rs, runs[c], g.bias, p, oldPages + n,
                                  Owned(p, Run(oldPages + n, LargeRun, rs[k].dirty || rs[k + 1].dirty)))
    {
      n := 0;
      var follow := FollowSize(c, p, oldPages, k);
      if follow == None || size < oldPages || follow.value < size - oldPages { return true, n; }
      var splitsize := if oldPages + follow.value <= size + extra then follow.value else size + extra - oldPages;
      GrowPaints(runs[c], g.bias, k, splitsize);
      Extend(c, p, oldPages, splitsize, k);
      return false, splitsize;
    }

    /** What the scan of arena_chunk_purge reads of a run: arena.c:752-790. */
    method Examine(c: nat, p: nat, all: bool, ghost rs: seq<Run>, ghost i: nat) returns (n: nat, take: bool)
      requires c in chunks && Seen(g, chunks[c].pagemap, rs, i, p)
      ensures n == rs[i].pages
      ensures take <==>
                rs[i].Free() && rs[i].dirty
                  && (all || (i > 0 && rs[i - 1].Free()) || (i + 1 < |rs| && rs[i + 1].Free()))
    {
      var m := chunks[c].pagemap;
      take := false;
      if m[p].Unallocated? {
        n := m[p].size;
        assert m[p].dirty == m[p + n - 1].dirty;
        take := m[p].dirty && (all || AdjacPred(g, m, p) || AdjacSucc(g, m, p, n));
      } else {
        var d;
        n, d := RunSize(c, p, rs[i]);
      }
    }

    /** Allocates run i of chunk c as a whole. */
    method TakeWhole(c: nat, p: nat, n: nat, ghost i: nat)
      requires Valid() && c in runs && spare != Some(c) && At(g, runs[c], i, p) && runs[c][i].Free()
               && n == runs[c][i].pages > 0
      modifies this
      ensures Valid() && spare == old(spare) && nactive == old(nactive) + n
      ensures c in runs && runs[c] == old(runs)[c][i := Run(n, LargeRun, old(runs)[c][i].dirty)]
              && SameBut(old(runs), runs, c)
    {
      SplitWhole(runs[c], i);
      RunSplit(c, p, n, LargeRun, i);
    }

    /** One round of the scan. */
    method ScanRun(c: nat, p: nat, all: bool, ghost i: nat) returns (n: nat, taken: bool)
      requires Valid() && c in runs && spare != Some(c) && At(g, runs[c], i, p) && ScannedTo(runs[c], i, all)
      modifies this
      ensures Valid() && spare == old(spare) && c in runs && ScannedTo(runs[c], i + 1, all)
      ensures n == old(runs)[c][i].pages && (taken <==> Purgeable(old(runs)[c], i, all))
      ensures taken ==> nactive == old(nactive) + n && runs[c] == old(runs)[c][i := Run(n, LargeRun, true)]
      ensures !taken ==> Now() == old(Now())
      ensures SameBut(old(runs), runs, c)
    {
      See(g, Now(), c, i, p);
      n, taken := Examine(c, p, all, runs[c], i);
      if taken {
        ScanTake(runs[c], i, all, runs[c][i := Run(n, LargeRun, true)]);
        TakeWhole(c, p, n, i);
      } else {
        Solidity(g, Now(), c);
        ScanPast(runs[c], i, all);
      }
    }

    /** The body of the scan's loop. */
    method ScanStep(c: nat, p: nat, all: bool, list: seq<nat>, ghost sizes: seq<nat>, ghost i: nat,
                    ghost rs: seq<Run>, ghost before: nat)
      returns (n: nat, list': seq<nat>, ghost sizes': seq<nat>)
      requires Valid() && spare != Some(c) && Scanning(g, rs, before, Now(), c, i, p, all, list, sizes) && i < |runs[c]|
      requires PurgeState(g, rs, runs[c], i, all, list, sizes)
      modifies this
      ensures Valid() && spare == old(spare) && Scanning(g, rs, before, Now(), c, i + 1, p + n, all, list', sizes')
              && n > 0
      ensures SameBut(old(runs), runs, c) && |runs[c]| == |old(runs)[c]|
      ensures PurgeState(g, rs, runs[c], i + 1, all, list', sizes')
    {
      ghost var s := Now();
      ScanMore(g, s, c, i);
      Solidity(g, s, c);
      var taken;
      n, taken := ScanRun(c, p, all, i);
      list', sizes' := list, sizes;
      if taken {
        list', sizes' := list + [p], sizes + [n];
        ScanKept(g, rs, before, s, Now(), c, i, p, all, list, sizes, n);
        PurgeTaken(g, rs, s.runs[c], i, all, list, sizes, p);
      } else {
        ScanPassed(g, rs, before, s, c, i, p, all, list, sizes, n);
        PurgePassed(g, rs, s.runs[c], i, all, list, sizes);
      }
    }

    method ScanLoop(c: nat, all: bool, ghost rs: seq<Run>, ghost before: nat, ghost runs0: map<nat, seq<Run>>)
      returns (list: seq<nat>, ghost sizes: seq<nat>, ghost p: nat)
      requires Valid() && spare != Some(c) && Scanning(g, rs, before, Now(), c, 0, g.bias, all, [], []) && runs == runs0
      requires PurgeState(g, rs, runs[c], 0, all, [], [])
      modifies this
      ensures Valid() && spare == old(spare) && c in runs
              && Scanning(g, rs, before, Now(), c, |runs[c]|, p, all, list, sizes)
      ensures SameBut(runs0, runs, c) && PurgeState(g, rs, runs[c], |runs[c]|, all, list, sizes)
    {
      var pageind := g.bias;
      list, sizes := [], [];
      ghost var i := 0;
      ScanMore(g, Now(), c, i);
      while pageind < g.npages
        invariant Valid() && spare == old(spare) && Scanning(g, rs, before, Now(), c, i, pageind, all, list, sizes)
        invariant SameBut(runs0, runs, c) && (pageind < g.npages <==> i < |runs[c]|)
        invariant PurgeState(g, rs, runs[c], i, all, list, sizes)
        decreases g.npages - pageind
      {
        var n;
        n, list, sizes := ScanStep(c, pageind, all, list, sizes, i, rs, before);
        pageind := pageind + n;
        i := i + 1;
        ScanMore(g, Now(), c, i);
      }
      p := pageind;
    }

    /** The scan of arena_chunk_purge, arena.c:742-794: allocates the dirty runs, or
        without `all` those that touch an unallocated run, and lists them.  The
        assertions of arena.c:792-794 hold. */
    method PurgeScan(c: nat, all0: bool) returns (list: seq<nat>, ghost sizes: seq<nat>)
      requires Valid() && c in runs && spare != Some(c)
      modifies this
      ensures Valid() && spare == old(spare) && c in runs && SameBut(old(runs), runs, c)
      ensures AllTaken(g, runs[c], list, sizes) && Dirty(runs[c]) + Total(sizes) == Dirty(old(runs)[c])
      ensures nactive == old(nactive) + Total(sizes) && chunks[c].nrunsAdjac == 0
      ensures all0 || old(chunks)[c].nrunsAdjac == 0 ==> chunks[c].ndirty == 0
      ensures var rs := old(runs)[c];
              Cleans(runs[c], Cleaned(rs, |rs|, all0 || old(chunks)[c].nrunsAdjac == 0), g.bias, list, sizes)
    {
      var all := all0 || chunks[c].nrunsAdjac == 0;
      ScanStarts(g, Now(), c, all);
      Solidity(g, Now(), c);
      PurgeStarts(g, runs[c], all);
      ghost var p;
      list, sizes, p := ScanLoop(c, all, runs[c], nactive, runs);
      ScanDone(g, Now(), c, all);
    }

    /** arena_run_dalloc of a run that was purged. */
    method DallocClean(c: nat, p: nat, ghost k: nat, ghost u: seq<Run>)
      requires Valid() && c in runs && spare != Some(c) && At(g, runs[c], k, p) && !runs[c][k].Free()
               && u == FreeAt(runs[c], k, false)
      modifies this
      ensures Valid() && c in runs && runs[c] == u && nactive == old(nactive) - old(runs)[c][k].pages
      ensures Painted(old(runs)[c], runs[c], g.bias, p, old(runs)[c][k].pages, Vacant(false))
      ensures |u| > 1 ==> spare == old(spare)
      ensures (spare == old(spare) || spare == Some(c)) && AtMostSpareGone(old(runs), old(spare), runs, c)
    {
      ghost var v, sp := runs, spare;
      RunDalloc(c, p, false, true, k);
      Dropped(v, sp, runs, c, u);
    }

    /** The size of a large run: arena_mapbits_large_size_get. */
    method LargeSize(c: nat, p: nat, ghost r: Run) returns (n: nat)
      requires c in chunks && SizeTags(g, chunks[c].pagemap, p, r) && r.kind == LargeRun
      ensures n == r.pages
    {
      n := chunks[c].pagemap[p].size;
    }

    /** Frees the first run of the list as clean: one round of arena.c:835-845. */
    method FreeFirst(c: nat, list: seq<nat>, ghost sizes: seq<nat>) returns (n: nat)
      requires Valid() && c in runs && spare != Some(c) && AllTaken(g, runs[c], list, sizes) && list != []
      modifies this
      ensures Valid() && c in runs && n == sizes[0] && nactive == old(nactive) - n
              && Dirty(runs[c]) == Dirty(old(runs)[c])
      ensures AllTaken(g, runs[c], list[1..], sizes[1..])
      ensures Painted(old(runs)[c], runs[c], g.bias, list[0], n, Vacant(false))
      ensures |list| > 1 ==> spare == old(spare)
      ensures (spare == old(spare) || spare == Some(c)) && AtMostSpareGone(old(runs), old(spare), runs, c)
    {
      var p := list[0];
      assert Taken(g, runs[c], p, sizes[0]);
      ghost var k: nat :| At(g, runs[c], k, p) && runs[c][k].kind == LargeRun && runs[c][k].pages == sizes[0];
      ghost var u := FreeAt(runs[c], k, false);
      FreeOne(g, runs[c], list, sizes, k);
      FreeDirty(runs[c], k);
      RunTags(g, Now(), c, k, p);
      n := LargeSize(c, p, runs[c][k]);
      DallocClean(c, p, k, u);
    }

    /** arena_chunk_purge after the scan, arena.c:796-847: returns the number of pages
        purged; v are the runs before the scan.  What purging does to the contents of
        pages is not modelled. */
    method FreeListed(c: nat, list: seq<nat>, ghost sizes: seq<nat>, ghost v: map<nat, seq<Run>>,
                      ghost sp: Option<nat>, ghost end: seq<Run>) returns (npurged: nat)
      requires Valid() && c in runs && spare != Some(c) && AllTaken(g, runs[c], list, sizes)
      requires Cleans(runs[c], end, g.bias, list, sizes)
      requires spare == sp && AtMostSpareGone(v, sp, runs, c)
      modifies this
      ensures Valid() && c in runs && npurged == Total(sizes) && nactive + npurged == old(nactive)
      ensures Dirty(runs[c]) == Dirty(old(runs)[c]) && AtMostSpareGone(v, sp, runs, c)
              && (spare == sp || spare == Some(c))
      ensures SameStatus(runs[c], end, g.bias)
    {
      var rest := list;
      ghost var left, before, dirty := sizes, nactive, Dirty(runs[c]);
      npurged := 0;
      while rest != []
        invariant Valid() && c in runs && npurged + Total(left) == Total(sizes) && nactive + npurged == before
        invariant AllTaken(g, runs[c], rest, left) && Dirty(runs[c]) == dirty && AtMostSpareGone(v, sp, runs, c)
        invariant if rest != [] then spare == sp else spare == sp || spare == Some(c)
        invariant spare == Some(c) ==> rest == []
        invariant Cleans(runs[c], end, g.bias, rest, left)
      {
        ghost var w := runs;
        var n := FreeFirst(c, rest, left);
        GoneTwice(v, sp, w, runs, c);
        CleansRest(w[c], end, g.bias, rest, left, runs[c]);
        npurged := npurged + n;
        rest, left := rest[1..], left[1..];
      }
      CleansEnd(runs[c], end, g.bias);
    }

    /** arena_chunk_purge, arena.c:702-848, on a chunk other than the spare: the pages
        purged are the dirty pages that the chunk has lost, with `all` or where no
        unallocated runs touch there are none left, and what is allocated stays.  Page by
        page the chunk is as before, with the runs clean that a purge takes. */
    method ChunkPurge(c: nat, all: bool) returns (npurged: nat)
      requires Valid() && c in runs && spare != Some(c)
      modifies this
      ensures Valid() && c in runs && nactive == old(nactive) && npurged + Dirty(runs[c]) == Dirty(old(runs)[c])
      ensures all || Adjac(old(runs)[c]) == 0 ==> Dirty(runs[c]) == 0
      ensures var rs := old(runs)[c]; SameStatus(runs[c], Cleaned(rs, |rs|, all || Adjac(rs) == 0), g.bias)
      ensures (spare == old(spare) || spare == Some(c)) && AtMostSpareGone(old(runs), old(spare), runs, c)
    {
      ghost var v, sp, sizes := runs, spare, [];
      ghost var end := Cleaned(runs[c], |runs[c]|, all || Adjac(runs[c]) == 0);
      var list;
      Counted(g, Now(), c);
      list, sizes := PurgeScan(c, all);
      Counted(g, Now(), c);
      npurged := FreeListed(c, list, sizes, v, sp, end);
    }
  }

  /** Tags the pages from p as an allocated run: arena.c:430-510. */
  method MarkAllocated(m: seq<Page>, p: nat, need: nat, kind: Kind, dirty: bool) returns (n: seq<Page>)
    requires 0 < need && p + need <= |m| && kind != Unused
    ensures Tags(n, p, Run(need, kind, dirty)) && Outside(m, n, p, p + need)
  {
    n := m;
    if kind.LargeRun? {
      n := n[p + need - 1 := Large(0, dirty)];
      n := n[p := Large(need, dirty)];
    } else {
      n := n[p := Small(0, kind.binind, dirty)];
      var i := 1;
      while i < need - 1
        invariant 1 <= i && (need >= 2 ==> i <= need - 1)
        invariant Outside(m, n, p, p + need) && n[p] == Small(0, kind.binind, dirty)
        invariant SmallPages(n, p, i, kind.binind)
      {
        SmallMore(n, p, i, i, kind.binind, false);
        n := n[p + i := Small(i, kind.binind, false)];
        i := i + 1;
      }
      SmallMore(n, p, i, need - 1, kind.binind, dirty);
      n := n[p + need - 1 := Small(need - 1, kind.binind, dirty)];
    }
  }
}
