/** What the operations of the page allocator do to each page of a chunk, whatever the lists
    of runs they work on: every page is vacant or taken by a run that begins somewhere. */
module ArenaLaws {
  import opened ArenaRuns
  import opened ArenaState
  import opened ArenaPlans

  /** A page: vacant, perhaps dirty, or taken by an allocated run that begins at `start`. */
  datatype Status = Vacant(dirty: bool) | Owned(start: nat, run: Run)

  function StatusOf(r: Run, i: nat): Status
  {
    if r.Free() then Vacant(r.dirty) else Owned(i, r)
  }

  /** Page q, where the list of runs begins at page i. */
  function StatusAt(rs: seq<Run>, i: nat, q: nat): Status
    requires i <= q < i + Pages(rs)
    decreases |rs|
  {
    if q < i + rs[0].pages then StatusOf(rs[0], i) else StatusAt(rs[1..], i + rs[0].pages, q)
  }

  /** From v to w n pages from p on become x, and all others stay. */
  ghost predicate Painted(v: seq<Run>, w: seq<Run>, i: nat, p: nat, n: nat, x: Status)
  {
    && Pages(w) == Pages(v) && i <= p && p + n <= i + Pages(v)
    && forall q :: i <= q < i + Pages(v) ==> StatusAt(w, i, q) == if p <= q < p + n then x else StatusAt(v, i, q)
  }

  /** From v to w m pages become x and the n behind them y. */
  ghost predicate PaintedTwo(v: seq<Run>, w: seq<Run>, i: nat, p: nat, m: nat, x: Status, n: nat, y: Status)
  {
    && Pages(w) == Pages(v) && i <= p && p + m + n <= i + Pages(v)
    && forall q :: i <= q < i + Pages(v) ==>
         StatusAt(w, i, q) == if p <= q < p + m then x else if p + m <= q < p + m + n then y else StatusAt(v, i, q)
  }

  lemma {:induction false} PagesConcat(a: seq<Run>, b: seq<Run>)
    ensures Pages(a + b) == Pages(a) + Pages(b)
  {
    if a == [] {
      assert a + b == b;
    } else {
      PagesConcat(a[1..], b);
      assert (a + b)[1..] == a[1..] + b;
    }
  }

  lemma PagesOne(x: Run)
    ensures Pages([x]) == x.pages
  {
    assert [x][1..] == [];
  }

  lemma {:induction false} AtConcat(a: seq<Run>, b: seq<Run>, i: nat, q: nat)
    requires i <= q < i + Pages(a) + Pages(b)
    ensures Pages(a + b) == Pages(a) + Pages(b)
    ensures StatusAt(a + b, i, q) == if q < i + Pages(a) then StatusAt(a, i, q) else StatusAt(b, i + Pages(a), q)
    decreases |a|
  {
    PagesConcat(a, b);
    if a == [] {
      assert a + b == b;
    } else {
      var j := i + a[0].pages;
      assert (a + b)[1..] == a[1..] + b && (a + b)[0] == a[0];
      assert j + Pages(a[1..]) == i + Pages(a);
      if q < j {
        assert StatusAt(a + b, i, q) == StatusOf(a[0], i);
      } else {
        assert StatusAt(a + b, i, q) == StatusAt(a[1..] + b, j, q);
        AtConcat(a[1..], b, j, q);
      }
    }
  }

  /** Runs between two lists: the pages before them, their own and those behind them. */
  lemma AtBefore(a: seq<Run>, d: seq<Run>, b: seq<Run>, i: nat, q: nat)
    requires i <= q < i + Pages(a)
    ensures Pages(a + d + b) == Pages(a) + Pages(d) + Pages(b)
    ensures StatusAt(a + d + b, i, q) == StatusAt(a, i, q)
  {
    PagesConcat(a, d);
    AtConcat(a + d, b, i, q);
    AtConcat(a, d, i, q);
  }

  lemma AtMiddle(a: seq<Run>, d: seq<Run>, b: seq<Run>, i: nat, p: nat, q: nat)
    requires p == i + Pages(a) <= q < p + Pages(d)
    ensures Pages(a + d + b) == Pages(a) + Pages(d) + Pages(b)
    ensures StatusAt(a + d + b, i, q) == StatusAt(d, p, q)
  {
    PagesConcat(a, d);
    AtConcat(a + d, b, i, q);
    AtConcat(a, d, i, q);
  }

  lemma AtBehind(a: seq<Run>, d: seq<Run>, b: seq<Run>, i: nat, e: nat, q: nat)
    requires e == i + Pages(a) + Pages(d) <= q < e + Pages(b)
    ensures Pages(a + d + b) == Pages(a) + Pages(d) + Pages(b)
    ensures StatusAt(a + d + b, i, q) == StatusAt(b, e, q)
  {
    PagesConcat(a, d);
    AtConcat(a + d, b, i, q);
  }

  lemma PagesMiddle(a: seq<Run>, d: seq<Run>, b: seq<Run>)
    ensures Pages(a + d + b) == Pages(a) + Pages(d) + Pages(b)
  {
    PagesConcat(a, d);
    PagesConcat(a + d, b);
  }

  /** The runs between two lists are exchanged for others of as many pages. */
  lemma Exchanged(a: seq<Run>, c: seq<Run>, d: seq<Run>, b: seq<Run>, i: nat)
    requires Pages(c) == Pages(d)
    ensures Pages(a + c + b) == Pages(a + d + b) == Pages(a) + Pages(d) + Pages(b)
    ensures forall q :: i <= q < i + Pages(a) || i + Pages(a) + Pages(d) <= q < i + Pages(a) + Pages(d) + Pages(b) ==>
              StatusAt(a + d + b, i, q) == StatusAt(a + c + b, i, q)
    ensures forall q :: i + Pages(a) <= q < i + Pages(a) + Pages(d) ==>
              StatusAt(a + d + b, i, q) == StatusAt(d, i + Pages(a), q)
  {
    PagesMiddle(a, c, b);
    PagesMiddle(a, d, b);
    var p, e := i + Pages(a), i + Pages(a) + Pages(d);
    forall q | i <= q < p ensures StatusAt(a + d + b, i, q) == StatusAt(a + c + b, i, q) {
      AtBefore(a, d, b, i, q);
      AtBefore(a, c, b, i, q);
    }
    forall q | e <= q < e + Pages(b) ensures StatusAt(a + d + b, i, q) == StatusAt(a + c + b, i, q) {
      AtBehind(a, d, b, i, e, q);
      AtBehind(a, c, b, i, e, q);
    }
    forall q | p <= q < e ensures StatusAt(a + d + b, i, q) == StatusAt(d, p, q) {
      AtMiddle(a, d, b, i, p, q);
    }
  }

  /** The first n pages of the runs d, which begin at page p, are y and the others z. */
  ghost predicate Within(d: seq<Run>, p: nat, n: nat, y: Status, z: Status)
  {
    n <= Pages(d) && forall q :: p <= q < p + Pages(d) ==> StatusAt(d, p, q) == if q < p + n then y else z
  }

  lemma OneWithin(x: Run, p: nat)
    ensures Pages([x]) == x.pages && Within([x], p, x.pages, StatusOf(x, p), StatusOf(x, p))
  {
    PagesOne(x);
  }

  lemma Replaced(a: seq<Run>, c: seq<Run>, d: seq<Run>, b: seq<Run>, i: nat, n: nat, y: Status, z: Status)
    requires Pages(c) == Pages(d) && Within(d, i + Pages(a), n, y, z)
    ensures PaintedTwo(a + c + b, a + d + b, i, i + Pages(a), n, y, Pages(d) - n, z)
  {
    Exchanged(a, c, d, b, i);
  }

  /** The statuses of the pages determine the runs. */
  lemma {:induction false} StatusDetermines(v: seq<Run>, w: seq<Run>, i: nat)
    requires Solid(v) && Solid(w) && Coalesced(v) && Coalesced(w) && Pages(v) == Pages(w)
    requires forall q :: i <= q < i + Pages(v) ==> StatusAt(v, i, q) == StatusAt(w, i, q)
    ensures v == w
    decreases |v|
  {
    if v != [] && w != [] {
      FirstsAlike(v, w, i);
      var j := i + v[0].pages;
      forall q | j <= q < i + Pages(v) ensures StatusAt(v[1..], j, q) == StatusAt(w[1..], j, q) {
        assert StatusAt(v, i, q) == StatusAt(w, i, q);
      }
      StatusDetermines(v[1..], w[1..], j);
      assert v == [v[0]] + v[1..] && w == [w[0]] + w[1..];
    } else {
      assert v == [] && w == [];
    }
  }

  lemma FirstsAlike(v: seq<Run>, w: seq<Run>, i: nat)
    requires v != [] && w != [] && Solid(v) && Solid(w) && Coalesced(v) && Coalesced(w) && Pages(v) == Pages(w)
    requires forall q :: i <= q < i + Pages(v) ==> StatusAt(v, i, q) == StatusAt(w, i, q)
    ensures v[0] == w[0]
  {
    assert StatusAt(v, i, i) == StatusAt(w, i, i);
    if v[0].Free() {
      NotLonger(v, w, i);
      NotLonger(w, v, i);
    }
  }

  lemma NotLonger(v: seq<Run>, w: seq<Run>, i: nat)
    requires v != [] && w != [] && Solid(v) && Solid(w) && Coalesced(v) && Pages(v) == Pages(w)
    requires forall q :: i <= q < i + Pages(v) ==> StatusAt(v, i, q) == StatusAt(w, i, q)
    requires v[0].Free() && w[0].Free() && v[0].dirty == w[0].dirty
    ensures w[0].pages <= v[0].pages
  {
    if w[0].pages > v[0].pages {
      Behind(v, w, i, i + v[0].pages);
      assert false;
    }
  }

  /** The page behind the first run of v, where that of w goes on. */
  lemma Behind(v: seq<Run>, w: seq<Run>, i: nat, j: nat)
    requires v != [] && w != [] && Solid(v) && Solid(w) && Pages(v) == Pages(w)
    requires j == i + v[0].pages < i + w[0].pages
    ensures |v| > 1 && j < i + Pages(v)
    ensures StatusAt(v, i, j) == StatusOf(v[1], j) && StatusAt(w, i, j) == StatusOf(w[0], i)
  {
    assert v[1..] != [];
  }

  // ------------------------------------------------------------------- splits

  /** arena_run_split: the first pages of the run are taken by a run of the kind that was
      asked for; every other page stays as it is. */
  lemma SplitPaints(rs: seq<Run>, i: nat, k: nat, need: nat, kind: Kind)
    requires k < |rs| && rs[k].Free() && 0 < need <= rs[k].pages && kind != Unused
    ensures var p := i + Pages(rs[..k]);
            Painted(rs, SplitAt(rs, k, need, kind), i, p, need, Owned(p, Run(need, kind, rs[k].dirty)))
  {
    var a, x, b := rs[..k], rs[k], rs[k + 1..];
    var p := i + Pages(a);
    assert rs == a + [x] + b;
    SplittedPages(x, need, kind, p);
    Replaced(a, [x], Splitted(x, need, kind), b, i, need, Owned(p, Run(need, kind, x.dirty)), Vacant(x.dirty));
    OneWithin(x, p);
    Replaced(a, [x], [x], b, i, x.pages, Vacant(x.dirty), Vacant(x.dirty));
  }

  lemma SplittedPages(x: Run, need: nat, kind: Kind, p: nat)
    requires x.Free() && 0 < need <= x.pages && kind != Unused
    ensures Pages(Splitted(x, need, kind)) == x.pages == Pages([x])
    ensures Within(Splitted(x, need, kind), p, need, Owned(p, Run(need, kind, x.dirty)), Vacant(x.dirty))
  {
    var y, r := Run(need, kind, x.dirty), Run(x.pages - need, Unused, x.dirty);
    PagesOne(x);
    OneWithin(y, p);
    if x.pages > need { TwoWithin(y, r, p); } else { assert Splitted(x, need, kind) == [y]; }
  }

  /** Two runs. */
  lemma TwoWithin(y: Run, z: Run, p: nat)
    ensures Pages([y] + [z]) == y.pages + z.pages
    ensures Within([y] + [z], p, y.pages, StatusOf(y, p), StatusOf(z, p + y.pages))
  {
    PagesOne(y);
    PagesOne(z);
    PagesConcat([y], [z]);
    forall q | p <= q < p + y.pages + z.pages
      ensures StatusAt([y] + [z], p, q) == if q < p + y.pages then StatusOf(y, p) else StatusOf(z, p + y.pages)
    {
      AtConcat([y], [z], p, q);
    }
  }

  // -------------------------------------------------------------------- frees

  lemma {:induction false} AllVacant(l: seq<Run>, i: nat, dirty: bool, q: nat)
    requires (forall j :: 0 <= j < |l| ==> l[j].Free() && l[j].dirty == dirty) && i <= q < i + Pages(l)
    ensures StatusAt(l, i, q) == Vacant(dirty)
    decreases |l|
  {
    if q >= i + l[0].pages { AllVacant(l[1..], i + l[0].pages, dirty, q); }
  }

  /** arena_run_dalloc: the pages of the run become vacant; every other page stays as it
      is, however the unallocated runs are joined. */
  lemma FreePaints(rs: seq<Run>, i: nat, k: nat, dirty: bool)
    requires k < |rs|
    ensures Painted(rs, FreeAt(rs, k, dirty), i, i + Pages(rs[..k]), rs[k].pages, Vacant(dirty))
  {
    var a, l, r, b, f := FreeParts(rs, k, dirty);
    assert rs[..k] == a + l;
    assert f == Run(Pages(l) + rs[k].pages + Pages(r), Unused, dirty);
    PagesConcat(a, l);
    Regroup(a, l, [rs[k]], r, b);
    FreedPages(rs, FreeAt(rs, k, dirty), a, l, rs[k], r, b, f, i, i + Pages(rs[..k]), dirty);
  }

  lemma FreedPages(v: seq<Run>, w: seq<Run>, a: seq<Run>, l: seq<Run>, x: Run, r: seq<Run>, b: seq<Run>, f: Run,
                   i: nat, o: nat, dirty: bool)
    requires forall j :: 0 <= j < |l| ==> l[j].Free() && l[j].dirty == dirty
    requires forall j :: 0 <= j < |r| ==> r[j].Free() && r[j].dirty == dirty
    requires f == Run(Pages(l) + x.pages + Pages(r), Unused, dirty)
    requires v == a + (l + [x] + r) + b && w == a + [f] + b && o == i + Pages(a) + Pages(l)
    ensures Painted(v, w, i, o, x.pages, Vacant(dirty))
  {
    var d, p := l + [x] + r, i + Pages(a);
    BothSides(d, l, x, r, p, o, dirty);
    Emptied(v, w, a, d, f, b, i, p, o, x.pages, dirty);
  }

  lemma Regroup(a: seq<Run>, l: seq<Run>, x: seq<Run>, r: seq<Run>, b: seq<Run>)
    ensures (a + l) + x + (r + b) == a + (l + x + r) + b
  {}

  /** The pages of the runs d are vacant but for n pages at o. */
  ghost predicate EmptyBut(d: seq<Run>, p: nat, o: nat, n: nat, dirty: bool)
  {
    forall q :: p <= q < p + Pages(d) && !(o <= q < o + n) ==> StatusAt(d, p, q) == Vacant(dirty)
  }

  lemma BothSides(d: seq<Run>, l: seq<Run>, x: Run, r: seq<Run>, p: nat, o: nat, dirty: bool)
    requires d == l + [x] + r && o == p + Pages(l)
    requires forall j :: 0 <= j < |l| ==> l[j].Free() && l[j].dirty == dirty
    requires forall j :: 0 <= j < |r| ==> r[j].Free() && r[j].dirty == dirty
    ensures Pages(d) == Pages(l) + x.pages + Pages(r) && EmptyBut(d, p, o, x.pages, dirty)
  {
    PagesOne(x);
    PagesMiddle(l, [x], r);
    forall q | p <= q < p + Pages(d) && !(o <= q < o + x.pages) ensures StatusAt(d, p, q) == Vacant(dirty)
    {
      Neighbour(l, x, r, p, dirty, q);
    }
  }

  /** An unallocated run in place of runs that were unallocated but for n pages at o. */
  lemma Emptied(v: seq<Run>, w: seq<Run>, a: seq<Run>, d: seq<Run>, f: Run, b: seq<Run>, i: nat, p: nat, o: nat,
                n: nat, dirty: bool)
    requires Pages(d) == f.pages && f.Free() && f.dirty == dirty && p == i + Pages(a) <= o && o + n <= p + f.pages
    requires EmptyBut(d, p, o, n, dirty) && v == a + d + b && w == a + [f] + b
    ensures Painted(v, w, i, o, n, Vacant(dirty))
  {
    OneWithin(f, p);
    Replaced(a, d, [f], b, i, f.pages, Vacant(f.dirty), Vacant(f.dirty));
    forall q | p <= q < p + f.pages && !(o <= q < o + n) ensures StatusAt(a + d + b, i, q) == Vacant(f.dirty) {
      AtMiddle(a, d, b, i, p, q);
    }
  }

  /** The pages beside a run whose neighbours are vacant. */
  lemma Neighbour(l: seq<Run>, x: Run, r: seq<Run>, p: nat, dirty: bool, q: nat)
    requires forall j :: 0 <= j < |l| ==> l[j].Free() && l[j].dirty == dirty
    requires forall j :: 0 <= j < |r| ==> r[j].Free() && r[j].dirty == dirty
    requires p <= q < p + Pages(l) + x.pages + Pages(r) && !(p + Pages(l) <= q < p + Pages(l) + x.pages)
    ensures Pages(l + [x] + r) == Pages(l) + x.pages + Pages(r)
    ensures StatusAt(l + [x] + r, p, q) == Vacant(dirty)
  {
    PagesOne(x);
    PagesMiddle(l, [x], r);
    if q < p + Pages(l) {
      AtBefore(l, [x], r, p, q);
      AllVacant(l, p, dirty, q);
    } else {
      AtBehind(l, [x], r, p, p + Pages(l) + x.pages, q);
      AllVacant(r, p + Pages(l) + x.pages, dirty, q);
    }
  }

  // --------------------------------------------------------- cuts and joins

  /** A large run cut in two. */
  lemma CutPaints(rs: seq<Run>, i: nat, k: nat, head: nat)
    requires k < |rs| && rs[k].kind == LargeRun && 0 < head < rs[k].pages
    ensures var r, p := rs[k], i + Pages(rs[..k]);
            PaintedTwo(rs, CutAt(rs, k, head), i, p, head, Owned(p, Run(head, LargeRun, r.dirty)),
                       r.pages - head, Owned(p + head, Run(r.pages - head, LargeRun, r.dirty)))
  {
    var a, x, b := rs[..k], rs[k], rs[k + 1..];
    var y, z, p := Run(head, LargeRun, x.dirty), Run(x.pages - head, LargeRun, x.dirty), i + Pages(a);
    assert rs == a + [x] + b && CutAt(rs, k, head) == a + ([y] + [z]) + b;
    PagesOne(x);
    TwoWithin(y, z, p);
    Replaced(a, [x], [y] + [z], b, i, head, StatusOf(y, p), StatusOf(z, p + head));
  }

  /** arena_run_trim_head: the first pages become vacant, and the rest is a run of its
      own. */
  lemma TrimHeadPaints(rs: seq<Run>, i: nat, k: nat, head: nat, dirty: bool)
    requires k < |rs| && rs[k].kind == LargeRun && 0 < head < rs[k].pages
    ensures var r, p := rs[k], i + Pages(rs[..k]);
            PaintedTwo(rs, FreeAt(CutAt(rs, k, head), k, dirty), i, p, head, Vacant(dirty),
                       r.pages - head, Owned(p + head, Run(r.pages - head, LargeRun, r.dirty)))
  {
    CutStarts(rs, k, head);
    CutPaints(rs, i, k, head);
    FreePaints(CutAt(rs, k, head), i, k, dirty);
  }

  /** arena_run_trim_tail: the last pages become vacant, and the run keeps the first. */
  lemma TrimTailPaints(rs: seq<Run>, i: nat, k: nat, head: nat, dirty: bool)
    requires k < |rs| && rs[k].kind == LargeRun && 0 < head < rs[k].pages
    ensures var r, p := rs[k], i + Pages(rs[..k]);
            PaintedTwo(rs, FreeAt(CutAt(rs, k, head), k + 1, dirty), i, p, head,
                       Owned(p, Run(head, LargeRun, r.dirty)), r.pages - head, Vacant(dirty))
  {
    CutStarts(rs, k, head);
    CutPaints(rs, i, k, head);
    FreePaints(CutAt(rs, k, head), i, k + 1, dirty);
  }

  /** Two runs made one. */
  lemma JoinPaints(rs: seq<Run>, i: nat, k: nat, dirty: bool)
    requires k + 1 < |rs|
    ensures var n, p := rs[k].pages + rs[k + 1].pages, i + Pages(rs[..k]);
            Painted(rs, JoinAt(rs, k, dirty), i, p, n, Owned(p, Run(n, LargeRun, dirty)))
  {
    var a, x, y, b := rs[..k], rs[k], rs[k + 1], rs[k + 2..];
    var z := Run(x.pages + y.pages, LargeRun, dirty);
    assert rs == a + ([x] + [y]) + b && JoinAt(rs, k, dirty) == a + [z] + b;
    PagesOne(x);
    PagesOne(y);
    PagesConcat([x], [y]);
    JoinedPages(a, [x] + [y], z, b, i);
  }

  lemma JoinedPages(a: seq<Run>, d: seq<Run>, z: Run, b: seq<Run>, i: nat)
    requires Pages(d) == z.pages
    ensures Painted(a + d + b, a + [z] + b, i, i + Pages(a), z.pages, StatusOf(z, i + Pages(a)))
  {
    OneWithin(z, i + Pages(a));
    Replaced(a, d, [z], b, i, z.pages, StatusOf(z, i + Pages(a)), StatusOf(z, i + Pages(a)));
  }

  /** arena_ralloc_large_grow: the run has as many pages more, and is dirty if either part
      was. */
  lemma GrowPaints(rs: seq<Run>, i: nat, k: nat, n: nat)
    requires k + 1 < |rs| && rs[k].kind == LargeRun && rs[k + 1].Free() && 0 < n <= rs[k + 1].pages
    ensures k + 1 < |SplitAt(rs, k + 1, n, LargeRun)|
    ensures var d, p := rs[k].dirty || rs[k + 1].dirty, i + Pages(rs[..k]);
            Painted(rs, JoinAt(SplitAt(rs, k + 1, n, LargeRun), k, d), i, p, rs[k].pages + n,
                    Owned(p, Run(rs[k].pages + n, LargeRun, d)))
  {
    var v := SplitAt(rs, k + 1, n, LargeRun);
    assert v[..k] == rs[..k] && v[k] == rs[k] && v[k + 1] == Run(n, LargeRun, rs[k + 1].dirty);
    NextStart(rs, k);
    SplitPaints(rs, i, k + 1, n, LargeRun);
    JoinPaints(v, i, k, rs[k].dirty || rs[k + 1].dirty);
  }

  // -------------------------------------------------------------------- purge

  /** A purge takes the dirty unallocated runs, all of them or those next to another
      unallocated run. */
  predicate Purgeable(rs: seq<Run>, k: nat, all: bool)
    requires k < |rs|
  {
    rs[k].Free() && rs[k].dirty && (all || (k > 0 && rs[k - 1].Free()) || (k + 1 < |rs| && rs[k + 1].Free()))
  }

  /** The runs with those of the first n clean that a purge takes. */
  function Cleaned(rs: seq<Run>, n: nat, all: bool): (v: seq<Run>)
    ensures |v| == |rs| && Pages(v) == Pages(rs)
  {
    var v := seq(|rs|, k requires 0 <= k < |rs| =>
                   if k < n && Purgeable(rs, k, all) then Run(rs[k].pages, Unused, false) else rs[k]);
    SamePages(v, rs);
    v
  }

  /** Page q is in one of the intervals. */
  predicate Covered(list: seq<nat>, sizes: seq<nat>, q: nat)
    requires |list| == |sizes|
  {
    exists x :: 0 <= x < |list| && list[x] <= q < list[x] + sizes[x]
  }

  lemma CoveredMore(list: seq<nat>, sizes: seq<nat>, p: nat, n: nat, q: nat)
    requires |list| == |sizes|
    ensures Covered(list + [p], sizes + [n], q) <==> Covered(list, sizes, q) || p <= q < p + n
  {
    var l, s := list + [p], sizes + [n];
    if Covered(list, sizes, q) {
      var x :| 0 <= x < |list| && list[x] <= q < list[x] + sizes[x];
      assert l[x] <= q < l[x] + s[x];
    }
    if p <= q < p + n { assert l[|list|] <= q < l[|list|] + s[|list|]; }
  }

  lemma CoveredRest(list: seq<nat>, sizes: seq<nat>, q: nat)
    requires |list| == |sizes| > 0
    ensures Covered(list, sizes, q) <==> Covered(list[1..], sizes[1..], q) || list[0] <= q < list[0] + sizes[0]
  {
    var l, s := list[1..], sizes[1..];
    if Covered(l, s, q) {
      var x :| 0 <= x < |l| && l[x] <= q < l[x] + s[x];
      assert list[x + 1] <= q < list[x + 1] + sizes[x + 1];
    }
    if Covered(list, sizes, q) && !(list[0] <= q < list[0] + sizes[0]) {
      var x :| 0 <= x < |list| && list[x] <= q < list[x] + sizes[x];
      assert l[x - 1] <= q < l[x - 1] + s[x - 1];
    }
  }

  /** When the listed intervals become vacant and clean, v is as w. */
  ghost predicate Cleans(v: seq<Run>, w: seq<Run>, i: nat, list: seq<nat>, sizes: seq<nat>)
  {
    && |list| == |sizes| && Pages(v) == Pages(w)
    && forall q :: i <= q < i + Pages(v) ==>
         StatusAt(w, i, q) == if Covered(list, sizes, q) then Vacant(false) else StatusAt(v, i, q)
  }

  lemma CleansNothing(v: seq<Run>, i: nat)
    ensures Cleans(v, v, i, [], [])
  {}

  /** Taking a run and putting it on the list. */
  lemma CleansMore(v: seq<Run>, w: seq<Run>, i: nat, list: seq<nat>, sizes: seq<nat>, v': seq<Run>, w': seq<Run>,
                   p: nat, n: nat, x: Status)
    requires Cleans(v, w, i, list, sizes) && Painted(v, v', i, p, n, x) && Painted(w, w', i, p, n, Vacant(false))
    ensures Cleans(v', w', i, list + [p], sizes + [n])
  {
    forall q | i <= q < i + Pages(v)
      ensures StatusAt(w', i, q) ==
              if Covered(list + [p], sizes + [n], q) then Vacant(false) else StatusAt(v', i, q)
    {
      CoveredMore(list, sizes, p, n, q);
    }
  }

  /** Freeing the first run of the list. */
  lemma CleansRest(v: seq<Run>, w: seq<Run>, i: nat, list: seq<nat>, sizes: seq<nat>, v': seq<Run>)
    requires Cleans(v, w, i, list, sizes) && list != [] && Painted(v, v', i, list[0], sizes[0], Vacant(false))
    ensures Cleans(v', w, i, list[1..], sizes[1..])
  {
    forall q | i <= q < i + Pages(v)
      ensures StatusAt(w, i, q) == if Covered(list[1..], sizes[1..], q) then Vacant(false) else StatusAt(v', i, q)
    {
      CoveredRest(list, sizes, q);
    }
  }

  /** One run in place of another. */
  lemma PaintRun(rs: seq<Run>, i: nat, k: nat, y: Run)
    requires k < |rs| && y.pages == rs[k].pages
    ensures var p := i + Pages(rs[..k]); Painted(rs, rs[k := y], i, p, y.pages, StatusOf(y, p))
  {
    var a, b := rs[..k], rs[k + 1..];
    assert rs == a + [rs[k]] + b && rs[k := y] == a + [y] + b;
    PagesOne(rs[k]);
    JoinedPages(a, [rs[k]], y, b, i);
  }

  /** One run more of the first n. */
  lemma CleanNext(rs: seq<Run>, i: nat, n: nat, all: bool)
    requires n < |rs|
    ensures Purgeable(rs, n, all) ==>
              Painted(Cleaned(rs, n, all), Cleaned(rs, n + 1, all), i, i + Pages(rs[..n]), rs[n].pages, Vacant(false))
    ensures !Purgeable(rs, n, all) ==> Cleaned(rs, n + 1, all) == Cleaned(rs, n, all)
  {
    var v, w := Cleaned(rs, n, all), Cleaned(rs, n + 1, all);
    if Purgeable(rs, n, all) {
      SamePages(v[..n], rs[..n]);
      assert w == v[n := Run(rs[n].pages, Unused, false)];
      PaintRun(v, i, n, Run(rs[n].pages, Unused, false));
    } else {
      assert v == w;
    }
  }

  /** The runs v in the course of a scan that began with rs and has come to run n. */
  ghost predicate Scanned(rs: seq<Run>, v: seq<Run>, n: nat, all: bool)
  {
    && |v| == |rs| && n <= |rs| && Coalesced(rs)
    && forall k :: 0 <= k < |rs| ==>
         v[k] == if k < n && Purgeable(rs, k, all) then Run(rs[k].pages, LargeRun, true) else rs[k]
  }

  /** The scan sees what was there at first: a run that it has taken is dirty, and does not
      touch another dirty one. */
  lemma SameSight(rs: seq<Run>, v: seq<Run>, n: nat, all: bool)
    requires Scanned(rs, v, n, all) && n < |rs|
    ensures Purgeable(v, n, all) <==> Purgeable(rs, n, all)
    ensures v[n] == rs[n]
  {
    if n > 0 && rs[n].Free() && rs[n - 1].Free() { CoalescedPair(rs, n - 1); }
  }

  /** The scan of chunk c, whose runs were rs, has come to run n: when the runs on its list
      are freed as clean, the first n runs are as they should be. */
  ghost predicate PurgeState(g: Layout, rs: seq<Run>, v: seq<Run>, n: nat, all: bool, list: seq<nat>, sizes: seq<nat>)
  {
    Scanned(rs, v, n, all) && Cleans(v, Cleaned(rs, n, all), g.bias, list, sizes)
  }

  lemma PurgeStarts(g: Layout, rs: seq<Run>, all: bool)
    requires Coalesced(rs)
    ensures PurgeState(g, rs, rs, 0, all, [], [])
  {
    assert Cleaned(rs, 0, all) == rs;
    CleansNothing(rs, g.bias);
  }

  lemma PurgeTaken(g: Layout, rs: seq<Run>, v: seq<Run>, n: nat, all: bool, list: seq<nat>, sizes: seq<nat>, p: nat)
    requires PurgeState(g, rs, v, n, all, list, sizes) && n < |rs| && Purgeable(v, n, all)
    requires p == g.bias + Pages(v[..n])
    ensures var y := Run(v[n].pages, LargeRun, true);
            PurgeState(g, rs, v[n := y], n + 1, all, list + [p], sizes + [y.pages])
  {
    var y := Run(v[n].pages, LargeRun, true);
    SameSight(rs, v, n, all);
    SamePages(v[..n], rs[..n]);
    PaintRun(v, g.bias, n, y);
    CleanNext(rs, g.bias, n, all);
    CleansMore(v, Cleaned(rs, n, all), g.bias, list, sizes, v[n := y], Cleaned(rs, n + 1, all), p, y.pages,
               Owned(p, y));
  }

  lemma PurgePassed(g: Layout, rs: seq<Run>, v: seq<Run>, n: nat, all: bool, list: seq<nat>, sizes: seq<nat>)
    requires PurgeState(g, rs, v, n, all, list, sizes) && n < |rs| && !Purgeable(v, n, all)
    ensures PurgeState(g, rs, v, n + 1, all, list, sizes)
  {
    SameSight(rs, v, n, all);
    CleanNext(rs, g.bias, n, all);
  }

  /** All pages of two lists of runs are alike. */
  ghost predicate SameStatus(v: seq<Run>, w: seq<Run>, i: nat)
  {
    Pages(v) == Pages(w) && forall q :: i <= q < i + Pages(v) ==> StatusAt(v, i, q) == StatusAt(w, i, q)
  }

  lemma CleansEnd(v: seq<Run>, w: seq<Run>, i: nat)
    requires Cleans(v, w, i, [], [])
    ensures SameStatus(v, w, i)
  {
    forall q | i <= q < i + Pages(v) ensures StatusAt(v, i, q) == StatusAt(w, i, q) {
      assert !Covered([], [], q);
    }
  }

  // ----------------------------------------------------------- region headers

  /** A page of a small run leads to the first page of the run and to its bin. */
  lemma RegionPage(g: Layout, s: State, c: nat, k: nat, p: nat, q: nat)
    requires Ok(g, s) && c in s.chunks && At(g, s.runs[c], k, p) && s.runs[c][k].kind.SmallRun?
    requires p <= q < p + s.runs[c][k].pages
    ensures q < |s.chunks[c].pagemap| && s.chunks[c].pagemap[q].Small?
    ensures s.chunks[c].pagemap[q].runind == q - p && s.chunks[c].pagemap[q].binind == s.runs[c][k].kind.binind
  {
    var m, b := s.chunks[c].pagemap, s.runs[c][k].kind.binind;
    Mapped(g, s, c);
    Located(g, m, s.runs[c], k, p);
    assert SmallPage(m, p, q - p, b);
  }
}
