/** Partial quicksort: src/pqsort.c.  Element addresses become array indices,
    and the swap helpers, which differ only in the width they copy at a time,
    become the exchange of two elements. */
module PqSort {

  // ---------------------------------------------------------- specification

  /** The order a comparison function must describe for the result to mean
      anything.  Bounds, termination and permutation do not depend on it. */
  ghost predicate TotalPreorder<T(!new)>(cmp: (T, T) -> int)
  {
    && (forall x, y :: cmp(x, y) < 0 <==> cmp(y, x) > 0)
    && (forall x, y, z :: cmp(x, y) <= 0 && cmp(y, z) <= 0 ==> cmp(x, z) <= 0)
  }

  /** s[k] is where a full sort of s[lo..hi] could leave it. */
  ghost predicate InPlace<T(!new)>(s: seq<T>, cmp: (T, T) -> int, lo: nat, hi: nat, k: int)
    requires lo <= k < hi <= |s|
  {
    && (forall i :: lo <= i < k ==> cmp(s[i], s[k]) <= 0)
    && (forall j :: k < j < hi ==> cmp(s[k], s[j]) <= 0)
  }

  /** Membership in the closed range between lr and rr, given in any order. */
  predicate Requested(lr: nat, rr: nat, k: int)
  {
    lr <= k <= rr || rr <= k <= lr
  }

  ghost predicate AllInPlace<T(!new)>(s: seq<T>, cmp: (T, T) -> int, lo: nat, hi: nat, lr: nat, rr: nat)
    requires lo <= hi <= |s|
  {
    forall k :: lo <= k < hi && Requested(lr, rr, k) ==> InPlace(s, cmp, lo, hi, k)
  }

  /** `after` permutes `before` within [lo, hi) and equals it elsewhere. */
  ghost predicate Rearranged<T>(before: seq<T>, after: seq<T>, lo: nat, hi: nat)
  {
    && lo <= hi <= |before| == |after|
    && before[..lo] == after[..lo] && before[hi..] == after[hi..]
    && multiset(before[lo..hi]) == multiset(after[lo..hi])
  }

  ghost predicate Each<T(!new)>(s: seq<T>, lo: nat, hi: nat, p: T -> bool)
    requires lo <= hi <= |s|
  {
    forall i :: lo <= i < hi ==> p(s[i])
  }

  lemma RearrangedEach<T(!new)>(before: seq<T>, after: seq<T>, lo: nat, hi: nat, p: T -> bool)
    requires Rearranged(before, after, lo, hi) && Each(before, lo, hi, p)
    ensures Each(after, lo, hi, p)
  {
    forall i | lo <= i < hi ensures p(after[i]) {
      assert after[i] == after[lo..hi][i - lo];
      assert after[i] in multiset(before[lo..hi]);
      assert after[i] in before[lo..hi];
    }
  }

  lemma RearrangedWiden<T>(before: seq<T>, after: seq<T>, lo: nat, hi: nat, lo': nat, hi': nat)
    requires Rearranged(before, after, lo, hi) && lo' <= lo && hi <= hi' <= |before|
    ensures Rearranged(before, after, lo', hi')
  {
    assert before[..lo'] == before[..lo][..lo'] && after[..lo'] == after[..lo][..lo'];
    assert before[hi'..] == before[hi..][hi' - hi..] && after[hi'..] == after[hi..][hi' - hi..];
    assert before[lo'..lo] == before[..lo][lo'..] && after[lo'..lo] == after[..lo][lo'..];
    assert before[hi..hi'] == before[hi..][..hi' - hi] && after[hi..hi'] == after[hi..][..hi' - hi];
    assert before[lo'..hi'] == before[lo'..lo] + before[lo..hi] + before[hi..hi'];
    assert after[lo'..hi'] == after[lo'..lo] + after[lo..hi] + after[hi..hi'];
  }

  lemma SwapRearranges<T>(s: seq<T>, i: nat, j: nat, lo: nat, hi: nat)
    requires lo <= i < hi <= |s| && lo <= j < hi
    ensures Rearranged(s, s[i := s[j]][j := s[i]], lo, hi)
  {
    var t := s[i := s[j]][j := s[i]];
    var b := s[lo..hi];
    assert t[lo..hi] == b[i - lo := b[j - lo]][j - lo := b[i - lo]];
  }

  // ------------------------------------------------------------------ swaps

  method Swap<T>(a: array<T>, i: nat, j: nat, ghost lo: nat, ghost hi: nat)
    requires lo <= i < hi <= a.Length && lo <= j < hi
    modifies a
    ensures a[i] == old(a[j]) && a[j] == old(a[i])
    ensures forall k :: 0 <= k < a.Length && k != i && k != j ==> a[k] == old(a[k])
    ensures Rearranged(old(a[..]), a[..], lo, hi)
  {
    SwapRearranges(a[..], i, j, lo, hi);
    ghost var s := a[..];
    a[i], a[j] := a[j], a[i];
    assert a[..] == s[i := s[j]][j := s[i]];
  }

  /** vecswap: exchanges two disjoint stretches of r elements. */
  method VecSwap<T>(a: array<T>, i: nat, j: nat, r: nat, ghost lo: nat, ghost hi: nat)
    requires lo <= i && i + r <= j && j + r <= hi <= a.Length
    modifies a
    ensures Rearranged(old(a[..]), a[..], lo, hi)
    ensures Exchanged(old(a[..]), a[..], i, j, r)
  {
    var n := 0;
    while n < r
      invariant n <= r
      invariant Rearranged(old(a[..]), a[..], lo, hi)
      invariant Exchanged(old(a[..]), a[..], i, j, n)
    {
      ghost var mid := a[..];
      Swap(a, i + n, j + n, lo, hi);
      ExchangeOne(old(a[..]), mid, a[..], i, j, n);
      n := n + 1;
    }
  }

  ghost predicate Exchanged<T>(before: seq<T>, after: seq<T>, i: nat, j: nat, r: nat)
    requires i + r <= j && j + r <= |before| == |after|
  {
    && (forall k :: i <= k < i + r ==> after[k] == before[k + (j - i)])
    && (forall k :: j <= k < j + r ==> after[k] == before[k - (j - i)])
    && (forall k :: 0 <= k < |before| && !(i <= k < i + r) && !(j <= k < j + r) ==> after[k] == before[k])
  }

  lemma ExchangeOne<T>(before: seq<T>, mid: seq<T>, after: seq<T>, i: nat, j: nat, n: nat)
    requires i + n < j && j + n < |before| == |mid| == |after|
    requires Exchanged(before, mid, i, j, n)
    requires after[i + n] == mid[j + n] && after[j + n] == mid[i + n]
    requires forall k :: 0 <= k < |mid| && k != i + n && k != j + n ==> after[k] == mid[k]
    ensures Exchanged(before, after, i, j, n + 1)
  {
    assert mid[j + n] == before[j + n] && mid[i + n] == before[i + n];
    assert after[i + n] == before[i + n + (j - i)] && after[j + n] == before[j + n - (j - i)];
  }

  // ------------------------------------------------------------------ pivot

  ghost predicate Between<T>(cmp: (T, T) -> int, x: T, m: T, y: T)
  {
    (cmp(x, m) <= 0 && cmp(m, y) <= 0) || (cmp(y, m) <= 0 && cmp(m, x) <= 0)
  }

  /** The index of a median of three elements. */
  function Med3<T(!new)>(s: seq<T>, cmp: (T, T) -> int, a: nat, b: nat, c: nat): (m: nat)
    requires a < |s| && b < |s| && c < |s|
    ensures m == a || m == b || m == c
    ensures TotalPreorder(cmp) ==>
              || (m == a && Between(cmp, s[b], s[a], s[c]))
              || (m == b && Between(cmp, s[a], s[b], s[c]))
              || (m == c && Between(cmp, s[a], s[c], s[b]))
  {
    if cmp(s[a], s[b]) < 0 then
      if cmp(s[b], s[c]) < 0 then b else if cmp(s[a], s[c]) < 0 then c else a
    else
      if cmp(s[b], s[c]) > 0 then b else if cmp(s[a], s[c]) < 0 then a else c
  }

  /** The middle element of small blocks, the median of three of medium ones and
      the pseudo-median of nine of large ones: pqsort.c:114-125. */
  function Pivot<T(!new)>(s: seq<T>, cmp: (T, T) -> int, lo: nat, n: nat): (m: nat)
    requires 7 <= n && lo + n <= |s|
    ensures lo <= m < lo + n
  {
    var mid := lo + n / 2;
    if n == 7 then mid
    else if n <= 40 then Med3(s, cmp, lo, mid, lo + n - 1)
    else
      var d, last := n / 8, lo + n - 1;
      Med3(s, cmp, Med3(s, cmp, lo, lo + d, lo + 2 * d), Med3(s, cmp, mid - d, mid, mid + d),
           Med3(s, cmp, last - 2 * d, last - d, last))
  }

  // -------------------------------------------------------------- partition

  /** The four stretches of the scan, as compared with the pivot at s[lo]:
      equal in [lo, pa), less in [pa, pb), greater in (pc, pd] and equal in
      (pd, hi).  [pb, pc] is not yet scanned. */
  ghost predicate Buckets<T(!new)>(s: seq<T>, cmp: (T, T) -> int, p: T, lo: nat, hi: nat, pa: nat, pb: nat, pc: int,
                                   pd: int)
  {
    && lo < pa <= pb <= pc + 1 <= pd + 1 <= hi <= |s| && s[lo] == p
    && (forall i :: lo < i < pa ==> cmp(s[i], p) == 0)
    && (forall i :: pa <= i < pb ==> cmp(s[i], p) < 0)
    && (forall i :: pc < i <= pd ==> cmp(s[i], p) > 0)
    && (forall i :: pd < i < hi ==> cmp(s[i], p) == 0)
  }

  /** pqsort.c:131-137. */
  method ScanUp<T(!new)>(a: array<T>, cmp: (T, T) -> int, lo: nat, ghost hi: nat, pa0: nat, pb0: nat, pc: int,
                         ghost pd: int)
    returns (pa: nat, pb: nat)
    requires lo < hi <= a.Length && Buckets(a[..], cmp, a[lo], lo, hi, pa0, pb0, pc, pd)
    modifies a
    ensures a[lo] == old(a[lo]) && Buckets(a[..], cmp, a[lo], lo, hi, pa, pb, pc, pd)
    ensures Rearranged(old(a[..]), a[..], lo, hi)
    ensures pb0 <= pb && (pb <= pc ==> cmp(a[pb], a[lo]) > 0)
  {
    pa, pb := pa0, pb0;
    while pb <= pc && cmp(a[pb], a[lo]) <= 0
      invariant a[lo] == old(a[lo]) && Buckets(a[..], cmp, a[lo], lo, hi, pa, pb, pc, pd)
      invariant pb0 <= pb && Rearranged(old(a[..]), a[..], lo, hi)
    {
      if cmp(a[pb], a[lo]) == 0 {
        Swap(a, pa, pb, lo, hi);
        pa := pa + 1;
      }
      pb := pb + 1;
    }
  }

  /** pqsort.c:138-144. */
  method ScanDown<T(!new)>(a: array<T>, cmp: (T, T) -> int, lo: nat, ghost hi: nat, ghost pa: nat, pb: nat, pc0: int,
                           pd0: int)
    returns (pc: int, pd: int)
    requires lo < hi <= a.Length && Buckets(a[..], cmp, a[lo], lo, hi, pa, pb, pc0, pd0)
    requires pb <= pc0 ==> cmp(a[pb], a[lo]) > 0
    modifies a
    ensures a[lo] == old(a[lo]) && Buckets(a[..], cmp, a[lo], lo, hi, pa, pb, pc, pd)
    ensures Rearranged(old(a[..]), a[..], lo, hi)
    ensures pc <= pc0 && (pb <= pc ==> pb < pc && cmp(a[pb], a[lo]) > 0 && cmp(a[pc], a[lo]) < 0)
  {
    pc, pd := pc0, pd0;
    while pb <= pc && cmp(a[pc], a[lo]) >= 0
      invariant a[lo] == old(a[lo]) && Buckets(a[..], cmp, a[lo], lo, hi, pa, pb, pc, pd)
      invariant Rearranged(old(a[..]), a[..], lo, hi)
      invariant pc <= pc0 && (pb <= pc ==> cmp(a[pb], a[lo]) > 0)
      decreases pc - lo
    {
      if cmp(a[pc], a[lo]) == 0 {
        Swap(a, pc, pd, lo, hi);
        pd := pd - 1;
      }
      pc := pc - 1;
    }
  }

  /** The outcome of partitioning [lo, hi) around p. */
  ghost predicate Partitioned<T(!new)>(s: seq<T>, cmp: (T, T) -> int, p: T, lo: nat, hi: nat, left: nat, right: nat)
  {
    && lo + left < hi - right && hi <= |s|
    && (forall i :: lo <= i < lo + left ==> cmp(s[i], p) < 0)
    && (forall i :: lo + left <= i < hi - right ==> s[i] == p || cmp(s[i], p) == 0)
    && (forall i :: hi - right <= i < hi ==> cmp(s[i], p) > 0)
  }

  /** pqsort.c:126-156. */
  method Partition<T(!new)>(a: array<T>, cmp: (T, T) -> int, lo: nat, hi: nat)
    returns (ghost p: T, left: nat, right: nat)
    requires lo + 7 <= hi <= a.Length
    modifies a
    ensures Partitioned(a[..], cmp, p, lo, hi, left, right)
    ensures Rearranged(old(a[..]), a[..], lo, hi)
  {
    Swap(a, lo, Pivot(a[..], cmp, lo, hi - lo), lo, hi);
    p := a[lo];
    var pa, pb, pc, pd := Scan(a, cmp, lo, hi);
    Gather(a, cmp, p, lo, hi, pa, pb, pc, pd);
    left, right := pb - pa, pd - pc;
  }

  /** pqsort.c:127-150. */
  method Scan<T(!new)>(a: array<T>, cmp: (T, T) -> int, lo: nat, hi: nat)
    returns (pa: nat, pb: nat, pc: int, pd: int)
    requires lo + 2 <= hi <= a.Length
    modifies a
    ensures Buckets(a[..], cmp, old(a[lo]), lo, hi, pa, pb, pc, pd) && pb == pc + 1
    ensures Rearranged(old(a[..]), a[..], lo, hi)
  {
    pa, pb, pc, pd := lo + 1, lo + 1, hi - 1, hi - 1;
    while true
      invariant a[lo] == old(a[lo]) && Buckets(a[..], cmp, a[lo], lo, hi, pa, pb, pc, pd)
      invariant Rearranged(old(a[..]), a[..], lo, hi)
      decreases pc + 1 - pb
    {
      pa, pb := ScanUp(a, cmp, lo, hi, pa, pb, pc, pd);
      pc, pd := ScanDown(a, cmp, lo, hi, pa, pb, pc, pd);
      if pb > pc { break; }
      SwapInward(a, cmp, lo, hi, pa, pb, pc, pd);
      pb := pb + 1;
      pc := pc - 1;
    }
  }

  method SwapInward<T(!new)>(a: array<T>, ghost cmp: (T, T) -> int, ghost lo: nat, ghost hi: nat, ghost pa: nat,
                             pb: nat, pc: int, ghost pd: int)
    requires lo < hi <= a.Length && Buckets(a[..], cmp, a[lo], lo, hi, pa, pb, pc, pd)
    requires pb < pc && cmp(a[pb], a[lo]) > 0 && cmp(a[pc], a[lo]) < 0
    modifies a
    ensures a[lo] == old(a[lo]) && Buckets(a[..], cmp, a[lo], lo, hi, pa, pb + 1, pc - 1, pd)
    ensures Rearranged(old(a[..]), a[..], lo, hi)
  {
    Swap(a, pb, pc, lo, hi);
  }

  /** Moves the two equal stretches to the middle: pqsort.c:152-156. */
  method Gather<T(!new)>(a: array<T>, ghost cmp: (T, T) -> int, ghost p: T, lo: nat, hi: nat, pa: nat, pb: nat,
                         pc: int, pd: int)
    requires hi <= a.Length && Buckets(a[..], cmp, p, lo, hi, pa, pb, pc, pd) && pb == pc + 1
    modifies a
    ensures Partitioned(a[..], cmp, p, lo, hi, pb - pa, pd - pc)
    ensures Rearranged(old(a[..]), a[..], lo, hi)
  {
    ghost var s := a[..];
    GatherLow(a, cmp, p, lo, hi, pa, pb);
    ghost var t := a[..];
    GatherHigh(a, cmp, p, lo, hi, pb, pc, pd);
    assert forall i :: lo <= i < pb ==> a[..][i] == t[i];
  }

  method GatherLow<T(!new)>(a: array<T>, ghost cmp: (T, T) -> int, ghost p: T, lo: nat, ghost hi: nat, pa: nat, pb: nat)
    requires lo < pa <= pb <= hi <= a.Length
    requires forall i :: lo <= i < pa ==> a[i] == p || cmp(a[i], p) == 0
    requires forall i :: pa <= i < pb ==> cmp(a[i], p) < 0
    modifies a
    ensures forall i :: lo <= i < lo + (pb - pa) ==> cmp(a[i], p) < 0
    ensures forall i :: lo + (pb - pa) <= i < pb ==> a[i] == p || cmp(a[i], p) == 0
    ensures forall i :: pb <= i < hi ==> a[i] == old(a[i])
    ensures Rearranged(old(a[..]), a[..], lo, hi)
  {
    ghost var s := a[..];
    var r := if pa - lo < pb - pa then pa - lo else pb - pa;
    VecSwap(a, lo, pb - r, r, lo, hi);
    ghost var t := a[..];
    forall i | lo <= i < lo + (pb - pa) ensures cmp(t[i], p) < 0 {
      assert t[i] == if i < lo + r then s[i + (pb - r - lo)] else s[i];
    }
    forall i | lo + (pb - pa) <= i < pb ensures t[i] == p || cmp(t[i], p) == 0 {
      assert t[i] == if i < pb - r then s[i] else s[i - (pb - r - lo)];
    }
  }

  method GatherHigh<T(!new)>(a: array<T>, ghost cmp: (T, T) -> int, ghost p: T, ghost lo: nat, hi: nat, pb: nat,
                             pc: int, pd: int)
    requires lo < pb == pc + 1 <= pd + 1 <= hi <= a.Length
    requires forall i :: pc < i <= pd ==> cmp(a[i], p) > 0
    requires forall i :: pd < i < hi ==> cmp(a[i], p) == 0
    modifies a
    ensures forall i :: pb <= i < hi - (pd - pc) ==> cmp(a[i], p) == 0
    ensures forall i :: hi - (pd - pc) <= i < hi ==> cmp(a[i], p) > 0
    ensures forall i :: lo <= i < pb ==> a[i] == old(a[i])
    ensures Rearranged(old(a[..]), a[..], lo, hi)
  {
    ghost var s := a[..];
    var r := if pd - pc < hi - pd - 1 then pd - pc else hi - pd - 1;
    VecSwap(a, pb, hi - r, r, lo, hi);
    ghost var t := a[..];
    forall i | hi - (pd - pc) <= i < hi ensures cmp(t[i], p) > 0 {
      assert t[i] == if i < hi - r then s[i] else s[i - (hi - r - pb)];
    }
    forall i | pb <= i < hi - (pd - pc) ensures cmp(t[i], p) == 0 {
      assert t[i] == if i < pb + r then s[i + (hi - r - pb)] else s[i];
    }
  }

  // ------------------------------------------------------------ small blocks

  ghost predicate Sorted<T(!new)>(s: seq<T>, cmp: (T, T) -> int, lo: nat, hi: nat)
    requires hi <= |s|
  {
    forall i, j :: lo <= i < j < hi ==> cmp(s[i], s[j]) <= 0
  }

  /** pqsort.c:107-113. */
  method InsertionSort<T(!new)>(a: array<T>, cmp: (T, T) -> int, lo: nat, hi: nat)
    requires lo < hi <= a.Length
    modifies a
    ensures Rearranged(old(a[..]), a[..], lo, hi)
    ensures TotalPreorder(cmp) ==> Sorted(a[..], cmp, lo, hi)
  {
    var pm := lo + 1;
    while pm < hi
      invariant lo < pm <= hi
      invariant Rearranged(old(a[..]), a[..], lo, hi)
      invariant TotalPreorder(cmp) ==> Sorted(a[..], cmp, lo, pm)
    {
      ghost var s := a[..];
      var pl := Sink(a, cmp, lo, pm, hi);
      if TotalPreorder(cmp) {
        SunkOrders(s, a[..], cmp, lo, pl, pm);
        SunkSorts(s, a[..], cmp, lo, pl, pm);
      }
      pm := pm + 1;
    }
  }

  /** Moves s[pm] down to index pl, past the elements that exceed it. */
  ghost predicate Sunk<T>(s: seq<T>, t: seq<T>, cmp: (T, T) -> int, lo: nat, pl: nat, pm: nat)
  {
    && lo <= pl <= pm < |s| == |t| && t[pl] == s[pm]
    && (forall i :: pl <= i < pm ==> t[i + 1] == s[i] && cmp(s[i], s[pm]) > 0)
    && (forall i :: 0 <= i < |s| && (i < pl || pm < i) ==> t[i] == s[i])
  }

  /** pqsort.c:109-111. */
  method Sink<T(!new)>(a: array<T>, cmp: (T, T) -> int, lo: nat, pm: nat, ghost hi: nat) returns (pl: nat)
    requires lo < pm < hi <= a.Length
    modifies a
    ensures Rearranged(old(a[..]), a[..], lo, hi)
    ensures Sunk(old(a[..]), a[..], cmp, lo, pl, pm)
    ensures pl > lo ==> cmp(a[pl - 1], a[pl]) <= 0
  {
    pl := pm;
    while pl > lo && cmp(a[pl - 1], a[pl]) > 0
      invariant lo <= pl <= pm
      invariant Rearranged(old(a[..]), a[..], lo, hi)
      invariant Sunk(old(a[..]), a[..], cmp, lo, pl, pm)
    {
      Swap(a, pl, pl - 1, lo, hi);
      pl := pl - 1;
    }
  }

  lemma SunkOrders<T(!new)>(s: seq<T>, t: seq<T>, cmp: (T, T) -> int, lo: nat, pl: nat, pm: nat)
    requires TotalPreorder(cmp) && Sunk(s, t, cmp, lo, pl, pm) && Sorted(s, cmp, lo, pm)
    requires pl > lo ==> cmp(t[pl - 1], t[pl]) <= 0
    ensures forall i :: lo <= i < pl ==> cmp(s[i], t[pl]) <= 0
    ensures forall i :: pl <= i < pm ==> cmp(t[pl], s[i]) <= 0
  {
    forall i | lo <= i < pl ensures cmp(s[i], t[pl]) <= 0 {
      assert t[pl - 1] == s[pl - 1];
      if i < pl - 1 { assert cmp(s[i], s[pl - 1]) <= 0; }
    }
  }

  lemma SunkSorts<T(!new)>(s: seq<T>, t: seq<T>, cmp: (T, T) -> int, lo: nat, pl: nat, pm: nat)
    requires Sunk(s, t, cmp, lo, pl, pm) && Sorted(s, cmp, lo, pm)
    requires forall i :: lo <= i < pl ==> cmp(s[i], t[pl]) <= 0
    requires forall i :: pl <= i < pm ==> cmp(t[pl], s[i]) <= 0
    ensures Sorted(t, cmp, lo, pm + 1)
  {
    forall i, j | lo <= i < j < pm + 1 ensures cmp(t[i], t[j]) <= 0 {
      assert i < pl ==> t[i] == s[i];
      assert i > pl ==> t[i - 1 + 1] == s[i - 1];
      assert j < pl ==> t[j] == s[j];
      assert j > pl ==> t[j - 1 + 1] == s[j - 1];
    }
  }

  // --------------------------------------------------------------- the sort

  /** The range test of pqsort.c:158-160 and 170-173 on byte addresses: lrange is
      the first byte of element lr, rrange the last byte of element rr, and the
      part holds the elements lo..hi-1 of es bytes each. */
  predicate Pruned(es: nat, lr: nat, rr: nat, lo: nat, hi: nat)
  {
    var lrange, rrange, l, r := lr * es, (rr + 1) * es - 1, lo * es, hi * es - 1;
    (lrange < l && rrange < l) || (lrange > r && rrange > r)
  }

  lemma PrunedMisses(es: nat, lr: nat, rr: nat, lo: nat, hi: nat)
    requires 0 < es && lo < hi
    ensures Pruned(es, lr, rr, lo, hi) <==> forall k :: lo <= k < hi ==> !Requested(lr, rr, k)
  {
    Scale(es, lr, lo);
    Scale(es, rr + 1, lo + 1);
    Scale(es, rr + 1, lo);
    Scale(es, lr, hi);
    Scale(es, rr + 1, hi);
    Scale(es, hi, lr);
    Scale(es, hi, rr + 1);
    Scale(es, lo, rr + 1);
    if lr < lo && rr < lo {
    } else if lr >= hi && rr >= hi {
    } else {
      var k := if lo <= lr < hi then lr else if lo <= rr < hi then rr else lo;
      assert lo <= k < hi && Requested(lr, rr, k);
    }
  }

  lemma Scale(es: nat, x: nat, y: nat)
    requires 0 < es
    ensures x < y ==> x * es + es <= y * es
    ensures x >= y ==> x * es >= y * es
  {
    var d := if x < y then y - x - 1 else x - y;
    assert d * es >= 0;
    if x < y {
      assert y == x + 1 + d;
      assert (x + 1 + d) * es == x * es + es + d * es;
    } else {
      assert x == y + d;
      assert (y + d) * es == y * es + d * es;
    }
  }

  /** The part below l is finished: nothing in it exceeds anything from l on, and
      its requested elements are in place in the whole block. */
  ghost predicate Settled<T(!new)>(s: seq<T>, cmp: (T, T) -> int, lo: nat, l: nat, hi: nat, lr: nat, rr: nat)
  {
    && lo <= l <= hi <= |s|
    && (forall i, j :: lo <= i < l <= j < hi ==> cmp(s[i], s[j]) <= 0)
    && (forall k :: lo <= k < l && Requested(lr, rr, k) ==> InPlace(s, cmp, lo, hi, k))
  }

  lemma SettledTransfer<T(!new)>(s: seq<T>, t: seq<T>, cmp: (T, T) -> int, lo: nat, l: nat, hi: nat, lr: nat, rr: nat)
    requires Settled(s, cmp, lo, l, hi, lr, rr) && Rearranged(s, t, l, hi)
    ensures Settled(t, cmp, lo, l, hi, lr, rr)
  {
    forall i | lo <= i < l
      ensures t[i] == s[i] && forall j :: l <= j < hi ==> cmp(t[i], t[j]) <= 0
    {
      assert t[i] == t[..l][i] && s[i] == s[..l][i];
      RearrangedEach(s, t, l, hi, y => cmp(s[i], y) <= 0);
    }
    forall k | lo <= k < l && Requested(lr, rr, k) ensures InPlace(t, cmp, lo, hi, k) {
      assert InPlace(s, cmp, lo, hi, k);
    }
  }

  lemma SettledCompose<T(!new)>(s: seq<T>, cmp: (T, T) -> int, lo: nat, l: nat, l': nat, hi: nat, lr: nat, rr: nat)
    requires Settled(s, cmp, lo, l, hi, lr, rr) && Settled(s, cmp, l, l', hi, lr, rr)
    ensures Settled(s, cmp, lo, l', hi, lr, rr)
  {
    forall k | lo <= k < l' && Requested(lr, rr, k) ensures InPlace(s, cmp, lo, hi, k) {
      if k < l {
        assert InPlace(s, cmp, lo, hi, k);
      } else {
        assert InPlace(s, cmp, l, hi, k);
      }
    }
  }

  /** pqsort on a block: `s` ends up permuted, and under a total preorder every
      requested index holds what the full sort would put there. */
  method SortBlock<T(!new)>(a: array<T>, lo: nat, n: nat, es: nat, cmp: (T, T) -> int, lr: nat, rr: nat)
    requires lo + n <= a.Length && 0 < es
    modifies a
    ensures Rearranged(old(a[..]), a[..], lo, lo + n)
    ensures TotalPreorder(cmp) ==> AllInPlace(a[..], cmp, lo, lo + n, lr, rr)
    decreases n, 1
  {
    var l, hi := lo, lo + n;
    while l < hi
      invariant lo <= l <= hi
      invariant Rearranged(old(a[..]), a[..], lo, hi)
      invariant TotalPreorder(cmp) ==> Settled(a[..], cmp, lo, l, hi, lr, rr)
    {
      ghost var s, l0 := a[..], l;
      l := SortStep(a, l, hi, es, cmp, lr, rr);
      RearrangedWiden(s, a[..], l0, hi, lo, hi);
      if TotalPreorder(cmp) {
        SettledTransfer(s, a[..], cmp, lo, l0, hi, lr, rr);
        SettledCompose(a[..], cmp, lo, l0, l, hi, lr, rr);
      }
    }
  }

  /** One round of `loop:`, pqsort.c:106-175.  Returns the start of the part that
      the next round works on, or hi when there is no next round. */
  method SortStep<T(!new)>(a: array<T>, l: nat, hi: nat, es: nat, cmp: (T, T) -> int, lr: nat, rr: nat)
    returns (l': nat)
    requires l < hi <= a.Length && 0 < es
    modifies a
    ensures l < l' <= hi
    ensures Rearranged(old(a[..]), a[..], l, hi)
    ensures TotalPreorder(cmp) ==> Settled(a[..], cmp, l, l', hi, lr, rr)
    decreases hi - l, 0
  {
    if hi - l < 7 {
      InsertionSort(a, cmp, l, hi);
      return hi;
    }
    var p, left, right := Partition(a, cmp, l, hi);
    ghost var s := a[..];
    SortPart(a, l, left, hi, es, cmp, lr, rr);
    l' := if right > 1 && !Pruned(es, lr, rr, hi - right, hi) then hi - right else hi;
    if TotalPreorder(cmp) {
      StepOrders(s, a[..], cmp, p, l, hi, left, right);
      StepSettles(a[..], cmp, l, hi, left, right, es, lr, rr, l');
    }
  }

  /** pqsort.c:157-162. */
  method SortPart<T(!new)>(a: array<T>, l: nat, left: nat, ghost hi: nat, es: nat, cmp: (T, T) -> int, lr: nat, rr: nat)
    requires l + left <= hi <= a.Length && 0 < es
    modifies a
    ensures Rearranged(old(a[..]), a[..], l, l + left) && Rearranged(old(a[..]), a[..], l, hi)
    ensures TotalPreorder(cmp) && left > 1 && !Pruned(es, lr, rr, l, l + left) ==>
              AllInPlace(a[..], cmp, l, l + left, lr, rr)
    decreases left, 2
  {
    ghost var s := a[..];
    if left > 1 && !Pruned(es, lr, rr, l, l + left) {
      SortBlock(a, l, left, es, cmp, lr, rr);
    }
    RearrangedWiden(s, a[..], l, l + left, l, hi);
  }

  /** Nothing in one of the three parts of a partition exceeds anything in a
      later part, and the middle part is all equivalent. */
  ghost predicate PartsOrdered<T(!new)>(s: seq<T>, cmp: (T, T) -> int, lo: nat, hi: nat, left: nat, right: nat)
  {
    && lo + left < hi - right && hi <= |s|
    && (forall i, j :: lo <= i < lo + left <= j < hi ==> cmp(s[i], s[j]) <= 0)
    && (forall i, j :: lo <= i < hi - right <= j < hi ==> cmp(s[i], s[j]) <= 0)
    && (forall i, j :: lo + left <= i < hi - right && lo + left <= j < hi - right ==> cmp(s[i], s[j]) <= 0)
  }

  lemma PartitionOrders<T(!new)>(s: seq<T>, cmp: (T, T) -> int, p: T, lo: nat, hi: nat, left: nat, right: nat)
    requires TotalPreorder(cmp) && Partitioned(s, cmp, p, lo, hi, left, right)
    ensures PartsOrdered(s, cmp, lo, hi, left, right)
  {
    forall i | lo <= i < hi - right ensures cmp(s[i], p) <= 0 {}
    forall j | lo + left <= j < hi ensures cmp(p, s[j]) <= 0 {}
  }

  lemma StepOrders<T(!new)>(s: seq<T>, t: seq<T>, cmp: (T, T) -> int, p: T, l: nat, hi: nat, left: nat, right: nat)
    requires TotalPreorder(cmp)
    requires Partitioned(s, cmp, p, l, hi, left, right) && Rearranged(s, t, l, l + left)
    ensures PartsOrdered(t, cmp, l, hi, left, right)
  {
    RearrangedEach(s, t, l, l + left, x => cmp(x, p) < 0);
    forall i | l + left <= i < hi ensures t[i] == s[i] {
      assert t[i] == t[l + left..][i - (l + left)] == s[l + left..][i - (l + left)];
    }
    PartitionOrders(t, cmp, p, l, hi, left, right);
  }

  lemma StepSettles<T(!new)>(s: seq<T>, cmp: (T, T) -> int, l: nat, hi: nat, left: nat, right: nat,
                             es: nat, lr: nat, rr: nat, l': nat)
    requires 0 < es && PartsOrdered(s, cmp, l, hi, left, right)
    requires left > 1 && !Pruned(es, lr, rr, l, l + left) ==> AllInPlace(s, cmp, l, l + left, lr, rr)
    requires l' == if right > 1 && !Pruned(es, lr, rr, hi - right, hi) then hi - right else hi
    ensures Settled(s, cmp, l, l', hi, lr, rr)
  {
    forall k | l <= k < l' && Requested(lr, rr, k) ensures InPlace(s, cmp, l, hi, k) {
      if k < l + left {
        PrunedMisses(es, lr, rr, l, l + left);
        assert InPlace(s, cmp, l, l + left, k);
      } else if k >= hi - right {
        PrunedMisses(es, lr, rr, hi - right, hi);
      }
    }
  }

  /** pqsort: sorts so that the elements with indices from lr to rr are final. */
  method PqSort<T(!new)>(a: array<T>, es: nat, cmp: (T, T) -> int, lr: nat, rr: nat)
    requires 0 < es
    modifies a
    ensures multiset(a[..]) == multiset(old(a[..]))
    ensures TotalPreorder(cmp) ==> AllInPlace(a[..], cmp, 0, a.Length, lr, rr)
  {
    SortBlock(a, 0, a.Length, es, cmp, lr, rr);
    assert a[..] == a[0..a.Length] && old(a[..]) == old(a[0..a.Length]);
  }

  // ------------------------------------------- what being in place means

  function Count<T>(s: seq<T>, p: T -> bool): (n: nat)
    ensures n <= |s|
  {
    if s == [] then 0 else (if p(s[0]) then 1 else 0) + Count(s[1..], p)
  }

  lemma {:induction false} CountConcat<T>(s: seq<T>, t: seq<T>, p: T -> bool)
    ensures Count(s + t, p) == Count(s, p) + Count(t, p)
    decreases |s|
  {
    if s == [] {
      assert s + t == t;
    } else {
      assert (s + t)[1..] == s[1..] + t;
      CountConcat(s[1..], t, p);
    }
  }

  lemma {:induction false} CountAll<T>(s: seq<T>, p: T -> bool, b: bool)
    requires forall i :: 0 <= i < |s| ==> p(s[i]) == b
    ensures Count(s, p) == if b then |s| else 0
    decreases |s|
  {
    if s == [] {
    } else {
      CountAll(s[1..], p, b);
    }
  }

  lemma RemoveAt<T>(t: seq<T>, j: nat)
    requires j < |t|
    ensures multiset(t) == multiset(t[..j] + t[j + 1..]) + multiset{t[j]}
  {
    assert t == t[..j] + [t[j]] + t[j + 1..];
  }

  lemma Cancel<T>(a: multiset<T>, b: multiset<T>, x: T)
    requires a + multiset{x} == b + multiset{x}
    ensures a == b
  {
    forall y | y in a || y in b ensures a[y] == b[y] {
      assert (a + multiset{x})[y] == (b + multiset{x})[y];
    }
  }

  /** The first element of s occurs in t, and the rests are permutations too. */
  lemma HeadMatches<T>(s: seq<T>, t: seq<T>) returns (j: nat)
    requires |s| > 0 && multiset(s) == multiset(t)
    ensures j < |t| && t[j] == s[0]
    ensures multiset(s[1..]) == multiset(t[..j] + t[j + 1..])
  {
    assert s[0] in multiset(t);
    j :| 0 <= j < |t| && t[j] == s[0];
    RemoveAt(t, j);
    RemoveAt(s, 0);
    assert s[..0] + s[1..] == s[1..];
    Cancel(multiset(s[1..]), multiset(t[..j] + t[j + 1..]), s[0]);
  }

  lemma CountRemoveAt<T>(t: seq<T>, j: nat, p: T -> bool)
    requires j < |t|
    ensures Count(t, p) == Count(t[..j] + t[j + 1..], p) + (if p(t[j]) then 1 else 0)
  {
    var tail := [t[j]] + t[j + 1..];
    AtIndex(t, j);
    CountConcat(t[..j], tail, p);
    CountConcat(t[..j], t[j + 1..], p);
    CountFirst(t[j], t[j + 1..], p);
  }

  lemma AtIndex<T>(t: seq<T>, j: nat)
    requires j < |t|
    ensures t == t[..j] + ([t[j]] + t[j + 1..])
  {}

  lemma CountFirst<T>(x: T, t: seq<T>, p: T -> bool)
    ensures Count([x] + t, p) == (if p(x) then 1 else 0) + Count(t, p)
  {
    assert ([x] + t)[1..] == t;
  }

  /** Counting depends on the elements only, not on their order. */
  lemma {:induction false} CountPermutation<T>(s: seq<T>, t: seq<T>, p: T -> bool)
    requires multiset(s) == multiset(t)
    ensures Count(s, p) == Count(t, p)
    decreases |s|
  {
    if s == [] {
      assert |multiset(t)| == 0;
    } else {
      var j := HeadMatches(s, t);
      CountRemoveAt(t, j, p);
      CountPermutation(s[1..], t[..j] + t[j + 1..], p);
    }
  }

  /** A predicate that holds of the first k + 1 elements of one arrangement holds
      somewhere from index k on in every other. */
  lemma RankClash<T>(s: seq<T>, t: seq<T>, p: T -> bool, k: nat)
    requires multiset(s) == multiset(t) && k < |s| == |t|
    requires forall i :: 0 <= i <= k ==> p(s[i])
    ensures exists i :: k <= i < |t| && p(t[i])
  {
    CountPermutation(s, t, p);
    assert s == s[..k + 1] + s[k + 1..] && t == t[..k] + t[k..];
    CountConcat(s[..k + 1], s[k + 1..], p);
    CountAll(s[..k + 1], p, true);
    CountConcat(t[..k], t[k..], p);
    if forall i :: k <= i < |t| ==> !p(t[i]) {
      CountAll(t[k..], p, false);
      assert false;
    }
  }

  lemma NotBelow<T(!new)>(s: seq<T>, t: seq<T>, cmp: (T, T) -> int, k: nat)
    requires TotalPreorder(cmp) && multiset(s) == multiset(t) && k < |s| == |t|
    requires InPlace(s, cmp, 0, |s|, k) && InPlace(t, cmp, 0, |t|, k)
    ensures cmp(s[k], t[k]) >= 0
  {
    if cmp(s[k], t[k]) < 0 {
      RankClash(s, t, x => cmp(x, s[k]) <= 0, k);
    }
  }

  /** An element in place is equivalent to the one a full sort puts at its
      index, whatever the two algorithms do with equivalent elements. */
  lemma InPlaceIsRank<T(!new)>(s: seq<T>, sorted: seq<T>, cmp: (T, T) -> int, k: nat)
    requires TotalPreorder(cmp) && multiset(s) == multiset(sorted) && k < |s| == |sorted|
    requires Sorted(sorted, cmp, 0, |sorted|)
    ensures InPlace(s, cmp, 0, |s|, k) ==> cmp(s[k], sorted[k]) == 0
  {
    if InPlace(s, cmp, 0, |s|, k) {
      NotBelow(s, sorted, cmp, k);
      NotBelow(sorted, s, cmp, k);
    }
  }

  /** The usual order of numbers as a comparison function. */
  function Difference(x: int, y: int): int
  {
    x - y
  }

  /** Of an array of numbers the part from lr to rr becomes what it is in sorted order: what
      is before it is not greater, and what is behind it not less, than each of its
      elements. */
  method SortNumbers(a: array<int>, es: nat, lr: nat, rr: nat)
    requires 0 < es
    modifies a
    ensures multiset(a[..]) == multiset(old(a[..]))
    ensures forall k, x :: lr <= k <= rr && k < a.Length && 0 <= x < a.Length ==>
              (x <= k ==> a[x] <= a[k]) && (k <= x ==> a[k] <= a[x])
  {
    PqSort(a, es, Difference, lr, rr);
    assert TotalPreorder(Difference);
    forall k, x | lr <= k <= rr && k < a.Length && 0 <= x < a.Length
      ensures (x <= k ==> a[x] <= a[k]) && (k <= x ==> a[k] <= a[x])
    {
      assert InPlace(a[..], Difference, 0, a.Length, k);
      assert a[..][x] == a[x] && a[..][k] == a[k];
    }
  }
}
