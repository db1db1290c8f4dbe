/** The cuckoo hash table of deps/jemalloc/src/ckh.c. */
module Ckh {
  import opened Options

  /** Cells in a bucket, a power of two that the header, which is not part of this
      model, derives from the cache line: four 16-byte cells in 64 bytes. */
  const CELLS := 4

  datatype Item<K, V> = Item(key: K, data: V)

  datatype Cell<K, V> = Empty | Full(item: Item<K, V>)

  /** Exhausted stands for an eviction chain that is cut off after the number of
      rounds given: the code has no such outcome, it goes on. */
  datatype Outcome = Done | Failed | Exhausted

  function Pow2(n: nat): (r: nat)
    ensures r > 0
  {
    if n == 0 then 1 else 2 * Pow2(n - 1)
  }

  // ---------------------------------------------------------------- contents

  ghost function Items<K(!new), V(!new)>(s: seq<Cell<K, V>>): set<Item<K, V>>
  {
    set i | 0 <= i < |s| && s[i].Full? :: s[i].item
  }

  /** No key occurs in two cells. */
  ghost predicate KeysDistinct<K(!new), V(!new)>(s: seq<Cell<K, V>>)
  {
    forall i, j :: 0 <= i < |s| && 0 <= j < |s| && s[i].Full? && s[j].Full? && s[i].item.key == s[j].item.key ==> i == j
  }

  /** No cell holds the key. */
  ghost predicate KeyFree<K(!new), V(!new)>(s: seq<Cell<K, V>>, k: K)
  {
    forall i :: 0 <= i < |s| && s[i].Full? ==> s[i].item.key != k
  }

  lemma StoreItems<K(!new), V(!new)>(s: seq<Cell<K, V>>, i: nat, x: Item<K, V>)
    requires i < |s| && s[i].Empty? && KeysDistinct(s) && KeyFree(s, x.key)
    ensures var t := s[i := Full(x)];
            KeysDistinct(t) && x !in Items(s) && Items(t) == Items(s) + {x}
  {
    var t := s[i := Full(x)];
    forall y ensures y in Items(t) <==> y in Items(s) + {x} {
      if y in Items(s) {
        var j :| 0 <= j < |s| && s[j] == Full(y);
        assert t[j] == Full(y);
      }
      if y == x { assert t[i] == Full(y); }
    }
  }

  lemma ClearItems<K(!new), V(!new)>(s: seq<Cell<K, V>>, i: nat)
    requires i < |s| && s[i].Full? && KeysDistinct(s)
    ensures var t := s[i := Empty];
            KeysDistinct(t) && KeyFree(t, s[i].item.key) && s[i].item in Items(s) && Items(t) == Items(s) - {s[i].item}
  {
    var t := s[i := Empty];
    forall y ensures y in Items(t) <==> y in Items(s) - {s[i].item} {
      if y in Items(s) {
        var j :| 0 <= j < |s| && s[j] == Full(y);
        assert j != i ==> t[j] == Full(y);
      }
    }
  }

  /** Storing over an item puts it in flight instead. */
  lemma ExchangeItems<K(!new), V(!new)>(s: seq<Cell<K, V>>, i: nat, x: Item<K, V>)
    requires i < |s| && s[i].Full? && KeysDistinct(s) && KeyFree(s, x.key)
    ensures var t := s[i := Full(x)];
            && KeysDistinct(t) && KeyFree(t, s[i].item.key) && |Items(t)| == |Items(s)|
            && Items(t) + {s[i].item} == Items(s) + {x}
  {
    var y, u := s[i].item, s[i := Empty];
    ClearItems(s, i);
    StoreItems(u, i, x);
    assert u[i := Full(x)] == s[i := Full(x)];
  }

  /** How many items one more cell of a table adds. */
  lemma ItemsStep<K(!new), V(!new)>(s: seq<Cell<K, V>>, i: nat)
    requires i <= |s| && KeysDistinct(s) && |Items(s[..i])| < |Items(s)|
    ensures i < |s|
    ensures s[i].Empty? ==> Items(s[..i + 1]) == Items(s[..i])
    ensures s[i].Full? ==> Items(s[..i + 1]) == Items(s[..i]) + {s[i].item} && s[i].item !in Items(s[..i])
    ensures |Items(s[..i + 1])| <= |Items(s)|
  {
    assert s[..|s|] == s;
    var a, b := s[..i], s[..i + 1];
    forall y ensures y in Items(b) <==> y in Items(a) || (s[i].Full? && y == s[i].item) {
      if y in Items(a) {
        var j :| 0 <= j < i && a[j] == Full(y);
        assert b[j] == Full(y);
      }
      if s[i].Full? && y == s[i].item { assert b[i] == Full(y); }
    }
    PrefixItems(s, i + 1);
  }

  lemma PrefixItems<K(!new), V(!new)>(s: seq<Cell<K, V>>, i: nat)
    requires i <= |s|
    ensures Items(s[..i]) <= Items(s) && |Items(s[..i])| <= |Items(s)|
  {
    forall y | y in Items(s[..i]) ensures y in Items(s) {
      var j :| 0 <= j < i && s[..i][j] == Full(y);
      assert s[j] == Full(y);
    }
    SubsetSize(Items(s[..i]), Items(s));
  }

  /** The key of a cell is in no table that holds the items of earlier cells only. */
  lemma FreshKey<K(!new), V(!new)>(s: seq<Cell<K, V>>, i: nat, t: seq<Cell<K, V>>)
    requires i < |s| && s[i].Full? && KeysDistinct(s) && Items(t) == Items(s[..i])
    ensures KeyFree(t, s[i].item.key)
  {
    forall j | 0 <= j < |t| && t[j].Full? ensures t[j].item.key != s[i].item.key {
      assert t[j].item in Items(s[..i]);
      var m :| 0 <= m < i && s[..i][m] == Full(t[j].item);
      assert s[m] == Full(t[j].item);
    }
  }

  lemma SubsetSize<T>(a: set<T>, b: set<T>)
    requires a <= b
    ensures |a| <= |b| && (|a| == |b| ==> a == b)
  {
    assert b == a + (b - a);
    assert |b| == |a| + |b - a|;
  }

  lemma SameItemsKeyFree<K(!new), V(!new)>(s: seq<Cell<K, V>>, t: seq<Cell<K, V>>, k: K)
    requires KeyFree(s, k) && Items(s) == Items(t)
    ensures KeyFree(t, k)
  {
    forall j | 0 <= j < |t| && t[j].Full? ensures t[j].item.key != k {
      assert t[j].item in Items(s);
    }
  }

  /** All cells of a bucket are taken. */
  ghost predicate FullIn<K(!new), V(!new)>(s: seq<Cell<K, V>>, bucket: nat)
    requires CELLS * bucket + CELLS <= |s|
  {
    forall i :: CELLS * bucket <= i < CELLS * bucket + CELLS ==> s[i].Full?
  }

  /** A cell of the bucket holds the item. */
  ghost predicate Holds<K(!new), V(!new)>(s: seq<Cell<K, V>>, bucket: nat, x: Item<K, V>)
  {
    exists i :: 0 <= i < |s| && i / CELLS == bucket && s[i] == Full(x)
  }

  /** An item was put into an empty cell, and nothing else changed. */
  ghost predicate StoredAt<K(!new), V(!new)>(s: seq<Cell<K, V>>, t: seq<Cell<K, V>>, c: nat, x: Item<K, V>)
  {
    c < |s| && s[c].Empty? && t == s[c := Full(x)]
  }

  /** The cells outside a bucket are the same. */
  ghost predicate SameOutside<K(!new), V(!new)>(s: seq<Cell<K, V>>, t: seq<Cell<K, V>>, bucket: nat)
  {
    |s| == |t| && forall i :: 0 <= i < |s| && i / CELLS != bucket ==> s[i] == t[i]
  }

  lemma OutsideFull<K(!new), V(!new)>(s: seq<Cell<K, V>>, t: seq<Cell<K, V>>, bucket: nat, b: nat)
    requires SameOutside(s, t, bucket) && CELLS * bucket + CELLS <= |s| && CELLS * b + CELLS <= |s|
    requires FullIn(s, bucket) && FullIn(t, bucket)
    ensures FullIn(s, b) <==> FullIn(t, b)
  {
    if b != bucket {
      assert forall i :: CELLS * b <= i < CELLS * b + CELLS ==> i / CELLS == b && s[i] == t[i];
    }
  }

  lemma ExchangePlaces<K(!new), V(!new)>(s: seq<Cell<K, V>>, i: nat, x: Item<K, V>, bucket: nat)
    requires i < |s| && s[i].Full? && i / CELLS == bucket && CELLS * bucket + CELLS <= |s| && FullIn(s, bucket)
    ensures var t := s[i := Full(x)];
            && Holds(t, bucket, x) && Holds(s, bucket, s[i].item) && FullIn(t, bucket) && SameOutside(s, t, bucket)
  {
    assert s[i := Full(x)][i] == Full(x);
  }

  /** The round of the probe loop that looks at cell k of a bucket. */
  function Probe(k: int, offset: nat): nat
  {
    (k + CELLS - offset) % CELLS
  }

  lemma ProbeInverse(offset: nat, i: nat)
    requires offset < CELLS && i < CELLS
    ensures Probe((i + offset) % CELLS, offset) == i
    ensures forall k :: 0 <= k < CELLS && Probe(k, offset) == i ==> k == (i + offset) % CELLS
  {}

  /** The items of a finite map. */
  ghost function MapItems<K(!new), V(!new)>(f: map<K, V>): set<Item<K, V>>
  {
    set k | k in f :: Item(k, f[k])
  }

  lemma AbsentKey<K(!new), V(!new)>(s: seq<Cell<K, V>>, f: map<K, V>, key: K)
    requires Items(s) == MapItems(f)
    ensures KeyFree(s, key) <==> key !in f
  {
    if key in f {
      assert Item(key, f[key]) in Items(s);
      var i :| 0 <= i < |s| && s[i] == Full(Item(key, f[key]));
    } else {
      forall i | 0 <= i < |s| && s[i].Full? ensures s[i].item.key != key {
        assert s[i].item in Items(s);
      }
    }
  }

  /** The map has as many keys as the set has items. */
  lemma {:induction false} MapItemsSize<K(!new), V(!new)>(f: map<K, V>)
    ensures |MapItems(f)| == |f|
  {
    if f != map[] {
      var k :| k in f;
      MapItemsSize(f - {k});
      MapItemsRemove(f, Item(k, f[k]));
    }
  }

  lemma MapItemsInsert<K(!new), V(!new)>(f: map<K, V>, x: Item<K, V>)
    requires x.key !in f
    ensures MapItems(f[x.key := x.data]) == MapItems(f) + {x}
  {
    var g := f[x.key := x.data];
    forall y ensures y in MapItems(g) <==> y in MapItems(f) + {x} {
      assert y in MapItems(g) <==> y.key in g && y == Item(y.key, g[y.key]);
      assert y in MapItems(f) <==> y.key in f && y == Item(y.key, f[y.key]);
    }
  }

  lemma MapItemsRemove<K(!new), V(!new)>(f: map<K, V>, x: Item<K, V>)
    requires x in MapItems(f)
    ensures MapItems(f - {x.key}) == MapItems(f) - {x}
  {
    var g := f - {x.key};
    forall y ensures y in MapItems(g) <==> y in MapItems(f) - {x} {
      assert y in MapItems(g) <==> y.key in g && y == Item(y.key, g[y.key]);
      assert y in MapItems(f) <==> y.key in f && y == Item(y.key, f[y.key]);
    }
  }

  /** An insertion that loses an item keeps the map only if it loses the new one. */
  lemma LostItem<K(!new), V(!new)>(f: map<K, V>, key: K, data: V, lost: Item<K, V>)
    requires key !in f && lost in MapItems(f[key := data])
    ensures var g := f[key := data] - {lost.key};
            (g == f <==> lost.key == key) && (lost.key != key ==> key in g && lost.key in f)
  {
    assert key in f[key := data] - {lost.key} <==> lost.key != key;
    if lost.key == key {
      assert f[key := data] - {key} == f;
    }
  }

  // ------------------------------------------------------------------- table

  class Table<K(!new, ==), V(!new, ==)> {
    const hash1: (K, nat) -> nat
    const hash2: (K, nat) -> nat
    const lgMin: nat
    var tab: array<Cell<K, V>>
    var count: nat
    var lgCur: nat
    /** What the allocator answers to the requests, in order; none is granted after
        the last. */
    const answers: seq<bool>
    /** How many requests were made. */
    var requests: nat
    /** How many items were evicted. */
    var nrelocs: nat
    /** The finite map that the table implements. */
    ghost var model: map<K, V>

    function Bucket1(key: K, lg: nat): (b: nat)
      ensures b < Pow2(lg)
    {
      hash1(key, lg) % Pow2(lg)
    }

    function Bucket2(key: K, lg: nat): (b: nat)
      ensures b < Pow2(lg)
    {
      hash2(key, lg) % Pow2(lg)
    }

    predicate Home(key: K, bucket: nat, lg: nat)
    {
      bucket == Bucket1(key, lg) || bucket == Bucket2(key, lg)
    }

    /** A table of the right size in which every item sits in one of its two
        buckets, and count is the number of occupied cells. */
    ghost predicate Placed()
      reads this`tab, this`count, this`lgCur, tab
    {
      && tab.Length == CELLS * Pow2(lgCur) && KeysDistinct(tab[..]) && count == |Items(tab[..])|
      && forall i :: 0 <= i < tab.Length && tab[i].Full? ==> Home(tab[i].item.key, i / CELLS, lgCur)
    }

    ghost predicate Valid()
      reads this`tab, this`count, this`lgCur, this`model, tab
    {
      Placed() && lgMin <= lgCur && Items(tab[..]) == MapItems(model)
    }

    /** ckh_new with a granted allocation, ckh.c:346-399. */
    constructor (minitems: nat, hash1: (K, nat) -> nat, hash2: (K, nat) -> nat, answers: seq<bool>)
      requires minitems > 0
      ensures Valid() && model == map[] && count == 0 && fresh(tab) && lgCur == lgMin
      ensures this.answers == answers && requests == 0 && this.hash1 == hash1 && this.hash2 == hash2
      ensures 3 * tab.Length >= 4 * minitems && forall i :: 0 <= i < tab.Length ==> tab[i].Empty?
      ensures lgCur > 0 ==> tab.Length < 2 * ((minitems + (3 - minitems % 3)) / 3 * 4)
      ensures lgCur > 0 ==> 3 * tab.Length < 8 * (minitems + 3)
    {
      var mincells := (minitems + (3 - minitems % 3)) / 3 * 4;
      var lgMincells := 2;
      while Pow2(lgMincells) < mincells
        invariant 2 <= lgMincells && (lgMincells > 2 ==> Pow2(lgMincells) < 2 * mincells)
        decreases mincells - Pow2(lgMincells)
      {
        lgMincells := lgMincells + 1;
      }
      this.hash1, this.hash2, this.lgMin, this.lgCur := hash1, hash2, lgMincells - 2, lgMincells - 2;
      this.answers, this.requests, this.nrelocs, this.count, this.model := answers, 0, 0, 0, map[];
      assert Pow2(lgMincells) == 2 * Pow2(lgMincells - 1) == 4 * Pow2(lgMincells - 2);
      tab := new Cell<K, V>[CELLS * Pow2(lgMincells - 2)](_ => Empty);
      new;
      assert Items(tab[..]) == {};
    }

    /** ckh_bucket_search, ckh.c:52-65; -1 stands for SIZE_T_MAX. */
    method BucketSearch(bucket: nat, key: K) returns (cell: int)
      requires Placed() && bucket < Pow2(lgCur)
      ensures cell == -1 ==> forall i :: CELLS * bucket <= i < CELLS * bucket + CELLS && tab[i].Full? ==>
                tab[i].item.key != key
      ensures cell != -1 ==> 0 <= cell < tab.Length && tab[cell].Full? && tab[cell].item.key == key
    {
      var i := 0;
      while i < CELLS
        invariant i <= CELLS
        invariant forall j :: CELLS * bucket <= j < CELLS * bucket + i && tab[j].Full? ==> tab[j].item.key != key
      {
        cell := CELLS * bucket + i;
        if tab[cell].Full? && tab[cell].item.key == key { return; }
        i := i + 1;
      }
      return -1;
    }

    /** ckh_isearch, ckh.c:70-89. */
    method ISearch(key: K) returns (cell: int)
      requires Valid()
      ensures cell == -1 <==> key !in model
      ensures cell != -1 ==> 0 <= cell < tab.Length && tab[cell].Full? && tab[cell].item.key == key
      ensures cell != -1 ==> tab[cell].item.data == model[key]
    {
      cell := BucketSearch(Bucket1(key, lgCur), key);
      if cell == -1 {
        cell := BucketSearch(Bucket2(key, lgCur), key);
      }
      if cell != -1 {
        assert tab[..][cell].item in Items(tab[..]);
      }
      AbsentKey(tab[..], model, key);
    }

    /** ckh_search, ckh.c:509-526. */
    method Search(key: K) returns (r: Option<V>)
      requires Valid()
      ensures r == if key in model then Some(model[key]) else None
    {
      var cell := ISearch(key);
      if cell == -1 { return None; }
      return Some(tab[cell].item.data);
    }

    ghost predicate BucketFull(bucket: nat)
      requires bucket < Pow2(lgCur) && tab.Length == CELLS * Pow2(lgCur)
      reads this`tab, this`lgCur, tab
    {
      FullIn(tab[..], bucket)
    }

    /** ckh.c:107-109. */
    method Occupy(cell: nat, x: Item<K, V>)
      requires Placed() && cell < tab.Length && tab[cell].Empty? && Home(x.key, cell / CELLS, lgCur)
               && KeyFree(tab[..], x.key)
      modifies this`count, tab
      ensures Placed() && Items(tab[..]) == old(Items(tab[..])) + {x} && tab[..] == old(tab[..])[cell := Full(x)]
    {
      ghost var s := tab[..];
      StoreItems(s, cell, x);
      tab[cell] := Full(x);
      assert tab[..] == s[cell := Full(x)];
      count := count + 1;
    }

    /** ckh_try_bucket_insert, ckh.c:91-115.  The offset of the first probe is
        pseudo-random: here, arbitrary. */
    method TryBucketInsert(bucket: nat, x: Item<K, V>) returns (full: bool)
      requires Placed() && bucket < Pow2(lgCur) && Home(x.key, bucket, lgCur) && KeyFree(tab[..], x.key)
      modifies this`count, tab
      ensures Placed()
      ensures full <==> old(BucketFull(bucket))
      ensures full ==> tab[..] == old(tab[..]) && BucketFull(bucket)
      ensures !full ==> Items(tab[..]) == old(Items(tab[..])) + {x}
      ensures !full ==> exists c :: 0 <= c < tab.Length && c / CELLS == bucket && StoredAt(old(tab[..]), tab[..], c, x)
    {
      var offset: nat :| offset < CELLS;
      var i := 0;
      while i < CELLS
        invariant i <= CELLS && tab[..] == old(tab[..]) && count == old(count)
        invariant forall k :: CELLS * bucket <= k < CELLS * bucket + CELLS ==>
                    Probe(k - CELLS * bucket, offset) < i ==> tab[k].Full?
      {
        var cell := CELLS * bucket + (i + offset) % CELLS;
        if tab[cell].Empty? {
          Occupy(cell, x);
          assert cell / CELLS == bucket && StoredAt(old(tab[..]), tab[..], cell, x);
          return false;
        }
        ProbeInverse(offset, i);
        i := i + 1;
      }
      return true;
    }

    /** Swaps an arbitrary item of a full bucket with x: ckh.c:144-151. */
    method Evict(bucket: nat, x: Item<K, V>) returns (y: Item<K, V>)
      requires Placed() && bucket < Pow2(lgCur) && BucketFull(bucket) && Home(x.key, bucket, lgCur)
               && KeyFree(tab[..], x.key)
      modifies this`nrelocs, tab
      ensures Placed() && Home(y.key, bucket, lgCur) && KeyFree(tab[..], y.key)
      ensures Items(tab[..]) + {y} == old(Items(tab[..])) + {x} && y.key != x.key
      ensures Holds(tab[..], bucket, x) && Holds(old(tab[..]), bucket, y) && BucketFull(bucket)
      ensures SameOutside(old(tab[..]), tab[..], bucket) && nrelocs == old(nrelocs) + 1
    {
      var i: nat :| i < CELLS;
      var cell := CELLS * bucket + i;
      ghost var s := tab[..];
      ExchangeItems(s, cell, x);
      ExchangePlaces(s, cell, x, bucket);
      y := tab[cell].item;
      tab[cell] := Full(x);
      nrelocs := nrelocs + 1;
      assert tab[..] == s[cell := Full(x)];
    }

    /** One of the key's two buckets has a free cell. */
    ghost predicate Free(s: seq<Cell<K, V>>, lg: nat, key: K)
      requires |s| == CELLS * Pow2(lg)
    {
      !FullIn(s, Bucket1(key, lg)) || !FullIn(s, Bucket2(key, lg))
    }

    /** Whatever item of the bucket is evicted can go elsewhere. */
    ghost predicate Escapes(s: seq<Cell<K, V>>, lg: nat, bucket: nat)
      requires |s| == CELLS * Pow2(lg) && bucket < Pow2(lg)
    {
      forall i :: 0 <= i < |s| && i / CELLS == bucket && s[i].Full? ==> Free(s, lg, s[i].item.key)
    }

    /** One round of ckh_evict_reloc_insert, ckh.c:144-187; Exhausted stands for
        another round, with y in flight for the bucket b.  The evicted item goes to its
        other bucket, if it has two. */
    method Relocate(argbucket: nat, bucket: nat, x: Item<K, V>) returns (r: Outcome, b: nat, y: Item<K, V>)
      requires Placed() && bucket < Pow2(lgCur) && argbucket < Pow2(lgCur)
      requires BucketFull(bucket) && Home(x.key, bucket, lgCur) && KeyFree(tab[..], x.key)
      modifies this`count, this`nrelocs, tab
      ensures Placed() && nrelocs == old(nrelocs) + 1 && b < Pow2(lgCur)
      ensures Moves(old(tab[..]), lgCur, bucket, b, y)
      ensures r == Failed <==> b == argbucket
      ensures r == Done <==> b != argbucket && !FullIn(old(tab[..]), b)
      ensures r == Done ==> Items(tab[..]) == old(Items(tab[..])) + {x}
      ensures r != Done ==> Items(tab[..]) + {y} == old(Items(tab[..])) + {x} && KeyFree(tab[..], y.key)
      ensures r != Done ==> SameOutside(old(tab[..]), tab[..], bucket) && Holds(tab[..], bucket, x)
      ensures r != Done ==> BucketFull(bucket)
      ensures r == Exhausted ==> BucketFull(b)
    {
      y := Evict(bucket, x);
      b := Bucket2(y.key, lgCur);
      if b == bucket {
        b := Bucket1(y.key, lgCur);
      }
      OutsideFull(old(tab[..]), tab[..], bucket, b);
      if b == argbucket { return Failed, b, y; }
      var full := TryBucketInsert(b, y);
      r := if full then Exhausted else Done;
    }

    /** The item y of a bucket belongs in b, too, and has no third home; b is another bucket
        unless its hashes agree. */
    ghost predicate Moves(s: seq<Cell<K, V>>, lg: nat, bucket: nat, b: nat, y: Item<K, V>)
    {
      && Holds(s, bucket, y) && Home(y.key, bucket, lg) && Home(y.key, b, lg)
      && (b == bucket ==> Bucket1(y.key, lg) == Bucket2(y.key, lg))
    }

    lemma EscapeMoves(s: seq<Cell<K, V>>, lg: nat, bucket: nat, b: nat, y: Item<K, V>)
      requires |s| == CELLS * Pow2(lg) && bucket < Pow2(lg) && b < Pow2(lg) && FullIn(s, bucket)
      requires Escapes(s, lg, bucket) && Moves(s, lg, bucket, b, y)
      ensures b != bucket && !FullIn(s, b)
    {
      var i :| 0 <= i < |s| && i / CELLS == bucket && s[i] == Full(y);
      assert Free(s, lg, s[i].item.key);
    }

    /** An item with an absent key is none of the table. */
    lemma Elsewhere(s: seq<Cell<K, V>>, a: Item<K, V>, bucket: nat, x: Item<K, V>)
      requires Holds(s, bucket, a) && KeyFree(s, x.key)
      ensures x.key != a.key
    {}

    lemma HoldsOutside(s: seq<Cell<K, V>>, t: seq<Cell<K, V>>, bucket: nat, b: nat, a: Item<K, V>)
      requires SameOutside(s, t, bucket) && bucket != b && Holds(s, b, a)
      ensures Holds(t, b, a)
    {
      var i :| 0 <= i < |s| && i / CELLS == b && s[i] == Full(a);
      assert t[i] == Full(a);
    }

    /** The item x is in flight for a bucket, in the place of the argument; at first it is
        the argument, and s is the table. */
    ghost predicate Chain(s: seq<Cell<K, V>>, argbucket: nat, argitem: Item<K, V>, bucket: nat, x: Item<K, V>,
                          first: bool)
      reads this`tab, this`count, this`lgCur, tab
    {
      && Placed() && |s| == tab.Length && argbucket < Pow2(lgCur) && bucket < Pow2(lgCur)
      && BucketFull(bucket) && Home(x.key, bucket, lgCur)
      && Items(tab[..]) + {x} == Items(s) + {argitem} && KeyFree(tab[..], x.key)
      && if first then x == argitem && bucket == argbucket && tab[..] == s
         else bucket != argbucket && Holds(tab[..], argbucket, argitem) && !Escapes(s, lgCur, argbucket)
    }

    /** One round of the chain. */
    method ChainRound(ghost s: seq<Cell<K, V>>, argbucket: nat, ghost argitem: Item<K, V>, bucket: nat, x: Item<K, V>,
                      ghost first: bool)
      returns (r: Outcome, b: nat, y: Item<K, V>)
      requires Chain(s, argbucket, argitem, bucket, x, first)
      modifies this`count, this`nrelocs, tab
      ensures Placed() && nrelocs == old(nrelocs) + 1
      ensures r == Exhausted ==> Chain(s, argbucket, argitem, b, y, false)
      ensures r == Done ==> Items(tab[..]) == Items(s) + {argitem}
      ensures r == Failed ==> Items(tab[..]) + {y} == Items(s) + {argitem} && KeyFree(tab[..], y.key)
      ensures r == Failed ==> y.key != argitem.key && Home(y.key, argbucket, lgCur)
      ensures lgCur == 0 && first ==> r == Failed
      ensures first && Escapes(s, lgCur, argbucket) ==> r == Done
    {
      r, b, y := Relocate(argbucket, bucket, x);
      if first && Escapes(s, lgCur, argbucket) { EscapeMoves(s, lgCur, bucket, b, y); }
      if r != Done && !first { HoldsOutside(old(tab[..]), tab[..], bucket, argbucket, argitem); }
      if r != Done { Elsewhere(tab[..], argitem, argbucket, y); }
    }

    /** ckh_evict_reloc_insert, ckh.c:123-190, cut off after `rounds` evictions.
        Whatever is evicted, the items of the table and the one in flight stay the
        same together.  The chain never comes back to its first bucket, where the
        argument has settled: it fails when the item in flight has to go there, and
        then this is another item. */
    method EvictRelocInsert(argbucket: nat, argitem: Item<K, V>, rounds: nat) returns (r: Outcome, x: Item<K, V>)
      requires Placed() && argbucket < Pow2(lgCur) && BucketFull(argbucket)
      requires Home(argitem.key, argbucket, lgCur) && KeyFree(tab[..], argitem.key)
      modifies this`count, this`nrelocs, tab
      ensures Placed()
      ensures r == Done ==> Items(tab[..]) == old(Items(tab[..])) + {argitem}
      ensures r != Done ==> Items(tab[..]) + {x} == old(Items(tab[..])) + {argitem} && KeyFree(tab[..], x.key)
      ensures r == Failed ==> x.key != argitem.key && Home(x.key, argbucket, lgCur)
      ensures if r == Exhausted then nrelocs == old(nrelocs) + rounds
              else old(nrelocs) < nrelocs <= old(nrelocs) + rounds
      ensures lgCur == 0 < rounds ==> r == Failed
      ensures Escapes(old(tab[..]), lgCur, argbucket) && 0 < rounds ==> r == Done && nrelocs == old(nrelocs) + 1
    {
      var bucket: nat := argbucket;
      x := argitem;
      var n := rounds;
      ghost var s := tab[..];
      while n > 0
        invariant Chain(s, argbucket, argitem, bucket, x, n == rounds)
        invariant 0 <= n <= rounds && nrelocs == old(nrelocs) + (rounds - n)
      {
        r, bucket, x := ChainRound(s, argbucket, argitem, bucket, x, n == rounds);
        if r != Exhausted { return; }
        n := n - 1;
      }
      return Exhausted, x;
    }

    /** ckh.c:206-214, when the first bucket is full. */
    method TrySecond(argitem: Item<K, V>, rounds: nat) returns (r: Outcome, x: Item<K, V>)
      requires Placed() && KeyFree(tab[..], argitem.key)
      modifies this`count, this`nrelocs, tab
      ensures Placed()
      ensures r == Done ==> Items(tab[..]) == old(Items(tab[..])) + {argitem}
      ensures r != Done ==> Items(tab[..]) + {x} == old(Items(tab[..])) + {argitem} && KeyFree(tab[..], x.key)
      ensures r == Failed ==> x.key != argitem.key && Home(x.key, Bucket2(argitem.key, lgCur), lgCur)
      ensures nrelocs >= old(nrelocs) && (r == Exhausted ==> nrelocs == old(nrelocs) + rounds)
      ensures !FullIn(old(tab[..]), Bucket2(argitem.key, lgCur)) ==> r == Done && nrelocs == old(nrelocs)
      ensures Escapes(old(tab[..]), lgCur, Bucket2(argitem.key, lgCur)) && 0 < rounds ==>
                r == Done && nrelocs <= old(nrelocs) + 1
      ensures lgCur == 0 < rounds && old(BucketFull(0)) ==> r == Failed
    {
      var bucket := Bucket2(argitem.key, lgCur);
      var full := TryBucketInsert(bucket, argitem);
      if !full { return Done, argitem; }
      r, x := EvictRelocInsert(bucket, argitem, rounds);
    }

    /** ckh_try_insert, ckh.c:193-215.  Nothing is evicted when one of the two buckets has
        a free cell. */
    method TryInsert(argitem: Item<K, V>, rounds: nat) returns (r: Outcome, x: Item<K, V>)
      requires Placed() && KeyFree(tab[..], argitem.key)
      modifies this`count, this`nrelocs, tab
      ensures Placed()
      ensures r == Done ==> Items(tab[..]) == old(Items(tab[..])) + {argitem}
      ensures r != Done ==> Items(tab[..]) + {x} == old(Items(tab[..])) + {argitem} && KeyFree(tab[..], x.key)
      ensures r == Failed ==> x.key != argitem.key && Home(x.key, Bucket2(argitem.key, lgCur), lgCur)
      ensures nrelocs >= old(nrelocs) && (r == Exhausted ==> nrelocs == old(nrelocs) + rounds)
      ensures Free(old(tab[..]), lgCur, argitem.key) ==> r == Done && nrelocs == old(nrelocs)
      ensures Escapes(old(tab[..]), lgCur, Bucket2(argitem.key, lgCur)) && 0 < rounds ==>
                r == Done && nrelocs <= old(nrelocs) + 1
      ensures lgCur == 0 < rounds && old(BucketFull(0)) ==> r == Failed
    {
      var full := TryBucketInsert(Bucket1(argitem.key, lgCur), argitem);
      if !full { return Done, argitem; }
      r, x := TrySecond(argitem, rounds);
    }

    /** The items that may sit in a bucket of a table of 2^lg buckets. */
    ghost function Homed(items: set<Item<K, V>>, bucket: nat, lg: nat): set<Item<K, V>>
    {
      set x | x in items && Home(x.key, bucket, lg)
    }

    /** No bucket of a table of 2^lg buckets is wanted by more items than it has cells. */
    ghost predicate Roomy(items: set<Item<K, V>>, lg: nat)
    {
      forall b :: 0 <= b < Pow2(lg) ==> |Homed(items, b, lg)| <= CELLS
    }

    lemma RoomyPart(a: set<Item<K, V>>, b: set<Item<K, V>>, lg: nat)
      requires a <= b && Roomy(b, lg)
      ensures Roomy(a, lg)
    {
      forall k | 0 <= k < Pow2(lg) ensures |Homed(a, k, lg)| <= CELLS {
        SubsetSize(Homed(a, k, lg), Homed(b, k, lg));
      }
    }

    lemma RoomyRest(a: set<Item<K, V>>, x: Item<K, V>, b: set<Item<K, V>>, lg: nat)
      requires a + {x} == b
      ensures Roomy(b, lg) ==> Roomy(a, lg)
    {
      assert a <= a + {x};
      if Roomy(b, lg) { RoomyPart(a, b, lg); }
    }

    /** In such a table there is always a free cell. */
    lemma RoomLeft(x: Item<K, V>)
      requires Placed() && KeyFree(tab[..], x.key) && Roomy(Items(tab[..]) + {x}, lgCur)
      ensures Free(tab[..], lgCur, x.key)
    {
      var b, s := Bucket1(x.key, lgCur), tab[..];
      if FullIn(s, b) {
        var a := Residents(b);
        var all := Homed(Items(s) + {x}, b, lgCur);
        assert x in all && a <= Homed(Items(s), b, lgCur) <= all;
        NotIn(x);
        SubsetSize(a + {x}, all);
      }
    }

    lemma NotIn(x: Item<K, V>)
      requires KeyFree(tab[..], x.key)
      ensures x !in Items(tab[..])
    {}

    /** The items in a full bucket. */
    lemma Residents(b: nat) returns (a: set<Item<K, V>>)
      requires Placed() && b < Pow2(lgCur) && FullIn(tab[..], b)
      ensures |a| == CELLS && a <= Homed(Items(tab[..]), b, lgCur)
    {
      var s, k := tab[..], CELLS * b;
      forall i | k <= i < k + CELLS ensures s[i].Full? && s[i].item in Homed(Items(s), b, lgCur) {
        assert i / CELLS == b && s[i] == tab[i];
        assert s[i].item in Items(s);
      }
      a := {s[k].item, s[k + 1].item, s[k + 2].item, s[k + 3].item};
      Four(s[k].item, s[k + 1].item, s[k + 2].item, s[k + 3].item);
    }

    lemma Four(a: Item<K, V>, b: Item<K, V>, c: Item<K, V>, d: Item<K, V>)
      requires a != b && a != c && a != d && b != c && b != d && c != d
      ensures |{a, b, c, d}| == 4
    {}

    /** The item of cell i of the old table. */
    method Reinsert(ghost s: seq<Cell<K, V>>, ghost i: nat, item: Item<K, V>, rounds: nat) returns (r: Outcome)
      requires i < |s| && s[i] == Full(item) && KeysDistinct(s) && Placed() && Items(tab[..]) == Items(s[..i])
      requires Items(s[..i + 1]) == Items(s[..i]) + {item} && item !in Items(s[..i])
      modifies this`count, this`nrelocs, tab
      ensures r == Done ==> Placed() && Items(tab[..]) == Items(s[..i + 1]) && count == old(count) + 1
      ensures nrelocs >= old(nrelocs) && (r == Exhausted ==> nrelocs == old(nrelocs) + rounds)
      ensures Roomy(Items(s), lgCur) ==> r == Done
    {
      FreshKey(s, i, tab[..]);
      if Roomy(Items(s), lgCur) { RoomFor(s, i); }
      var x;
      r, x := TryInsert(item, rounds);
    }

    lemma RoomFor(s: seq<Cell<K, V>>, i: nat)
      requires i < |s| && s[i].Full? && Placed() && Items(tab[..]) == Items(s[..i]) && Roomy(Items(s), lgCur)
      requires KeyFree(tab[..], s[i].item.key)
      ensures Free(tab[..], lgCur, s[i].item.key)
    {
      PrefixItems(s, i);
      RoomyPart(Items(tab[..]) + {s[i].item}, Items(s), lgCur);
      RoomLeft(s[i].item);
    }

    /** ckh_rebuild, ckh.c:222-242: moves the items of an old table into the
        current, empty one.  On failure only `count` is restored. */
    method Rebuild(aTab: array<Cell<K, V>>, rounds: nat) returns (r: Outcome)
      requires tab != aTab && tab.Length == CELLS * Pow2(lgCur) && forall i :: 0 <= i < tab.Length ==> tab[i].Empty?
      requires KeysDistinct(aTab[..]) && count == |Items(aTab[..])|
      modifies this`count, this`nrelocs, tab
      ensures r == Done ==> Placed() && Items(tab[..]) == Items(aTab[..])
      ensures r == Failed ==> count == old(count)
      ensures nrelocs >= old(nrelocs) && (r == Exhausted ==> nrelocs >= old(nrelocs) + rounds)
      ensures Roomy(Items(aTab[..]), lgCur) ==> r == Done
      ensures aTab[..] == old(aTab[..])
    {
      ghost var s := aTab[..];
      var total := count;
      count := 0;
      assert Items(tab[..]) == {} == Items(s[..0]);
      var i, nins := 0, 0;
      while nins < total
        invariant i <= aTab.Length && aTab[..] == s && nrelocs >= old(nrelocs)
        invariant Placed() && Items(tab[..]) == Items(s[..i]) && nins == count <= total
        decreases aTab.Length - i
      {
        ItemsStep(s, i);
        if aTab[i].Full? {
          r := Reinsert(s, i, aTab[i].item, rounds);
          if r == Exhausted { return; }
          if r == Failed {
            count := total;
            return;
          }
          nins := nins + 1;
        }
        i := i + 1;
      }
      PrefixItems(s, i);
      SubsetSize(Items(s[..i]), Items(s));
      return Done;
    }

    /** The answer to request k. */
    predicate Granted(k: nat)
    {
      k < |answers| && answers[k]
    }

    ghost predicate AllGranted(from: nat, to: nat)
    {
      from <= to && forall k :: from <= k < to ==> Granted(k)
    }

    /** Requests were made, and the last one, only, was refused. */
    ghost predicate LastRefused(from: nat, to: nat)
    {
      from < to && AllGranted(from, to - 1) && !Granted(to - 1)
    }

    lemma MoreGranted(from: nat, mid: nat, to: nat)
      requires AllGranted(from, mid)
      ensures AllGranted(mid, to) ==> AllGranted(from, to) && (mid < to ==> to <= |answers|)
      ensures AllGranted(mid, to) && from < to ==> Granted(from)
      ensures LastRefused(mid, to) ==> LastRefused(from, to)
    {
      if AllGranted(mid, to) && mid < to { assert Granted(to - 1); }
      if LastRefused(mid, to) { assert forall k :: from <= k < to - 1 ==> Granted(k); }
    }

    /** A request for zeroed memory. */
    method Allocate(lg: nat) returns (a: array?<Cell<K, V>>)
      modifies this`requests
      ensures requests == old(requests) + 1
      ensures a != null <==> Granted(old(requests))
      ensures a != null ==> fresh(a) && a.Length == CELLS * Pow2(lg) && forall i :: 0 <= i < a.Length ==> a[i].Empty?
    {
      a := null;
      if requests < |answers| && answers[requests] {
        a := new Cell<K, V>[CELLS * Pow2(lg)](_ => Empty);
      }
      requests := requests + 1;
    }

    /** What growing and shrinking share: allocate a table and move all items into it. */
    method Resize(lg: nat, rounds: nat) returns (r: Outcome, refused: bool)
      requires Placed()
      modifies this`tab, this`count, this`lgCur, this`requests, this`nrelocs
      ensures requests == old(requests) + 1 && (refused <==> !Granted(old(requests))) && (refused ==> r == Failed)
      ensures r == Done ==> Placed() && Items(tab[..]) == old(Items(tab[..])) && fresh(tab) && lgCur == lg
      ensures r == Failed ==> tab == old(tab) && tab[..] == old(tab[..]) && lgCur == old(lgCur) && count == old(count)
      ensures nrelocs >= old(nrelocs) && (r == Exhausted ==> nrelocs >= old(nrelocs) + rounds)
      ensures Roomy(old(Items(tab[..])), lg) && !refused ==> r == Done
    {
      var a := Allocate(lg);
      if a == null { return Failed, true; }
      var ttab, lgPrev := tab, lgCur;
      tab, lgCur := a, lg;
      r := Rebuild(ttab, rounds);
      if r == Failed {
        // Back out the partially rebuilt table.
        tab, lgCur := ttab, lgPrev;
      }
      refused := false;
    }

    /** ckh_grow, ckh.c:245-297: doubles the table until the items fit, by one more
        doubling for each request.  It fails when a request is refused, and only then. */
    method Grow(rounds: nat) returns (r: Outcome)
      requires Placed()
      modifies this`tab, this`count, this`lgCur, this`requests, this`nrelocs
      ensures r != Exhausted ==> Placed() && Items(tab[..]) == old(Items(tab[..]))
      ensures if r == Failed then LastRefused(old(requests), requests)
              else old(requests) < requests && AllGranted(old(requests), requests)
      ensures r == Done ==> fresh(tab) && lgCur == old(lgCur) + (requests - old(requests))
      ensures r == Failed ==> tab == old(tab) && tab[..] == old(tab[..]) && lgCur == old(lgCur) && count == old(count)
      ensures nrelocs >= old(nrelocs) && (r == Exhausted ==> nrelocs >= old(nrelocs) + rounds)
      ensures Roomy(old(Items(tab[..])), old(lgCur) + 1) && Granted(old(requests)) ==>
                r == Done && requests == old(requests) + 1
    {
      var lg := lgCur;
      while true
        invariant Placed() && tab == old(tab) && tab[..] == old(tab[..]) && lgCur == old(lgCur)
        invariant lg == lgCur + (requests - old(requests)) && AllGranted(old(requests), requests)
        invariant count == old(count) && nrelocs >= old(nrelocs)
        invariant Roomy(old(Items(tab[..])), old(lgCur) + 1) && Granted(old(requests)) ==> requests == old(requests)
        decreases |answers| - requests
      {
        lg := lg + 1;
        var refused;
        r, refused := Resize(lg, rounds);
        if refused || r != Failed { return; }
      }
    }

    /** ckh_shrink, ckh.c:300-344: one request and one attempt. */
    method Shrink(rounds: nat) returns (r: Outcome)
      requires Placed() && lgMin < lgCur
      modifies this`tab, this`count, this`lgCur, this`requests, this`nrelocs
      ensures r != Exhausted ==> Placed() && Items(tab[..]) == old(Items(tab[..]))
      ensures requests == old(requests) + 1
      ensures r == Done ==> fresh(tab) && lgCur == old(lgCur) - 1
      ensures r == Failed ==> tab == old(tab) && tab[..] == old(tab[..]) && lgCur == old(lgCur) && count == old(count)
      ensures !Granted(old(requests)) ==> r == Failed
      ensures Roomy(old(Items(tab[..])), old(lgCur) - 1) && Granted(old(requests)) ==> r == Done
      ensures nrelocs >= old(nrelocs) && (r == Exhausted ==> nrelocs >= old(nrelocs) + rounds)
    {
      var refused;
      r, refused := Resize(lgCur - 1, rounds);
    }

    /** One bucket, all its cells taken. */
    ghost predicate Stuck()
      requires tab.Length == CELLS * Pow2(lgCur)
      reads this`tab, this`lgCur, tab
    {
      lgCur == 0 && BucketFull(0)
    }

    /** There is memory for a table of twice the size that has room for the items. */
    ghost predicate Ample(items: set<Item<K, V>>)
      reads this`lgCur, this`requests
    {
      Roomy(items, lgCur + 1) && Granted(requests)
    }

    /** What is known before an insertion: `free`, that one of the two buckets has a free
        cell, `escapes`, that one eviction will do, `stuck`, that there is one bucket, and
        that it is full, `ample`, that there is memory for twice the buckets and that they
        have room for all items. */
    ghost predicate Known(x: Item<K, V>, all: set<Item<K, V>>, free: bool, escapes: bool, stuck: bool, ample: bool)
      reads this`tab, this`count, this`lgCur, this`requests, tab
    {
      && Placed() && lgMin <= lgCur && Items(tab[..]) + {x} == all && KeyFree(tab[..], x.key)
      && (free ==> Free(tab[..], lgCur, x.key)) && (escapes ==> Escapes(tab[..], lgCur, Bucket2(x.key, lgCur)))
      && (stuck ==> Stuck()) && (ample ==> Ample(all))
    }

    /** Growing with x in flight; `all` are the items of the table and x.  Done is not an
        outcome: the item is still to be inserted. */
    method MakeRoom(x: Item<K, V>, ghost all: set<Item<K, V>>, ghost ample: bool, rounds: nat)
      returns (r: Outcome, oom: bool)
      requires Placed() && Items(tab[..]) + {x} == all && KeyFree(tab[..], x.key)
      requires ample ==> Ample(all)
      modifies this`tab, this`count, this`lgCur, this`requests, this`nrelocs
      ensures r != Done && (r == Failed ==> Placed() && Items(tab[..]) + {x} == all && KeyFree(tab[..], x.key))
      ensures r == Failed && !oom ==>
                fresh(tab) && old(requests) < requests && lgCur == old(lgCur) + (requests - old(requests))
      ensures r == Failed && oom ==> LastRefused(old(requests), requests) && lgCur == old(lgCur) && tab == old(tab)
      ensures r != Failed || !oom ==> AllGranted(old(requests), requests)
      ensures nrelocs >= old(nrelocs) && (r == Exhausted ==> nrelocs >= old(nrelocs) + rounds)
      ensures ample ==> r == Failed && !oom && requests == old(requests) + 1 && Free(tab[..], lgCur, x.key)
      ensures !Granted(old(requests)) ==> r == Failed && oom
    {
      ghost var s := tab[..];
      RoomyRest(Items(s), x, all, lgCur + 1);
      var g := Grow(rounds);
      if g == Exhausted { return Exhausted, false; }
      SameItemsKeyFree(s, tab[..], x.key);
      if ample { RoomLeft(x); }
      return Failed, g == Failed;
    }

    /** TryInsert for an item of which all that is given is Known. */
    method FirstTry(argitem: Item<K, V>, ghost all: set<Item<K, V>>, ghost free: bool, ghost escapes: bool,
                    ghost stuck: bool, ghost ample: bool, rounds: nat)
      returns (r: Outcome, x: Item<K, V>)
      requires Known(argitem, all, free, escapes, stuck, ample)
      modifies this`count, this`nrelocs, tab
      ensures Placed() && (ample ==> Ample(all))
      ensures r == Done ==> Items(tab[..]) == all
      ensures r != Done ==> Items(tab[..]) + {x} == all && KeyFree(tab[..], x.key)
      ensures r == Failed ==> x.key != argitem.key
      ensures nrelocs >= old(nrelocs) && (r == Exhausted ==> nrelocs == old(nrelocs) + rounds)
      ensures free ==> r == Done && nrelocs == old(nrelocs)
      ensures escapes && 0 < rounds ==> r == Done
      ensures stuck && 0 < rounds ==> r == Failed
    {
      r, x := TryInsert(argitem, rounds);
    }

    /** One round of the loop of ckh_insert.  After Failed the item x is in flight; the
        table has grown unless memory ran out. */
    method InsertRound(argitem: Item<K, V>, ghost all: set<Item<K, V>>, ghost free: bool, ghost escapes: bool,
                       ghost stuck: bool, ghost ample: bool, rounds: nat)
      returns (r: Outcome, x: Item<K, V>, oom: bool)
      requires Known(argitem, all, free, escapes, stuck, ample)
      modifies this`tab, this`count, this`lgCur, this`requests, this`nrelocs, tab
      ensures r != Exhausted ==> Placed() && lgMin <= lgCur && (tab == old(tab) || fresh(tab))
      ensures r == Done ==> Items(tab[..]) == all
      ensures r == Done ==> tab == old(tab) && lgCur == old(lgCur) && requests == old(requests)
      ensures r == Failed ==> Items(tab[..]) + {x} == all && KeyFree(tab[..], x.key)
      ensures r == Failed ==> x.key != argitem.key
      ensures r == Failed && !oom ==>
                old(requests) < requests && lgCur == old(lgCur) + (requests - old(requests))
      ensures r == Failed && oom ==> LastRefused(old(requests), requests) && lgCur == old(lgCur) && tab == old(tab)
      ensures r != Failed || !oom ==> AllGranted(old(requests), requests)
      ensures nrelocs >= old(nrelocs) && (r == Exhausted ==> nrelocs >= old(nrelocs) + rounds)
      ensures free ==> r == Done && nrelocs == old(nrelocs)
      ensures escapes && 0 < rounds ==> r == Done
      ensures ample && r == Failed ==> !oom && requests == old(requests) + 1 && Free(tab[..], lgCur, x.key)
      ensures stuck && (ample || !Granted(old(requests))) && 0 < rounds ==> r == Failed && oom == !ample
    {
      oom := false;
      r, x := FirstTry(argitem, all, free, escapes, stuck, ample, rounds);
      if r == Failed {
        r, oom := MakeRoom(x, all, ample, rounds);
      }
    }

    /** The loop of ckh_insert. */
    method InsertItem(argitem: Item<K, V>, ghost all: set<Item<K, V>>, ghost free: bool, ghost escapes: bool,
                      ghost stuck: bool, ghost ample: bool, rounds: nat)
      returns (r: Outcome, x: Item<K, V>)
      requires Known(argitem, all, free, escapes, stuck, ample)
      modifies this`tab, this`count, this`lgCur, this`requests, this`nrelocs, tab
      ensures r != Exhausted ==> Placed() && lgMin <= lgCur && (tab == old(tab) || fresh(tab))
      ensures r == Done ==> Items(tab[..]) == all
      ensures r == Failed ==> Items(tab[..]) + {x} == all && KeyFree(tab[..], x.key)
      ensures if r == Failed then LastRefused(old(requests), requests) else AllGranted(old(requests), requests)
      ensures r == Failed && !Granted(old(requests)) ==> requests == old(requests) + 1 && x.key != argitem.key
      ensures r == Done ==> lgCur == old(lgCur) + (requests - old(requests))
      ensures r == Done && requests == old(requests) ==> tab == old(tab)
      ensures r == Exhausted ==> nrelocs >= old(nrelocs) + rounds
      ensures free ==> r == Done && requests == old(requests) && nrelocs == old(nrelocs)
      ensures escapes && 0 < rounds ==> r == Done && requests == old(requests)
      ensures ample ==> r != Failed && (r == Done ==> requests <= old(requests) + 1)
      ensures stuck && !Granted(old(requests)) && 0 < rounds ==> r == Failed
      ensures stuck && ample && 0 < rounds ==> r == Done && requests == old(requests) + 1
    {
      x := argitem;
      ghost var first := true;
      while true
        invariant Placed() && lgMin <= lgCur && Items(tab[..]) + {x} == all && KeyFree(tab[..], x.key)
        invariant tab == old(tab) || fresh(tab)
        invariant AllGranted(old(requests), requests) && lgCur == old(lgCur) + (requests - old(requests))
        invariant nrelocs >= old(nrelocs)
        invariant first ==> x == argitem && requests == old(requests) && tab == old(tab) && nrelocs == old(nrelocs)
        invariant first ==> Known(x, all, free, escapes, stuck, ample)
        invariant !first ==> requests > old(requests) && !free && !(escapes && 0 < rounds)
        invariant !first && ample ==> requests == old(requests) + 1 && Free(tab[..], lgCur, x.key)
        decreases |answers| - requests
      {
        ghost var made := requests;
        var oom;
        r, x,
          oom := InsertRound(x, all, if first then free else ample, first && escapes, first && stuck, first
                             && ample, rounds);
        MoreGranted(old(requests), made, requests);
        if r != Failed || oom { return; }
        first := false;
      }
    }

    /** The item in flight leaves the map with it. */
    ghost method Lose(x: Item<K, V>)
      requires Placed() && lgMin <= lgCur && Items(tab[..]) + {x} == MapItems(model) && KeyFree(tab[..], x.key)
      modifies this`model
      ensures Valid() && model == old(model) - {x.key}
    {
      MapItemsRemove(model, x);
      model := model - {x.key};
    }

    /** ckh_insert, ckh.c:454-476.  It fails exactly when a request for memory is made and
        refused: then the item that is in flight is lost.  The map is as before exactly
        when that is the item being inserted, and this never happens when the first
        request is refused: then the new key is there and another one is gone. */
    method Insert(key: K, data: V, rounds: nat) returns (r: Outcome, ghost lost: Item<K, V>)
      requires Valid() && key !in model
      modifies this, tab
      ensures r == Done ==> Valid() && model == old(model)[key := data]
      ensures r == Failed ==> Valid() && lost in MapItems(old(model)[key := data])
      ensures r == Failed ==> model == old(model)[key := data] - {lost.key}
      ensures r == Failed ==> (model == old(model) <==> lost.key == key)
      ensures r == Failed && !Granted(old(requests)) ==>
                requests == old(requests) + 1 && lost.key != key && key in model && lost.key in old(model)
      ensures if r == Failed then LastRefused(old(requests), requests) else AllGranted(old(requests), requests)
      ensures r == Done ==> lgCur == old(lgCur) + (requests - old(requests))
      ensures r == Done && requests == old(requests) ==> tab == old(tab)
      ensures r == Exhausted ==> nrelocs >= old(nrelocs) + rounds
      ensures Free(old(tab[..]), old(lgCur), key) ==> r == Done && requests == old(requests) && nrelocs == old(nrelocs)
      ensures Escapes(old(tab[..]), old(lgCur), Bucket2(key, old(lgCur))) && 0 < rounds ==>
                r == Done && requests == old(requests)
      ensures old(Ample(MapItems(model[key := data]))) ==>
                r != Failed && (r == Done ==> requests <= old(requests) + 1)
      ensures old(Stuck()) && !Granted(old(requests)) && 0 < rounds ==> r == Failed
      ensures old(Stuck()) && old(Ample(MapItems(model[key := data]))) && 0 < rounds ==>
                r == Done && requests == old(requests) + 1
      ensures r != Exhausted ==> tab == old(tab) || fresh(tab)
    {
      ghost var x, all := Item(key, data), MapItems(model[key := data]);
      AbsentKey(tab[..], model, key);
      MapItemsInsert(model, x);
      r, lost := InsertItem(Item(key, data), all, Free(tab[..], lgCur, key),
                            Escapes(tab[..], lgCur, Bucket2(key, lgCur)),
                            Stuck(), Ample(all), rounds);
      model := model[key := data];
      if r == Failed {
        LostItem(old(model), key, data, lost);
        Lose(lost);
      }
    }

    /** ckh.c:491-494. */
    method Vacate(cell: nat)
      requires Valid() && cell < tab.Length && tab[cell].Full?
      modifies this`count, this`model, tab
      ensures Valid() && model == old(model) - {old(tab[cell].item.key)}
    {
      ghost var s := tab[..];
      ClearItems(s, cell);
      MapItemsRemove(model, s[cell].item);
      tab[cell] := Empty;
      assert tab[..] == s[cell := Empty];
      count := count - 1;
      model := model - {s[cell].item.key};
    }

    /** ckh.c:495-502. */
    method ShrinkSparse(rounds: nat) returns (exhausted: bool)
      requires Valid()
      modifies this`tab, this`count, this`lgCur, this`requests, this`nrelocs
      ensures !exhausted ==> Valid() && (tab == old(tab) || fresh(tab))
      ensures requests == old(requests) + if old(4 * |model| < tab.Length && lgMin < lgCur) then 1 else 0
      ensures requests == old(requests) || !Granted(old(requests)) ==>
                !exhausted && tab == old(tab) && lgCur == old(lgCur)
      ensures !exhausted ==> lgCur == if tab == old(tab) then old(lgCur) else old(lgCur) - 1
      ensures requests > old(requests) && Granted(old(requests)) ==>
                old(lgCur) > 0 && (Roomy(MapItems(model), old(lgCur) - 1) ==> !exhausted && lgCur == old(lgCur) - 1)
      ensures exhausted ==> nrelocs >= old(nrelocs) + rounds
    {
      exhausted := false;
      MapItemsSize(model);
      if count < Pow2(lgCur) && lgCur > lgMin {
        var s := Shrink(rounds);
        exhausted := s == Exhausted;
      }
    }

    /** ckh_remove, ckh.c:479-507.  The table is halved, if memory and the buckets allow it,
        exactly when it has become less than a quarter full and is larger than at first.  A
        failure to shrink is not reported. */
    method Remove(key: K, rounds: nat) returns (r: Option<V>, exhausted: bool)
      requires Valid()
      modifies this, tab
      ensures r == if key in old(model) then Some(old(model)[key]) else None
      ensures !exhausted ==> Valid() && model == old(model) - {key}
      ensures !exhausted ==> tab == old(tab) || fresh(tab)
      ensures var sparse := 4 * |old(model) - {key}| < old(tab.Length) && lgMin < old(lgCur);
              requests == old(requests) + if key in old(model) && sparse then 1 else 0
      ensures requests == old(requests) || !Granted(old(requests)) ==>
                !exhausted && tab == old(tab) && lgCur == old(lgCur)
      ensures !exhausted ==> lgCur == if tab == old(tab) then old(lgCur) else old(lgCur) - 1
      ensures requests > old(requests) && Granted(old(requests)) ==>
                old(lgCur) > 0
                && (Roomy(MapItems(old(model) - {key}), old(lgCur) - 1) ==> !exhausted && lgCur == old(lgCur) - 1)
      ensures exhausted ==> nrelocs >= old(nrelocs) + rounds
    {
      exhausted := false;
      var cell := ISearch(key);
      if cell == -1 { return None, false; }
      r := Some(tab[cell].item.data);
      Vacate(cell);
      exhausted := ShrinkSparse(rounds);
    }
  }

  /** A table of one bucket with the keys 0 to i - 1. */
  ghost predicate Filled(t: Table<nat, nat>, i: nat, answers: seq<bool>)
    reads t, t.tab
  {
    && t.Valid() && t.lgCur == t.lgMin == 0 && t.answers == answers && t.requests == 0
    && (forall k: nat :: k in t.model <==> k < i) && (forall k: nat :: k in t.model ==> t.model[k] == k)
    && forall k :: 0 <= k < t.tab.Length ==> t.tab[k] == if k < i then Full(Item(k, k)) else Empty
  }

  method FillCell(t: Table<nat, nat>, i: nat, answers: seq<bool>)
    requires i < 4 && Filled(t, i, answers)
    modifies t, t.tab
    ensures Filled(t, i + 1, answers) && t.tab == old(t.tab)
  {
    assert t.Home(i, 0, 0) by { assert Pow2(0) == 1; }
    MapItemsInsert(t.model, Item(i, i));
    t.Occupy(i, Item(i, i));
    t.model := t.model[i := i];
  }

  method FillBucket(hash: (nat, nat) -> nat, answers: seq<bool>) returns (t: Table<nat, nat>)
    ensures Filled(t, 4, answers) && t.hash1 == t.hash2 == hash && fresh(t) && fresh(t.tab)
  {
    t := new Table(1, hash, hash, answers);
    assert Pow2(0) == 1 && Pow2(1) == 2;
    var i := 0;
    while i < 4
      invariant i <= 4 && Filled(t, i, answers) && fresh(t) && fresh(t.tab)
    {
      FillCell(t, i, answers);
      i := i + 1;
    }
  }

  /** A full table of one bucket and no more memory: the insertion of a fifth key
      fails, the key is there nevertheless, and one of the others is gone. */
  method FailingInsert(rounds: nat) returns (t: Table<nat, nat>, r: Outcome, ghost lost: Item<nat, nat>)
    requires 0 < rounds
    ensures t.Valid() && r == Failed && 4 in t.model && lost.key < 4 && lost.key !in t.model
  {
    t := FillBucket((_, _) => 0, []);
    r, lost := t.Insert(4, 4, rounds);
  }

  /** Of five keys that spread, each of two buckets is wanted by at most three. */
  lemma SpreadRoomy(t: Table<nat, nat>, hash: (nat, nat) -> nat)
    requires Filled(t, 4, t.answers) && t.hash1 == t.hash2 == hash && forall k: nat, lg: nat :: hash(k, lg) == k
    ensures t.Roomy(MapItems(t.model[4 := 4]), 1)
  {
    var items := MapItems(t.model[4 := 4]);
    assert Pow2(0) == 1 && Pow2(1) == 2;
    forall b | 0 <= b < Pow2(1) ensures |t.Homed(items, b, 1)| <= CELLS {
      var a := if b == 0 then {Item(0, 0), Item(2, 2), Item(4, 4)} else {Item(1, 1), Item(3, 3)};
      forall x | x in t.Homed(items, b, 1) ensures x in a {
        assert x == Item(x.key, x.key) && x.key < 5 && hash(x.key, 1) == x.key && x.key % 2 == b;
      }
      SubsetSize(t.Homed(items, b, 1), a);
    }
  }

  /** The same table with memory, and keys that spread: the table doubles, and all five
      keys are there. */
  method GrowingInsert(rounds: nat) returns (t: Table<nat, nat>, r: Outcome)
    requires 0 < rounds
    ensures r == Done && t.Valid() && t.lgCur == 1 && forall k: nat :: k in t.model <==> k < 5
  {
    t := FillBucket((k, _) => k, [true]);
    SpreadRoomy(t, t.hash1);
    ghost var lost;
    r, lost := t.Insert(4, 4, rounds);
  }
}
