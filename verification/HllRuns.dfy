/** Whole runs of PFADD, PFCOUNT and PFMERGE over the objects of a keyspace:
    hyperloglog.c:1155-1343.  A key that does not exist yet is an object in the
    state that createHLLObject gives it. */
module HllRuns {
  import opened HllSpec
  import opened HllCommands

  datatype Command =
    | Adding(key: nat, es: seq<Element>, maxBytes: nat)
    | Merging(dest: nat, sources: seq<nat>)
    | Counting(key: nat)

  predicate InRange(keys: seq<nat>, n: nat)
  {
    forall i :: 0 <= i < |keys| ==> keys[i] < n
  }

  predicate WellTyped(c: Command, n: nat)
  {
    match c
    case Adding(key, es, _) => key < n && forall e :: e in es ==> e.Valid()
    case Merging(dest, sources) => dest < n && InRange(sources, n)
    case Counting(key) => key < n
  }

  /** The reference: a key stands for the set of elements contributed to it. */
  type Model = seq<set<Element>>

  function UnionOf(m: Model, keys: seq<nat>): set<Element>
    requires InRange(keys, |m|)
  {
    set i, e | 0 <= i < |keys| && e in m[keys[i]] :: e
  }

  function Apply(m: Model, c: Command): (m': Model)
    requires WellTyped(c, |m|)
    ensures |m'| == |m|
  {
    match c
    case Adding(key, es, _) => m[key := m[key] + (set e | e in es)]
    case Merging(dest, sources) => m[dest := UnionOf(m, [dest] + sources)]
    case Counting(_) => m
  }

  function ApplyAll(m: Model, cs: seq<Command>): (m': Model)
    requires forall c :: c in cs ==> WellTyped(c, |m|)
    ensures |m'| == |m|
    decreases |cs|
  {
    if cs == [] then m else Apply(ApplyAll(m, cs[..|cs| - 1]), cs[|cs| - 1])
  }

  /** Merging is adding the union of what the sources were built from, however
      their elements were spread over them. */
  lemma MergeIsAddingUnion(m: Model, dest: nat, sources: seq<nat>, es: seq<Element>, maxBytes: nat)
    requires WellTyped(Merging(dest, sources), |m|) && WellTyped(Adding(dest, es, maxBytes), |m|)
    requires (set e | e in es) == UnionOf(m, sources)
    ensures Apply(m, Merging(dest, sources)) == Apply(m, Adding(dest, es, maxBytes))
  {
    var all := [dest] + sources;
    forall e ensures e in UnionOf(m, all) <==> e in m[dest] || e in UnionOf(m, sources) {
      if e in m[dest] { assert e in m[all[0]]; }
      if e in UnionOf(m, sources) {
        var i :| 0 <= i < |sources| && e in m[sources[i]];
        assert e in m[all[i + 1]];
      }
      if e in UnionOf(m, all) {
        var i :| 0 <= i < |all| && e in m[all[i]];
        assert i == 0 || all[i] == sources[i - 1];
      }
    }
    assert UnionOf(m, all) == m[dest] + UnionOf(m, sources);
  }

  /** Lists with the same elements have the same effect, whatever the order, the
      repetitions and the size at which the object is promoted. */
  lemma OrderAndRepetition(m: Model, key: nat, es: seq<Element>, fs: seq<Element>, maxBytes: nat, maxBytes': nat)
    requires WellTyped(Adding(key, es, maxBytes), |m|) && forall e :: e in es <==> e in fs
    ensures Apply(m, Adding(key, es, maxBytes)) == Apply(m, Adding(key, fs, maxBytes'))
  {
    assert (set e | e in es) == (set e | e in fs);
  }

  ghost predicate Good(o: HllObject)
    reads o
  {
    o.Valid() && o.Coherent() && o.Tracks()
  }

  ghost predicate AllGood(objs: seq<HllObject>)
    reads objs
  {
    && (forall i :: 0 <= i < |objs| ==> Good(objs[i]))
    && (forall i, j :: 0 <= i < j < |objs| ==> objs[i] != objs[j])
  }

  ghost function Abstract(objs: seq<HllObject>): (m: Model)
    reads objs
    ensures |m| == |objs|
  {
    seq(|objs|, i requires 0 <= i < |objs| reads objs => objs[i].elements)
  }

  /** Good objects with the same contributions have the same registers, hence the
      same count, whatever their representations and histories are. */
  lemma Independence(a: HllObject, b: HllObject)
    requires Good(a) && Good(b) && a.elements == b.elements
    ensures a.Registers() == b.Registers()
    ensures a.estimate == b.estimate ==> a.Cardinality() == b.Cardinality()
  {
    RepresentsUnique(a.Registers(), b.Registers(), a.elements);
  }

  method Add(objs: seq<HllObject>, c: Command)
    requires c.Adding? && WellTyped(c, |objs|) && AllGood(objs)
    modifies objs[c.key]
    ensures AllGood(objs) && Abstract(objs) == Apply(old(Abstract(objs)), c)
  {
    var r := objs[c.key].PfAdd(c.es, c.maxBytes, false);
    assert objs[c.key].elements == old(objs[c.key].elements) + (set e | e in c.es);
  }

  method Count(objs: seq<HllObject>, key: nat) returns (card: Card)
    requires key < |objs| && AllGood(objs)
    modifies objs[key]
    ensures AllGood(objs) && Abstract(objs) == old(Abstract(objs)) && card == objs[key].Cardinality()
  {
    var ok;
    ok, card := objs[key].PfCount();
  }

  method Merge(objs: seq<HllObject>, c: Command)
    requires c.Merging? && WellTyped(c, |objs|) && AllGood(objs)
    modifies objs[c.dest]
    ensures AllGood(objs) && Abstract(objs) == Apply(old(Abstract(objs)), c)
  {
    ghost var m := Abstract(objs);
    var sources := Collect(objs, [c.dest] + c.sources);
    assert sources[0] == objs[c.dest];
    assert forall i :: 0 <= i < |sources| ==> Good(sources[i]);
    SameUnion(objs, sources, [c.dest] + c.sources);
    var r := PfMerge(objs[c.dest], sources);
  }

  method Collect(objs: seq<HllObject>, keys: seq<nat>) returns (r: seq<HllObject>)
    requires InRange(keys, |objs|)
    ensures |r| == |keys| && forall i :: 0 <= i < |keys| ==> r[i] == objs[keys[i]]
  {
    r := [];
    var j := 0;
    while j < |keys|
      invariant j <= |keys| && |r| == j && forall i :: 0 <= i < j ==> r[i] == objs[keys[i]]
    {
      r := r + [objs[keys[j]]];
      j := j + 1;
    }
  }

  lemma SameUnion(objs: seq<HllObject>, r: seq<HllObject>, keys: seq<nat>)
    requires InRange(keys, |objs|)
    requires |r| == |keys| && forall i :: 0 <= i < |keys| ==> r[i] == objs[keys[i]]
    ensures AllElements(r) == UnionOf(Abstract(objs), keys)
  {
    forall e ensures e in AllElements(r) <==> e in UnionOf(Abstract(objs), keys) {
      if e in AllElements(r) {
        var i :| 0 <= i < |r| && e in r[i].elements;
        assert e in Abstract(objs)[keys[i]];
      }
      if e in UnionOf(Abstract(objs), keys) {
        var i :| 0 <= i < |keys| && e in Abstract(objs)[keys[i]];
        assert r[i] in r && e in r[i].elements;
      }
    }
  }

  method Step(objs: seq<HllObject>, c: Command)
    requires AllGood(objs) && WellTyped(c, |objs|)
    modifies objs
    ensures AllGood(objs) && Abstract(objs) == Apply(old(Abstract(objs)), c)
  {
    match c {
      case Adding(_, _, _) => Add(objs, c);
      case Merging(_, _) => Merge(objs, c);
      case Counting(key) => var _ := Count(objs, key);
    }
  }

  /** Any sequence of commands succeeds, keeps every object valid and every cache
      coherent, and ends in the state of the reference. */
  method Run(objs: seq<HllObject>, cs: seq<Command>)
    requires AllGood(objs) && forall c :: c in cs ==> WellTyped(c, |objs|)
    modifies objs
    ensures AllGood(objs) && Abstract(objs) == ApplyAll(old(Abstract(objs)), cs)
  {
    var j := 0;
    while j < |cs|
      invariant j <= |cs| && AllGood(objs)
      invariant Abstract(objs) == ApplyAll(old(Abstract(objs)), cs[..j])
    {
      assert cs[..j + 1][..j] == cs[..j];
      Step(objs, cs[j]);
      j := j + 1;
    }
    assert cs[..|cs|] == cs;
  }

  // ------------------------------------------------- the same on the objects

  twostate lemma Aside(objs: seq<HllObject>)
    requires forall i :: 0 <= i < |objs| ==> unchanged(objs[i])
    requires old(AllGood(objs))
    ensures AllGood(objs) && Abstract(objs) == old(Abstract(objs))
  {
    forall i | 0 <= i < |objs| ensures Good(objs[i]) && objs[i].elements == old(objs[i].elements) {
      assert old(Good(objs[i]));
    }
  }

  /** A run leaves the objects of another keyspace alone. */
  method RunAside(objs: seq<HllObject>, cs: seq<Command>, ghost others: seq<HllObject>)
    requires AllGood(objs) && AllGood(others) && forall o :: o in objs ==> o !in others
    requires forall c :: c in cs ==> WellTyped(c, |objs|)
    modifies objs
    ensures AllGood(objs) && Abstract(objs) == ApplyAll(old(Abstract(objs)), cs)
    ensures AllGood(others) && Abstract(others) == old(Abstract(others))
  {
    Run(objs, cs);
    assert forall i :: 0 <= i < |others| ==> others[i] !in objs;
    Aside(others);
  }

  /** Two runs over two keyspaces that end in the same state of the reference leave equal
      registers and counts at every key. */
  method SameOutcome(a: seq<HllObject>, cs: seq<Command>, b: seq<HllObject>, ds: seq<Command>)
    requires AllGood(a) && AllGood(b) && |a| == |b| && forall o :: o in a ==> o !in b
    requires (forall c :: c in cs ==> WellTyped(c, |a|)) && forall d :: d in ds ==> WellTyped(d, |b|)
    requires ApplyAll(Abstract(a), cs) == ApplyAll(Abstract(b), ds)
    modifies a, b
    ensures AllGood(a) && AllGood(b)
    ensures forall k :: 0 <= k < |a| ==> a[k].Registers() == b[k].Registers()
    ensures forall k :: 0 <= k < |a| && a[k].estimate == b[k].estimate ==> a[k].Cardinality() == b[k].Cardinality()
  {
    RunAside(a, cs, b);
    RunAside(b, ds, a);
    forall k | 0 <= k < |a|
      ensures a[k].Registers() == b[k].Registers()
      ensures a[k].estimate == b[k].estimate ==> a[k].Cardinality() == b[k].Cardinality()
    {
      assert Abstract(a)[k] == a[k].elements && Abstract(b)[k] == b[k].elements;
      Independence(a[k], b[k]);
    }
  }

  lemma ApplyOne(m: Model, c: Command)
    requires WellTyped(c, |m|)
    ensures ApplyAll(m, [c]) == Apply(m, c)
  {
    assert [c][..0] == [];
  }

  /** Additions of the same elements, in any order, with any repetitions and any limits,
      to keyspaces built from the same elements leave equal registers and counts. */
  method AddEitherWay(a: seq<HllObject>, b: seq<HllObject>, key: nat, es: seq<Element>, fs: seq<Element>,
                      maxBytes: nat, maxBytes': nat)
    requires AllGood(a) && AllGood(b) && Abstract(a) == Abstract(b) && forall o :: o in a ==> o !in b
    requires WellTyped(Adding(key, es, maxBytes), |a|) && forall e :: e in es <==> e in fs
    modifies a, b
    ensures AllGood(a) && AllGood(b)
    ensures forall k :: 0 <= k < |a| ==> a[k].Registers() == b[k].Registers()
    ensures forall k :: 0 <= k < |a| && a[k].estimate == b[k].estimate ==> a[k].Cardinality() == b[k].Cardinality()
  {
    ghost var m := Abstract(a);
    var c, d := Adding(key, es, maxBytes), Adding(key, fs, maxBytes');
    OrderAndRepetition(m, key, es, fs, maxBytes, maxBytes');
    ApplyOne(m, c);
    ApplyOne(m, d);
    SameOutcome(a, [c], b, [d]);
  }

  /** Merging keys into one leaves the registers and counts that adding all their elements
      to it leaves, however the elements are spread over the keys. */
  method MergeOrAdd(a: seq<HllObject>, b: seq<HllObject>, dest: nat, sources: seq<nat>, es: seq<Element>, maxBytes: nat)
    requires AllGood(a) && AllGood(b) && Abstract(a) == Abstract(b) && forall o :: o in a ==> o !in b
    requires WellTyped(Merging(dest, sources), |a|) && WellTyped(Adding(dest, es, maxBytes), |a|)
    requires (set e | e in es) == UnionOf(Abstract(a), sources)
    modifies a, b
    ensures AllGood(a) && AllGood(b)
    ensures forall k :: 0 <= k < |a| ==> a[k].Registers() == b[k].Registers()
    ensures forall k :: 0 <= k < |a| && a[k].estimate == b[k].estimate ==> a[k].Cardinality() == b[k].Cardinality()
  {
    ghost var m := Abstract(a);
    var c, d := Merging(dest, sources), Adding(dest, es, maxBytes);
    MergeIsAddingUnion(m, dest, sources, es, maxBytes);
    ApplyOne(m, c);
    ApplyOne(m, d);
    SameOutcome(a, [c], b, [d]);
  }
}
