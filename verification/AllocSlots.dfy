/** alloc_slots in src/redis-trib.rb: masters, hash slots and replicas for the nodes
    of a new cluster. */
module AllocSlots {

  const CLUSTER_HASH_SLOTS := 16384

  datatype Node = Node(name: string, host: string)

  /** An entry of the hash `ips`, which keeps the order of insertion. */
  datatype Group = Group(host: string, nodes: seq<Node>)

  /** The nodes that are still in `ips`. */
  function Left(ips: seq<Group>): seq<Node>
  {
    if ips == [] then [] else ips[0].nodes + Left(ips[1..])
  }

  lemma {:induction false} LeftSplit(ips: seq<Group>, g: nat)
    requires g < |ips|
    ensures Left(ips) == Left(ips[..g]) + ips[g].nodes + Left(ips[g + 1..])
  {
    if g > 0 {
      LeftSplit(ips[1..], g - 1);
      assert ips[1..][..g - 1] == ips[..g][1..] && ips[1..][g..] == ips[g + 1..];
    }
  }

  lemma LeftUpdate(ips: seq<Group>, g: nat, x: Group)
    requires g < |ips|
    ensures Left(ips[g := x]) == Left(ips[..g]) + x.nodes + Left(ips[g + 1..])
  {
    var r := ips[g := x];
    LeftSplit(r, g);
    assert r[..g] == ips[..g] && r[g + 1..] == ips[g + 1..];
  }

  lemma One(a: seq<Node>, n: Node, b: seq<Node>)
    ensures multiset(a + [n] + b) == multiset(a + b) + multiset{n}
  {
    assert multiset(a + [n] + b) == multiset(a) + multiset([n]) + multiset(b);
  }

  /** Shifting the first node out of a group. */
  lemma LeftShift(ips: seq<Group>, g: nat)
    requires g < |ips| && ips[g].nodes != []
    ensures var node, rest := ips[g].nodes[0], ips[g := Group(ips[g].host, ips[g].nodes[1..])];
            multiset(Left(ips)) == multiset(Left(rest)) + multiset{node} && |Left(ips)| == |Left(rest)| + 1
  {
    var a, b, n, t := Left(ips[..g]), Left(ips[g + 1..]), ips[g].nodes[0], ips[g].nodes[1..];
    LeftSplit(ips, g);
    LeftUpdate(ips, g, Group(ips[g].host, t));
    assert a + ips[g].nodes + b == a + [n] + (t + b);
    assert a + t + b == a + (t + b);
    One(a, n, t + b);
  }

  /** Appending a node to a group. */
  lemma LeftPush(ips: seq<Group>, g: nat, n: Node)
    requires g < |ips|
    ensures var r := ips[g := Group(ips[g].host, ips[g].nodes + [n])];
            multiset(Left(r)) == multiset(Left(ips)) + multiset{n} && |Left(r)| == |Left(ips)| + 1
  {
    var a, b, t := Left(ips[..g]), Left(ips[g + 1..]), ips[g].nodes;
    LeftSplit(ips, g);
    LeftUpdate(ips, g, Group(ips[g].host, t + [n]));
    assert a + (t + [n]) + b == (a + t) + [n] + b;
    One(a + t, n, b);
  }

  lemma {:induction false} LeftAppend(ips: seq<Group>, x: Group)
    ensures Left(ips + [x]) == Left(ips) + x.nodes
  {
    if ips == [] {
      assert [x][1..] == [];
    } else {
      LeftAppend(ips[1..], x);
      assert (ips + [x])[1..] == ips[1..] + [x];
    }
  }

  /** Where every group is empty, no node is left. */
  lemma {:induction false} LeftEmpty(ips: seq<Group>)
    requires forall g :: 0 <= g < |ips| ==> ips[g].nodes == []
    ensures Left(ips) == []
  {
    if ips != [] { LeftEmpty(ips[1..]); }
  }

  /** A group with all the nodes that are left is the only one that has any. */
  lemma {:induction false} LeftBound(ips: seq<Group>, g: nat)
    requires g < |ips|
    ensures |ips[g].nodes| <= |Left(ips)|
    ensures |ips[g].nodes| < |Left(ips)| ==> exists h :: 0 <= h < |ips| && h != g && ips[h].nodes != []
  {
    if g > 0 {
      LeftBound(ips[1..], g - 1);
      if ips[0].nodes == [] && |ips[g].nodes| < |Left(ips)| {
        var h :| 0 <= h < |ips| - 1 && h != g - 1 && ips[1..][h].nodes != [];
        assert ips[h + 1].nodes != [];
      }
    } else if |ips[0].nodes| < |Left(ips)| {
      if forall h :: 0 <= h < |ips| - 1 ==> ips[1..][h].nodes == [] { LeftEmpty(ips[1..]); }
      var h :| 0 <= h < |ips| - 1 && ips[1..][h].nodes != [];
      assert ips[h + 1].nodes != [];
    }
  }

  // ------------------------------------------------------------------ groups

  ghost predicate Grouped(ips: seq<Group>)
  {
    && (forall g, h :: 0 <= g < h < |ips| ==> ips[g].host != ips[h].host)
    && (forall g, i :: 0 <= g < |ips| && 0 <= i < |ips[g].nodes| ==> ips[g].nodes[i].host == ips[g].host)
  }

  /** The nodes on a host, in their order. */
  function OnHost(ns: seq<Node>, h: string): (r: seq<Node>)
    ensures |r| <= |ns|
  {
    if ns == [] then [] else
      var n := ns[|ns| - 1];
      OnHost(ns[..|ns| - 1], h) + if n.host == h then [n] else []
  }

  /** The groups are the hosts' nodes, in their order. */
  ghost predicate GroupsOf(ips: seq<Group>, ns: seq<Node>)
  {
    && (forall g :: 0 <= g < |ips| ==> ips[g].nodes == OnHost(ns, ips[g].host))
    && forall h :: (forall g :: 0 <= g < |ips| ==> ips[g].host != h) ==> OnHost(ns, h) == []
  }

  lemma OnHostMore(ns: seq<Node>, n: Node, h: string)
    ensures OnHost(ns + [n], h) == OnHost(ns, h) + if n.host == h then [n] else []
  {
    assert (ns + [n])[..|ns|] == ns;
  }

  lemma GroupsPush(ips: seq<Group>, ns: seq<Node>, n: Node, g: nat)
    requires Grouped(ips) && GroupsOf(ips, ns) && g < |ips| && ips[g].host == n.host
    ensures GroupsOf(ips[g := Group(n.host, ips[g].nodes + [n])], ns + [n])
  {
    var r := ips[g := Group(n.host, ips[g].nodes + [n])];
    forall k | 0 <= k < |r| ensures r[k].nodes == OnHost(ns + [n], r[k].host) {
      OnHostMore(ns, n, r[k].host);
      if k != g { assert ips[k].host != ips[g].host; }
    }
    forall h | forall k :: 0 <= k < |r| ==> r[k].host != h ensures OnHost(ns + [n], h) == [] {
      OnHostMore(ns, n, h);
      SameHosts(ips, r, h);
      assert r[g].host != h;
    }
  }

  lemma SameHosts(ips: seq<Group>, r: seq<Group>, h: string)
    requires |ips| <= |r| && forall k :: 0 <= k < |ips| ==> ips[k].host == r[k].host
    requires forall k :: 0 <= k < |r| ==> r[k].host != h
    ensures forall k :: 0 <= k < |ips| ==> ips[k].host != h
  {}

  lemma GroupsAppend(ips: seq<Group>, ns: seq<Node>, n: Node)
    requires GroupsOf(ips, ns) && forall g :: 0 <= g < |ips| ==> ips[g].host != n.host
    ensures GroupsOf(ips + [Group(n.host, [n])], ns + [n])
  {
    var r := ips + [Group(n.host, [n])];
    forall k | 0 <= k < |r| ensures r[k].nodes == OnHost(ns + [n], r[k].host) {
      OnHostMore(ns, n, r[k].host);
    }
    forall h | forall k :: 0 <= k < |r| ==> r[k].host != h ensures OnHost(ns + [n], h) == [] {
      OnHostMore(ns, n, h);
      SameHosts(ips, r, h);
      assert r[|ips|].host != h;
    }
  }

  lemma Longer(ns: seq<Node>, i: nat)
    requires i < |ns|
    ensures ns[..i + 1] == ns[..i] + [ns[i]]
  {}

  /** redis-trib.rb:523-527. */
  method GroupByHost(nodes: seq<Node>) returns (ips: seq<Group>)
    ensures Grouped(ips) && multiset(Left(ips)) == multiset(nodes) && |Left(ips)| == |nodes|
    ensures GroupsOf(ips, nodes)
  {
    ips := [];
    var i := 0;
    while i < |nodes|
      invariant i <= |nodes| && Collected(ips, nodes[..i])
    {
      ips := AddNode(ips, nodes[i], nodes[..i]);
      Longer(nodes, i);
      i := i + 1;
    }
    assert nodes[..|nodes|] == nodes;
  }

  /** The groups of the nodes ns. */
  ghost predicate Collected(ips: seq<Group>, ns: seq<Node>)
  {
    Grouped(ips) && multiset(Left(ips)) == multiset(ns) && |Left(ips)| == |ns| && GroupsOf(ips, ns)
  }

  lemma CollectedMore(ips: seq<Group>, ns: seq<Node>, n: Node, r: seq<Group>)
    requires Collected(ips, ns) && Grouped(r) && GroupsOf(r, ns + [n])
    requires multiset(Left(r)) == multiset(Left(ips)) + multiset{n} && |Left(r)| == |Left(ips)| + 1
    ensures Collected(r, ns + [n])
  {}

  lemma GroupedPush(ips: seq<Group>, g: nat, n: Node)
    requires Grouped(ips) && g < |ips| && ips[g].host == n.host
    ensures Grouped(ips[g := Group(ips[g].host, ips[g].nodes + [n])])
  {}

  lemma GroupedAppend(ips: seq<Group>, n: Node)
    requires Grouped(ips) && forall g :: 0 <= g < |ips| ==> ips[g].host != n.host
    ensures Grouped(ips + [Group(n.host, [n])])
  {}

  lemma LeftNew(ips: seq<Group>, n: Node)
    ensures var r := ips + [Group(n.host, [n])];
            multiset(Left(r)) == multiset(Left(ips)) + multiset{n} && |Left(r)| == |Left(ips)| + 1
  {
    LeftAppend(ips, Group(n.host, [n]));
    One(Left(ips), n, []);
    assert Left(ips) + [n] == Left(ips) + [n] + [] && Left(ips) + [] == Left(ips);
  }

  method AddNode(ips: seq<Group>, n: Node, ghost ns: seq<Node>) returns (r: seq<Group>)
    requires Collected(ips, ns)
    ensures Collected(r, ns + [n])
  {
    var g := 0;
    while g < |ips|
      invariant g <= |ips| && forall h :: 0 <= h < g ==> ips[h].host != n.host
    {
      if ips[g].host == n.host {
        GroupedPush(ips, g, n);
        GroupsPush(ips, ns, n, g);
        LeftPush(ips, g, n);
        r := ips[g := Group(ips[g].host, ips[g].nodes + [n])];
        CollectedMore(ips, ns, n, r);
        return;
      }
      g := g + 1;
    }
    GroupedAppend(ips, n);
    GroupsAppend(ips, ns, n);
    LeftNew(ips, n);
    r := ips + [Group(n.host, [n])];
    CollectedMore(ips, ns, n, r);
  }

  // ----------------------------------------------------------------- masters

  /** Takes the first node of a group. */
  method Shift(ips: seq<Group>, g: nat) returns (n: Node, r: seq<Group>)
    requires g < |ips| && ips[g].nodes != [] && Grouped(ips)
    ensures Grouped(r) && |r| == |ips| && n.host == ips[g].host == r[g].host
            && (forall h :: 0 <= h < |ips| && h != g ==> r[h] == ips[h])
    ensures n == ips[g].nodes[0] && r == ips[g := Group(ips[g].host, ips[g].nodes[1..])]
    ensures multiset(Left(ips)) == multiset(Left(r)) + multiset{n} && |Left(ips)| == |Left(r)| + 1
  {
    LeftShift(ips, g);
    n := ips[g].nodes[0];
    r := ips[g := Group(ips[g].host, ips[g].nodes[1..])];
  }

  function Rest(ns: seq<Node>, n: nat): seq<Node>
  {
    if n <= |ns| then ns[n..] else []
  }

  /** From every host as many nodes as there were passes have been taken, or all it had; from
      the first p hosts one more. */
  ghost predicate Level(start: seq<Group>, r: seq<Group>, passes: nat, p: nat)
  {
    && |r| == |start|
    && forall g :: 0 <= g < |r| ==>
         r[g].host == start[g].host && r[g].nodes == Rest(start[g].nodes, passes + if g < p then 1 else 0)
  }

  lemma LevelStart(start: seq<Group>)
    ensures Level(start, start, 0, 0)
  {}

  lemma LevelTurn(start: seq<Group>, r: seq<Group>, passes: nat)
    requires Level(start, r, passes, |r|)
    ensures Level(start, r, passes + 1, 0)
  {}

  lemma LevelNext(start: seq<Group>, r: seq<Group>, passes: nat, p: nat)
    requires Level(start, r, passes, p) && p < |r|
    ensures Level(start, if r[p].nodes == [] then r else r[p := Group(r[p].host, r[p].nodes[1..])], passes, p + 1)
  {}

  /** A pass that began with the groups ips and so many masters has come to host g. */
  ghost predicate Passing(ips: seq<Group>, masters: seq<Node>, start: seq<Group>, passes: nat,
                          r: seq<Group>, ms: seq<Node>, g: nat)
  {
    && Grouped(r) && g <= |r| == |ips| && Level(start, r, passes, g)
    && multiset(Left(r)) + multiset(ms) == multiset(Left(ips)) + multiset(masters)
    && |masters| <= |ms| && |Left(r)| + |ms| == |Left(ips)| + |masters|
    && (|ms| == |masters| ==> r == ips && forall h :: 0 <= h < g ==> r[h].nodes == [])
  }

  lemma OneMoved(left: seq<Node>, left': seq<Node>, ms: seq<Node>, n: Node)
    requires multiset(left) == multiset(left') + multiset{n}
    ensures multiset(left') + multiset(ms + [n]) == multiset(left) + multiset(ms)
  {}

  /** A host in a pass: redis-trib.rb:533-536. */
  method Visit(r0: seq<Group>, ms0: seq<Node>, g: nat, ghost ips: seq<Group>, ghost masters: seq<Node>,
               ghost start: seq<Group>, ghost passes: nat)
    returns (r: seq<Group>, ms: seq<Node>)
    requires Passing(ips, masters, start, passes, r0, ms0, g) && g < |r0|
    ensures Passing(ips, masters, start, passes, r, ms, g + 1)
    ensures ms == if r0[g].nodes == [] then ms0 else ms0 + [r0[g].nodes[0]]
  {
    r, ms := r0, ms0;
    LevelNext(start, r, passes, g);
    if |r[g].nodes| == 0 { return; }
    var n;
    n, r := Shift(r, g);
    OneMoved(Left(r0), Left(r), ms, n);
    ms := ms + [n];
  }

  /** One pass over the hosts: redis-trib.rb:532-538.  It takes a node if one is left, and
      a node from every host that has one unless it comes to the end. */
  method Pass(ips: seq<Group>, masters: seq<Node>, count: nat, ghost start: seq<Group>, ghost passes: nat)
    returns (r: seq<Group>, ms: seq<Node>, ghost p: nat)
    requires Grouped(ips) && |masters| < count <= |masters| + |Left(ips)| && Level(start, ips, passes, 0)
    ensures Grouped(r) && multiset(Left(r)) + multiset(ms) == multiset(Left(ips)) + multiset(masters)
    ensures |masters| < |ms| <= count && |Left(r)| + |ms| == |Left(ips)| + |masters|
    ensures p <= |r| && Level(start, r, passes, p) && (|ms| < count ==> p == |r|)
  {
    r, ms := ips, masters;
    var g := 0;
    while g < |r|
      invariant Passing(ips, masters, start, passes, r, ms, g) && |ms| < count
    {
      r, ms := Visit(r, ms, g, ips, masters, start, passes);
      if |ms| == count { return r, ms, g + 1; }
      g := g + 1;
    }
    p := g;
    if |ms| == |masters| { LeftEmpty(r); }
  }

  /** redis-trib.rb:531-539. */
  method SelectMasters(ips: seq<Group>, count: nat) returns (r: seq<Group>, masters: seq<Node>)
    requires Grouped(ips) && count <= |Left(ips)|
    ensures Grouped(r) && |masters| == count && multiset(Left(r)) + multiset(masters) == multiset(Left(ips))
    ensures |Left(r)| + count == |Left(ips)|
    ensures Balanced(masters, Left(ips))
  {
    r, masters := ips, [];
    ghost var passes: nat := 0;
    ghost var p: nat := 0;
    LevelStart(ips);
    while |masters| < count
      invariant Grouped(r) && |masters| <= count && multiset(Left(r)) + multiset(masters) == multiset(Left(ips))
      invariant |Left(r)| + |masters| == |Left(ips)|
      invariant p <= |r| && Level(ips, r, passes, p) && (|masters| < count ==> p == 0)
      decreases count - |masters|
    {
      r, masters, p := Pass(r, masters, count, ips, passes);
      if p == |r| {
        LevelTurn(ips, r, passes);
        passes, p := passes + 1, 0;
      }
    }
    LevelBalances(ips, r, passes, p, masters);
  }

  /** The numbers of masters on two hosts differ by at most one, unless all nodes of the host
      with fewer are masters. */
  ghost predicate Balanced(masters: seq<Node>, nodes: seq<Node>)
  {
    forall g, h :: |OnHost(masters, g)| <= |OnHost(masters, h)| + 1 || |OnHost(masters, h)| == |OnHost(nodes, h)|
  }

  lemma {:induction false} OnHostConcat(a: seq<Node>, b: seq<Node>, h: string)
    ensures OnHost(a + b, h) == OnHost(a, h) + OnHost(b, h)
    decreases |b|
  {
    if b == [] {
      assert a + b == a;
    } else {
      var n := b[|b| - 1];
      assert (a + b)[..|a + b| - 1] == a + b[..|b| - 1];
      OnHostConcat(a, b[..|b| - 1], h);
    }
  }

  /** The number of nodes on a host does not depend on the order. */
  lemma {:induction false} OnHostCount(a: seq<Node>, b: seq<Node>, h: string)
    requires multiset(a) == multiset(b)
    ensures |OnHost(a, h)| == |OnHost(b, h)|
    decreases |a|
  {
    if a != [] {
      var n := a[|a| - 1];
      assert n in multiset(a) && n in multiset(b);
      var j :| 0 <= j < |b| && b[j] == n;
      Without(a, |a| - 1);
      Without(b, j);
      OnHostWithout(a, |a| - 1, h);
      OnHostWithout(b, j, h);
      OnHostCount(a[..|a| - 1] + a[|a|..], b[..j] + b[j + 1..], h);
    } else {
      assert |multiset(b)| == 0;
    }
  }

  lemma Without(a: seq<Node>, j: nat)
    requires j < |a|
    ensures multiset(a[..j] + a[j + 1..]) == multiset(a) - multiset{a[j]}
  {
    assert a == a[..j] + [a[j]] + a[j + 1..];
    One(a[..j], a[j], a[j + 1..]);
  }

  lemma OnHostWithout(a: seq<Node>, j: nat, h: string)
    requires j < |a|
    ensures |OnHost(a, h)| == |OnHost(a[..j] + a[j + 1..], h)| + if a[j].host == h then 1 else 0
  {
    assert a == a[..j] + [a[j]] + a[j + 1..];
    OnHostConcat(a[..j] + [a[j]], a[j + 1..], h);
    OnHostMore(a[..j], a[j], h);
    OnHostConcat(a[..j], a[j + 1..], h);
  }

  lemma {:induction false} OnHostNone(ips: seq<Group>, h: string)
    requires Grouped(ips) && forall g :: 0 <= g < |ips| ==> ips[g].host != h
    ensures OnHost(Left(ips), h) == []
  {
    if ips != [] {
      OnHostConcat(ips[0].nodes, Left(ips[1..]), h);
      OnHostAll(ips[0].nodes, ips[0].host, h);
      OnHostNone(ips[1..], h);
    }
  }

  /** Of the nodes that are left those on a host are its group. */
  lemma {:induction false} OnHostGroup(ips: seq<Group>, g: nat)
    requires Grouped(ips) && g < |ips|
    ensures OnHost(Left(ips), ips[g].host) == ips[g].nodes
  {
    var h := ips[g].host;
    OnHostConcat(ips[0].nodes, Left(ips[1..]), h);
    OnHostAll(ips[0].nodes, ips[0].host, h);
    if g == 0 { OnHostNone(ips[1..], h); } else { OnHostGroup(ips[1..], g - 1); }
  }

  lemma {:induction false} OnHostAll(ns: seq<Node>, host: string, h: string)
    requires forall i :: 0 <= i < |ns| ==> ns[i].host == host
    ensures OnHost(ns, h) == if host == h then ns else []
  {
    if ns != [] { OnHostAll(ns[..|ns| - 1], host, h); }
  }

  /** How many masters a host has. */
  lemma MastersOn(start: seq<Group>, r: seq<Group>, masters: seq<Node>, h: string)
    requires multiset(Left(r)) + multiset(masters) == multiset(Left(start))
    ensures |OnHost(masters, h)| + |OnHost(Left(r), h)| == |OnHost(Left(start), h)|
  {
    assert multiset(Left(r) + masters) == multiset(Left(start));
    OnHostConcat(Left(r), masters, h);
    OnHostCount(Left(r) + masters, Left(start), h);
  }

  lemma LevelSize(start: seq<Group>, r: seq<Group>, passes: nat, p: nat, g: nat)
    requires Level(start, r, passes, p) && g < |start|
    ensures |r| == |start| && r[g].host == start[g].host
    ensures |start[g].nodes| - |r[g].nodes| <= passes + 1
    ensures |start[g].nodes| - |r[g].nodes| >= passes || r[g].nodes == []
  {}

  lemma LevelGroup(start: seq<Group>, r: seq<Group>, passes: nat, p: nat, masters: seq<Node>, g: nat)
    requires Grouped(start) && Grouped(r) && Level(start, r, passes, p) && g < |start|
    requires var h := start[g].host; |OnHost(masters, h)| + |OnHost(Left(r), h)| == |OnHost(Left(start), h)|
    ensures var h := start[g].host;
            && |OnHost(masters, h)| <= passes + 1
            && (|OnHost(masters, h)| >= passes || |OnHost(masters, h)| == |OnHost(Left(start), h)|)
  {
    LevelSize(start, r, passes, p, g);
    OnHostGroup(start, g);
    OnHostGroup(r, g);
  }

  /** After so many passes a host has as many masters, or one more, or all its nodes are. */
  lemma LevelHost(start: seq<Group>, r: seq<Group>, passes: nat, p: nat, masters: seq<Node>, h: string)
    requires Grouped(start) && Grouped(r) && Level(start, r, passes, p)
    requires multiset(Left(r)) + multiset(masters) == multiset(Left(start))
    ensures |OnHost(masters, h)| <= passes + 1
    ensures |OnHost(masters, h)| >= passes || |OnHost(masters, h)| == |OnHost(Left(start), h)|
  {
    MastersOn(start, r, masters, h);
    if exists g :: 0 <= g < |start| && start[g].host == h {
      var g :| 0 <= g < |start| && start[g].host == h;
      LevelGroup(start, r, passes, p, masters, g);
    } else {
      OnHostNone(start, h);
    }
  }

  lemma LevelBalances(start: seq<Group>, r: seq<Group>, passes: nat, p: nat, masters: seq<Node>)
    requires Grouped(start) && Grouped(r) && Level(start, r, passes, p)
    requires multiset(Left(r)) + multiset(masters) == multiset(Left(start))
    ensures Balanced(masters, Left(start))
  {
    forall g, h
      ensures |OnHost(masters, g)| <= |OnHost(masters, h)| + 1
              || |OnHost(masters, h)| == |OnHost(Left(start), h)|
    {
      LevelHost(start, r, passes, p, masters, g);
      LevelHost(start, r, passes, p, masters, h);
    }
  }

  lemma BalancedSame(masters: seq<Node>, a: seq<Node>, b: seq<Node>)
    requires Balanced(masters, a) && multiset(a) == multiset(b)
    ensures Balanced(masters, b)
  {
    forall h ensures |OnHost(a, h)| == |OnHost(b, h)| {
      OnHostCount(a, b, h);
    }
  }

  // ------------------------------------------------------------------- slots

  /** Float#round: halves are rounded away from zero. */
  function Round(x: real): int
  {
    if x >= 0.0 then (x + 0.5).Floor else -(0.5 - x).Floor
  }

  datatype Range = Range(first: int, last: int) {
    function Size(): int {
      last - first + 1
    }
  }

  /** The ranges follow one another from slot 0 and none is empty. */
  ghost predicate Contiguous(rs: seq<Range>)
  {
    && (forall i :: 0 <= i < |rs| ==> rs[i].first <= rs[i].last)
    && (|rs| > 0 ==> rs[0].first == 0)
    && (forall i, j :: 0 <= i && j == i + 1 && j < |rs| ==> rs[j].first == rs[i].last + 1)
  }

  /** The sizes that a fair share allows. */
  predicate Fair(size: int, count: nat)
    requires count > 0
  {
    CLUSTER_HASH_SLOTS / count <= size <= (CLUSTER_HASH_SLOTS + count - 1) / count
  }

  /** The exact share of a master lies between those sizes. */
  lemma Share(count: nat)
    requires 0 < count
    ensures var d := CLUSTER_HASH_SLOTS as real / count as real;
            (CLUSTER_HASH_SLOTS / count) as real <= d <= ((CLUSTER_HASH_SLOTS + count - 1) / count) as real
            && count as real * d == CLUSTER_HASH_SLOTS as real && d > 0.0 && (count <= CLUSTER_HASH_SLOTS ==> d >= 1.0)
  {
    var d := CLUSTER_HASH_SLOTS as real / count as real;
    Quotient(count, d, CLUSTER_HASH_SLOTS / count, CLUSTER_HASH_SLOTS);
    Quotient(count, d, (CLUSTER_HASH_SLOTS + count - 1) / count, CLUSTER_HASH_SLOTS);
    Quotient(count, d, 1, CLUSTER_HASH_SLOTS);
    Quotient(count, d, 0, CLUSTER_HASH_SLOTS);
  }

  lemma Quotient(count: nat, d: real, a: nat, s: nat)
    requires 0 < count && d == s as real / count as real
    ensures count as real * d == s as real
    ensures (a * count <= s ==> a as real <= d) && (a * count >= s ==> d <= a as real)
            && (a * count < s ==> a as real < d)
  {
    Products(a, count);
    assert count as real * d == s as real;
    if d < a as real { Scale(count as real, d, a as real); }
    else if d > a as real { Scale(count as real, a as real, d); }
  }

  lemma Products(a: nat, b: int)
    ensures (a * b) as real == a as real * b as real
  {}

  lemma Scale(n: real, a: real, b: real)
    requires n > 0.0 && a < b
    ensures n * a < n * b
  {}

  /** Steps of d between rounded numbers. */
  lemma Steps(x: real, d: real, lo: int, hi: int)
    requires lo as real <= d <= hi as real
    ensures lo <= (x + d).Floor - x.Floor <= hi
  {}

  ghost predicate FairRanges(rs: seq<Range>, count: nat)
    requires count > 0
  {
    forall i :: 0 <= i < |rs| ==> Fair(rs[i].Size(), count)
  }

  /** The value of cursor after i masters. */
  function Cursor(i: nat, d: real): real
  {
    if i == 0 then 0.0 else Cursor(i - 1, d) + d
  }

  lemma {:induction false} CursorIs(i: nat, d: real)
    ensures Cursor(i, d) == i as real * d
  {
    if i > 0 { CursorIs(i - 1, d); }
  }

  /** The loop of alloc_slots after so many masters, each with d slots. */
  ghost predicate Slotted(rs: seq<Range>, count: nat, first: int, cursor: real, d: real)
    requires count > 0
  {
    && |rs| <= count && Contiguous(rs) && first == (if rs == [] then 0 else rs[|rs| - 1].last + 1) && first >= |rs|
    && cursor == Cursor(|rs|, d)
    && (count <= CLUSTER_HASH_SLOTS ==> first == (cursor - 0.5).Floor + 1 && FairRanges(rs, count))
    && (count <= CLUSTER_HASH_SLOTS ==> Ends(rs, d))
  }

  /** Where the ranges end. */
  ghost predicate Ends(rs: seq<Range>, d: real)
  {
    forall i :: 0 <= i < |rs| ==> rs[i].last == (Cursor(i + 1, d) - 0.5).Floor
  }

  lemma EndsNext(rs: seq<Range>, d: real, r: Range, cursor: real)
    requires Ends(rs, d) && cursor == Cursor(|rs| + 1, d) && r.last == (cursor - 0.5).Floor
    ensures Ends(rs + [r], d)
  {}

  /** m is the number next to a / b, or the greater of two. */
  predicate Nearest(m: int, a: nat, b: nat)
  {
    2 * b * m <= 2 * a + b < 2 * b * (m + 1)
  }

  /** The range of master i ends where so many exact shares end, rounded. */
  ghost predicate Rounding(rs: seq<Range>, count: nat)
  {
    forall i :: 0 <= i < |rs| ==> Nearest(rs[i].last + 1, (i + 1) * CLUSTER_HASH_SLOTS, count)
  }

  lemma RoundingSlot(i: nat, count: nat, d: real, last: int)
    requires count > 0 && d == CLUSTER_HASH_SLOTS as real / count as real && last == ((i + 1) as real * d - 0.5).Floor
    ensures Nearest(last + 1, (i + 1) * CLUSTER_HASH_SLOTS, count)
  {
    var n, k := count as real, (i + 1) as real;
    assert n * (k * d) == k * CLUSTER_HASH_SLOTS as real by {
      Share(count);
      Exchange(n, k, d);
    }
    NearestTo(last + 1, (i + 1) * CLUSTER_HASH_SLOTS, count, k * d);
  }

  lemma NearestTo(m: int, a: nat, b: nat, x: real)
    requires b > 0 && b as real * x == a as real && m as real <= x + 0.5 < (m + 1) as real
    ensures Nearest(m, a, b)
  {
    var y := x + 0.5;
    assert b as real * y == a as real + b as real / 2.0 by { HalfMore(b as real, x); }
    Below(b, m, y);
    Below(b, m + 1, y);
    Doubled(b, m, a);
  }

  lemma Below(b: nat, m: int, y: real)
    requires b > 0
    ensures m as real <= y ==> (b * m) as real <= b as real * y
    ensures y < m as real ==> b as real * y < (b * m) as real
  {
    var z := m as real;
    assert (b * m) as real == b as real * z by { Products(b, m); }
    if z < y { Scale(b as real, z, y); } else if y < z { Scale(b as real, y, z); }
  }

  lemma HalfMore(n: real, x: real)
    ensures n * (x + 0.5) == n * x + n / 2.0
  {}

  lemma Exchange(x: real, y: real, z: real)
    ensures x * (y * z) == y * (x * z)
  {}

  lemma EndsRounded(rs: seq<Range>, count: nat, d: real)
    requires count > 0 && d == CLUSTER_HASH_SLOTS as real / count as real && Ends(rs, d)
    ensures Rounding(rs, count)
  {
    forall i | 0 <= i < |rs| ensures Nearest(rs[i].last + 1, (i + 1) * CLUSTER_HASH_SLOTS, count) {
      CursorIs(i + 1, d);
      RoundingSlot(i, count, d, rs[i].last);
    }
  }

  lemma Doubled(b: nat, m: int, a: nat)
    requires (b * m) as real <= a as real + b as real / 2.0 < (b * (m + 1)) as real
    ensures Nearest(m, a, b)
  {}

  /** The range that the loop gives to the next master. */
  function NextRange(i: nat, count: nat, first: int, cursor: real, d: real): Range
  {
    var last := Round(cursor + d - 1.0);
    var last' := if last > CLUSTER_HASH_SLOTS || i == count - 1 then CLUSTER_HASH_SLOTS - 1 else last;
    Range(first, if last' < first then first else last')
  }

  lemma NextFits(i: nat, count: nat, first: int, cursor: real, d: real)
    requires i < count && d == CLUSTER_HASH_SLOTS as real / count as real && cursor == Cursor(i, d)
    requires count <= CLUSTER_HASH_SLOTS ==> first == (cursor - 0.5).Floor + 1
    ensures var r := NextRange(i, count, first, cursor, d);
            && cursor + d == Cursor(i + 1, d) && r.first == first <= r.last
            && (count <= CLUSTER_HASH_SLOTS ==> r.last + 1 == (cursor + d - 0.5).Floor + 1 && Fair(r.Size(), count))
            && (count <= CLUSTER_HASH_SLOTS && i == count - 1 ==> r.last == CLUSTER_HASH_SLOTS - 1)
  {
    if count <= CLUSTER_HASH_SLOTS {
      CursorIs(i, d);
      LastSlot(i, count, d, cursor);
    }
  }

  lemma SlottedNext(rs: seq<Range>, i: nat, count: nat, first: int, cursor: real, d: real, r: Range, cursor': real)
    requires count > 0 && Slotted(rs, count, first, cursor, d) && i == |rs| < count && r.first == first <= r.last
    requires cursor' == Cursor(i + 1, d)
    requires count <= CLUSTER_HASH_SLOTS ==> r.last + 1 == (cursor' - 0.5).Floor + 1 && Fair(r.Size(), count)
    ensures Slotted(rs + [r], count, r.last + 1, cursor', d)
  {
    if count <= CLUSTER_HASH_SLOTS { EndsNext(rs, d, r, cursor'); }
  }

  lemma SlottedStart(count: nat, d: real)
    requires count > 0
    ensures Slotted([], count, 0, 0.0, d)
  {}

  lemma SlottedStep(rs: seq<Range>, count: nat, first: int, cursor: real, d: real, r: Range, cursor': real)
    requires |rs| < count && Slotted(rs, count, first, cursor, d) && d == CLUSTER_HASH_SLOTS as real / count as real
    requires r == NextRange(|rs|, count, first, cursor, d) && cursor' == cursor + d
    ensures Slotted(rs + [r], count, r.last + 1, cursor', d)
    ensures count <= CLUSTER_HASH_SLOTS && |rs| == count - 1 ==> r.last == CLUSTER_HASH_SLOTS - 1
  {
    NextFits(|rs|, count, first, cursor, d);
    SlottedNext(rs, |rs|, count, first, cursor, d, r, cursor');
  }

  /** redis-trib.rb:546-552. */
  method TakeRange(i: nat, count: nat, first: int, cursor: real, d: real) returns (r: Range)
    ensures r == NextRange(i, count, first, cursor, d)
  {
    var last := Round(cursor + d - 1.0);
    if last > CLUSTER_HASH_SLOTS || i == count - 1 {
      last := CLUSTER_HASH_SLOTS - 1;
    }
    if last < first { last := first; }
    r := Range(first, last);
  }

  /** The next master: redis-trib.rb:546-554. */
  method AssignRange(rs: seq<Range>, count: nat, first: int, cursor: real, d: real)
    returns (rs': seq<Range>, first': int, cursor': real)
    requires |rs| < count && Slotted(rs, count, first, cursor, d) && d == CLUSTER_HASH_SLOTS as real / count as real
    ensures |rs'| == |rs| + 1 && rs'[..|rs|] == rs && rs'[|rs|].first == first && first' == rs'[|rs|].last + 1
    ensures Slotted(rs', count, first', cursor', d) && cursor' == cursor + d
    ensures count <= CLUSTER_HASH_SLOTS && |rs'| == count ==> rs'[count - 1].last == CLUSTER_HASH_SLOTS - 1
  {
    var range := TakeRange(|rs|, count, first, cursor, d);
    first', cursor' := range.last + 1, cursor + d;
    SlottedStep(rs, count, first, cursor, d, range, cursor');
    rs' := rs + [range];
  }

  /** redis-trib.rb:543-555 over exact numbers: the ranges partition the slots exactly
      when there are not more masters than slots, and then they are fair. */
  method AssignSlots(count: nat) returns (rs: seq<Range>)
    requires count > 0
    ensures |rs| == count && Contiguous(rs)
    ensures rs[count - 1].last == CLUSTER_HASH_SLOTS - 1 <==> count <= CLUSTER_HASH_SLOTS
    ensures count <= CLUSTER_HASH_SLOTS ==> FairRanges(rs, count) && Rounding(rs, count)
  {
    var slotsPerNode := CLUSTER_HASH_SLOTS as real / count as real;
    var first, cursor := 0, 0.0;
    rs := [];
    var masternum := 0;
    SlottedStart(count, slotsPerNode);
    while masternum < count
      invariant masternum == |rs| <= count && Slotted(rs, count, first, cursor, slotsPerNode)
      invariant 0 < masternum == count <= CLUSTER_HASH_SLOTS ==> rs[count - 1].last == CLUSTER_HASH_SLOTS - 1
    {
      rs, first, cursor := AssignRange(rs, count, first, cursor, slotsPerNode);
      masternum := masternum + 1;
    }
    if count <= CLUSTER_HASH_SLOTS { EndsRounded(rs, count, slotsPerNode); }
  }

  /** The last slot of a master, before any correction. */
  lemma LastSlot(i: nat, count: nat, d: real, cursor: real)
    requires i < count <= CLUSTER_HASH_SLOTS && d == CLUSTER_HASH_SLOTS as real / count as real
             && cursor == i as real * d
    ensures cursor + d == (i + 1) as real * d
    ensures var first, next := (cursor - 0.5).Floor + 1, (cursor + d - 0.5).Floor;
            && Round(cursor + d - 1.0) == next < CLUSTER_HASH_SLOTS && Fair(next - first + 1, count) && first <= next
            && (i == count - 1 ==> next == CLUSTER_HASH_SLOTS - 1)
  {
    var x := cursor + d - 0.5;
    Share(count);
    Advance(i, count, d);
    assert 0.5 <= x <= CLUSTER_HASH_SLOTS as real - 0.5 by { NonNegative(i, d); }
    assert Round(cursor + d - 1.0) == x.Floor < CLUSTER_HASH_SLOTS;
    var lo, hi := CLUSTER_HASH_SLOTS / count, (CLUSTER_HASH_SLOTS + count - 1) / count;
    Steps(cursor - 0.5, d, lo, hi);
    assert x == cursor - 0.5 + d;
    Whole(count);
  }

  lemma NonNegative(i: nat, d: real)
    requires d >= 0.0
    ensures i as real * d >= 0.0
  {}

  lemma Whole(count: nat)
    requires 0 < count <= CLUSTER_HASH_SLOTS
    ensures CLUSTER_HASH_SLOTS / count >= 1
  {}

  lemma Advance(i: nat, count: nat, d: real)
    requires i < count && count as real * d == CLUSTER_HASH_SLOTS as real && d > 0.0
    ensures i as real * d + d == (i + 1) as real * d <= CLUSTER_HASH_SLOTS as real
    ensures i == count - 1 ==> (i + 1) as real * d == CLUSTER_HASH_SLOTS as real
  {
    var rest := (count - i - 1) as real;
    assert count as real == (i + 1) as real + rest;
    assert count as real * d == (i + 1) as real * d + rest * d;
    assert rest * d >= 0.0;
  }

  // ---------------------------------------------------------------- replicas

  function Min(a: nat, b: nat): nat
  {
    if a < b then a else b
  }

  /** All nodes that are left are on this host. */
  ghost predicate AllOn(ips: seq<Group>, host: string)
  {
    forall g :: 0 <= g < |ips| && ips[g].host != host ==> ips[g].nodes == []
  }

  /** The host of the master is used only if no other has a node left. */
  ghost predicate Eligible(ips: seq<Group>, g: nat, host: string)
    requires g < |ips|
  {
    ips[g].nodes != [] && (ips[g].host == host ==> AllOn(ips, host))
  }

  /** redis-trib.rb:583-593: the first node of the first host that will do. */
  method PickReplica(ips: seq<Group>, host: string, nodesCount: nat)
    returns (n: Node, r: seq<Group>, ghost first: nat)
    requires Grouped(ips) && nodesCount == |Left(ips)| > 0
    ensures first < |ips| && Eligible(ips, first, host) && forall g :: 0 <= g < first ==> !Eligible(ips, g, host)
    ensures n == ips[first].nodes[0] && r == ips[first := Group(n.host, ips[first].nodes[1..])]
    ensures Grouped(r) && multiset(Left(ips)) == multiset(Left(r)) + multiset{n} && |Left(ips)| == |Left(r)| + 1
    ensures (n.host == host ==> AllOn(ips, host)) && forall h: string :: AllOn(ips, h) ==> n.host == h && AllOn(r, h)
  {
    ghost var e := SomeEligible(ips, host);
    var g := 0;
    while ips[g].nodes == [] || (ips[g].host == host && nodesCount > |ips[g].nodes|)
      invariant g <= e < |ips| && forall h :: 0 <= h < g ==> !Eligible(ips, h, host)
      decreases e - g
    {
      NotEligible(ips, g, host);
      g := g + 1;
    }
    LeftBound(ips, g);
    first := g;
    n, r := Shift(ips, g);
    if n.host == host { Alone(ips, g); }
    forall h: string | AllOn(ips, h) ensures n.host == h && AllOn(r, h) {
      assert ips[g].host == h;
    }
  }

  lemma NotEligible(ips: seq<Group>, g: nat, host: string)
    requires Grouped(ips) && g < |ips|
    requires ips[g].nodes == [] || (ips[g].host == host && |Left(ips)| > |ips[g].nodes|)
    ensures !Eligible(ips, g, host)
  {
    LeftBound(ips, g);
  }

  /** A group that has all the nodes. */
  lemma Alone(ips: seq<Group>, g: nat)
    requires Grouped(ips) && g < |ips| && |ips[g].nodes| == |Left(ips)|
    ensures AllOn(ips, ips[g].host)
  {
    forall h | 0 <= h < |ips| && ips[h].host != ips[g].host ensures ips[h].nodes == [] {
      Two(ips, g, h);
    }
  }

  lemma Two(ips: seq<Group>, g: nat, h: nat)
    requires g < |ips| && h < |ips| && g != h
    ensures |ips[g].nodes| + |ips[h].nodes| <= |Left(ips)|
  {
    LeftSplit(ips, g);
    if h < g {
      assert ips[..g][h] == ips[h];
      LeftBound(ips[..g], h);
    } else {
      assert ips[g + 1..][h - g - 1] == ips[h];
      LeftBound(ips[g + 1..], h - g - 1);
    }
  }

  /** While nodes are left, a group is eligible. */
  lemma SomeEligible(ips: seq<Group>, host: string) returns (e: nat)
    requires Grouped(ips) && |Left(ips)| > 0
    ensures e < |ips| && ips[e].nodes != [] && !(ips[e].host == host && |Left(ips)| > |ips[e].nodes|)
  {
    if forall h :: 0 <= h < |ips| ==> ips[h].nodes == [] { LeftEmpty(ips); }
    e :| 0 <= e < |ips| && ips[e].nodes != [];
    LeftBound(ips, e);
    if ips[e].host == host && |Left(ips)| > |ips[e].nodes| {
      e :| 0 <= e < |ips| && ips[e].host != host && ips[e].nodes != [];
    }
  }

  function Repeat(x: nat, n: nat): seq<nat>
  {
    if n == 0 then [] else Repeat(x, n - 1) + [x]
  }

  /** So many replicas for each of the first masters. */
  function Blocks(masters: nat, replicas: nat): seq<nat>
  {
    if masters == 0 then [] else Blocks(masters - 1, replicas) + Repeat(masters - 1, replicas)
  }

  /** A replica is on its master's host only if from then on all nodes are there. */
  ghost predicate Spread(masters: seq<Node>, slaves: seq<Node>, owner: seq<nat>, ips: seq<Group>)
  {
    && |owner| == |slaves| && (forall x :: 0 <= x < |owner| ==> owner[x] < |masters|)
    && forall x :: 0 <= x < |slaves| && slaves[x].host == masters[owner[x]].host ==>
         AllOn(ips, slaves[x].host) && forall y :: x <= y < |slaves| ==> slaves[y].host == slaves[x].host
  }

  lemma SpreadMore(masters: seq<Node>, slaves: seq<Node>, owner: seq<nat>, ips: seq<Group>, m: nat, n: Node,
                   r: seq<Group>)
    requires Spread(masters, slaves, owner, ips) && m < |masters|
    requires n.host == masters[m].host ==> AllOn(ips, masters[m].host)
    requires forall h: string :: AllOn(ips, h) ==> n.host == h && AllOn(r, h)
    ensures Spread(masters, slaves + [n], owner + [m], r)
  {}

  /** redis-trib.rb:583-593 with the bookkeeping. */
  method AssignOne(masters: seq<Node>, m: nat, ips: seq<Group>, slaves: seq<Node>, owner: seq<nat>, nodesCount: nat)
    returns (r: seq<Group>, sl: seq<Node>, ow: seq<nat>)
    requires Grouped(ips) && m < |masters| && Spread(masters, slaves, owner, ips) && nodesCount == |Left(ips)| > 0
    ensures Grouped(r) && Spread(masters, sl, ow, r) && ow == owner + [m] && |Left(r)| == nodesCount - 1
    ensures multiset(sl) + multiset(Left(r)) == multiset(slaves) + multiset(Left(ips))
  {
    var n;
    ghost var first;
    n, r, first := PickReplica(ips, masters[m].host, nodesCount);
    SpreadMore(masters, slaves, owner, ips, m, n, r);
    sl, ow := slaves + [n], owner + [m];
  }

  /** redis-trib.rb:571-594: up to the requested number of replicas for master m. */
  method AssignTo(masters: seq<Node>, m: nat, ips: seq<Group>, replicas: nat, slaves: seq<Node>, owner: seq<nat>,
                  nodesCount: nat)
    returns (r: seq<Group>, sl: seq<Node>, ow: seq<nat>, left: nat)
    requires Grouped(ips) && m < |masters| && Spread(masters, slaves, owner, ips) && nodesCount == |Left(ips)|
    ensures Grouped(r) && left == |Left(r)| && Spread(masters, sl, ow, r)
    ensures multiset(sl) + multiset(Left(r)) == multiset(slaves) + multiset(Left(ips))
    ensures ow == owner + Repeat(m, Min(replicas, nodesCount)) && left == nodesCount - Min(replicas, nodesCount)
  {
    r, sl, ow, left := ips, slaves, owner, nodesCount;
    var given := 0;
    while given < replicas
      invariant given <= replicas && left == |Left(r)| == nodesCount - given && Grouped(r) && Spread(masters, sl, ow, r)
      invariant multiset(sl) + multiset(Left(r)) == multiset(slaves) + multiset(Left(ips))
      invariant ow == owner + Repeat(m, given)
    {
      if left == 0 { break; }
      r, sl, ow := AssignOne(masters, m, r, sl, ow, left);
      left := left - 1;
      given := given + 1;
    }
  }

  /** One of the two rounds over the masters: redis-trib.rb:570-596.  The nodes are
      enough for all masters in the first, and at most enough for one in the second. */
  method AssignRound(masters: seq<Node>, ips: seq<Group>, replicas: nat, slaves: seq<Node>, owner: seq<nat>,
                     nodesCount: nat)
    returns (r: seq<Group>, sl: seq<Node>, ow: seq<nat>, left: nat)
    requires Grouped(ips) && masters != [] && Spread(masters, slaves, owner, ips) && nodesCount == |Left(ips)|
    requires nodesCount >= |masters| * replicas || nodesCount <= replicas
    ensures Grouped(r) && left == |Left(r)| && Spread(masters, sl, ow, r)
    ensures multiset(sl) + multiset(Left(r)) == multiset(slaves) + multiset(Left(ips))
    ensures nodesCount >= |masters| * replicas ==>
              ow == owner + Blocks(|masters|, replicas) && left == nodesCount - |masters| * replicas
    ensures nodesCount <= replicas ==> ow == owner + Repeat(0, nodesCount) && left == 0
  {
    r, sl, ow, left := ips, slaves, owner, nodesCount;
    ghost var need := |masters| * replicas;
    var m := 0;
    while m < |masters|
      invariant m <= |masters| && left == |Left(r)| && Grouped(r) && Spread(masters, sl, ow, r)
      invariant multiset(sl) + multiset(Left(r)) == multiset(slaves) + multiset(Left(ips))
      invariant Rounded(nodesCount, need, replicas, owner, m, ow, left)
    {
      ghost var o, before := ow, left;
      r, sl, ow, left := AssignTo(masters, m, r, replicas, sl, ow, left);
      RoundedNext(nodesCount, |masters|, replicas, owner, m, o, before);
      m := m + 1;
    }
  }

  /** The replicas given in a round to the first m masters. */
  ghost predicate Rounded(nodes: nat, need: nat, replicas: nat, owner: seq<nat>, m: nat, ow: seq<nat>, left: nat)
  {
    && (nodes >= need ==> ow == owner + Blocks(m, replicas) && left == nodes - m * replicas)
    && (nodes <= replicas ==>
        if m == 0 then ow == owner && left == nodes else ow == owner + Repeat(0, nodes) && left == 0)
  }

  lemma RoundedNext(nodes: nat, masters: nat, replicas: nat, owner: seq<nat>, m: nat, ow: seq<nat>, left: nat)
    requires m < masters && Rounded(nodes, masters * replicas, replicas, owner, m, ow, left)
    ensures var n := Min(replicas, left);
            Rounded(nodes, masters * replicas, replicas, owner, m + 1, ow + Repeat(m, n), left - n)
  {
    Enough(m, masters, replicas);
    assert (owner + Blocks(m, replicas)) + Repeat(m, replicas) == owner + Blocks(m + 1, replicas);
    assert ow + Repeat(m, 0) == ow;
  }

  lemma Enough(m: nat, masters: nat, replicas: nat)
    requires m < masters
    ensures m * replicas + replicas == (m + 1) * replicas <= masters * replicas
  {
    var rest := masters - m - 1;
    assert masters * replicas == (m + 1) * replicas + rest * replicas;
    assert rest * replicas >= 0;
  }

  // -------------------------------------------------------------- allocation

  /** alloc_slots, redis-trib.rb:510-598.  Of the results, ranges[k] are the slots of
      masters[k], and slaves[x] becomes a replica of masters[owner[x]].  Every node is
      a master or a replica, once; every master gets the requested replicas, and the
      first also those that are left over.  With at most as many nodes as replicas are
      requested there is no master, and nothing is assigned. */
  method AllocSlots(nodes: seq<Node>, replicas: nat)
    returns (masters: seq<Node>, ranges: seq<Range>, slaves: seq<Node>, owner: seq<nat>)
    ensures |masters| == |nodes| / (replicas + 1) && (masters == [] <==> |nodes| <= replicas)
    ensures if masters == [] then slaves == [] && owner == []
            else multiset(nodes) == multiset(masters) + multiset(slaves)
    ensures |ranges| == |masters| && Contiguous(ranges)
    ensures 0 < |masters| <= CLUSTER_HASH_SLOTS ==>
              && ranges[|masters| - 1].last == CLUSTER_HASH_SLOTS - 1
              && FairRanges(ranges, |masters|) && Rounding(ranges, |masters|)
    ensures Spread(masters, slaves, owner, []) && (masters != [] ==> Balanced(masters, nodes))
    ensures forall k :: 0 <= k < |masters| ==>
              Times(owner, k) == replicas + if k == 0 then |nodes| % (replicas + 1) else 0
  {
    var mastersCount := |nodes| / (replicas + 1);
    NoMasters(|nodes|, replicas);
    if mastersCount == 0 {
      // The share is infinite, but no loop has a master to go over.
      return [], [], [], [];
    }
    ghost var rest := Leftover(|nodes|, mastersCount, replicas);
    var ips;
    ips, masters := ChooseMasters(nodes, mastersCount);
    ranges := AssignSlots(mastersCount);
    slaves, owner := AssignReplicas(masters, ips, replicas, |nodes| - mastersCount, rest);
    forall k | 0 <= k < mastersCount ensures Times(owner, k) == replicas + if k == 0 then rest else 0 {
      Owners(mastersCount, replicas, rest, k);
    }
  }

  method ChooseMasters(nodes: seq<Node>, count: nat) returns (ips: seq<Group>, masters: seq<Node>)
    requires count <= |nodes|
    ensures Grouped(ips) && |masters| == count && |Left(ips)| == |nodes| - count
    ensures multiset(nodes) == multiset(masters) + multiset(Left(ips)) && Balanced(masters, nodes)
  {
    ips := GroupByHost(nodes);
    ghost var all := Left(ips);
    ips, masters := SelectMasters(ips, count);
    BalancedSame(masters, all, nodes);
  }

  /** redis-trib.rb:570-597. */
  method AssignReplicas(masters: seq<Node>, ips: seq<Group>, replicas: nat, nodesCount: nat, ghost rest: nat)
    returns (slaves: seq<Node>, owner: seq<nat>)
    requires Grouped(ips) && masters != [] && nodesCount == |Left(ips)| == |masters| * replicas + rest
             && rest <= replicas
    ensures Spread(masters, slaves, owner, []) && multiset(slaves) == multiset(Left(ips))
    ensures owner == Blocks(|masters|, replicas) + Repeat(0, rest)
  {
    var r, left;
    r, slaves, owner, left := FirstRound(masters, ips, replicas, nodesCount, rest);
    r, slaves, owner, left := SecondRound(masters, r, replicas, slaves, owner, left);
    NothingLeft(slaves, r, ips);
  }

  method FirstRound(masters: seq<Node>, ips: seq<Group>, replicas: nat, nodesCount: nat, ghost rest: nat)
    returns (r: seq<Group>, sl: seq<Node>, ow: seq<nat>, left: nat)
    requires Grouped(ips) && masters != [] && nodesCount == |Left(ips)| == |masters| * replicas + rest
    ensures Grouped(r) && left == |Left(r)| == rest && Spread(masters, sl, ow, r)
    ensures multiset(sl) + multiset(Left(r)) == multiset(Left(ips)) && ow == Blocks(|masters|, replicas)
  {
    r, sl, ow, left := AssignRound(masters, ips, replicas, [], [], nodesCount);
    assert [] + Blocks(|masters|, replicas) == Blocks(|masters|, replicas);
  }

  method SecondRound(masters: seq<Node>, ips: seq<Group>, replicas: nat, slaves: seq<Node>, owner: seq<nat>,
                     nodesCount: nat)
    returns (r: seq<Group>, sl: seq<Node>, ow: seq<nat>, left: nat)
    requires Grouped(ips) && masters != [] && Spread(masters, slaves, owner, ips)
             && nodesCount == |Left(ips)| <= replicas
    ensures Grouped(r) && left == |Left(r)| == 0 && Spread(masters, sl, ow, [])
    ensures multiset(sl) + multiset(Left(r)) == multiset(slaves) + multiset(Left(ips))
            && ow == owner + Repeat(0, nodesCount)
  {
    r, sl, ow, left := AssignRound(masters, ips, replicas, slaves, owner, nodesCount);
  }

  lemma NothingLeft(slaves: seq<Node>, r: seq<Group>, ips: seq<Group>)
    requires multiset(slaves) + multiset(Left(r)) == multiset(Left(ips)) && |Left(r)| == 0
    ensures multiset(slaves) == multiset(Left(ips))
  {
    assert Left(r) == [];
    assert multiset(Left(r)) == multiset{};
    assert multiset(slaves) + multiset{} == multiset(slaves);
  }

  /** How often k occurs in s. */
  function Times(s: seq<nat>, k: nat): nat
  {
    if s == [] then 0 else (if s[|s| - 1] == k then 1 else 0) + Times(s[..|s| - 1], k)
  }

  lemma {:induction false} TimesConcat(a: seq<nat>, b: seq<nat>, k: nat)
    ensures Times(a + b, k) == Times(a, k) + Times(b, k)
  {
    if b == [] {
      assert a + b == a;
    } else {
      assert (a + b)[..|a + b| - 1] == a + b[..|b| - 1];
      TimesConcat(a, b[..|b| - 1], k);
    }
  }

  lemma {:induction false} TimesRepeat(x: nat, n: nat, k: nat)
    ensures Times(Repeat(x, n), k) == if k == x then n else 0
  {
    if n > 0 {
      assert Repeat(x, n)[..|Repeat(x, n)| - 1] == Repeat(x, n - 1);
      TimesRepeat(x, n - 1, k);
    }
  }

  lemma {:induction false} TimesBlocks(masters: nat, replicas: nat, k: nat)
    ensures Times(Blocks(masters, replicas), k) == if k < masters then replicas else 0
  {
    if masters > 0 {
      TimesConcat(Blocks(masters - 1, replicas), Repeat(masters - 1, replicas), k);
      TimesBlocks(masters - 1, replicas, k);
      TimesRepeat(masters - 1, replicas, k);
    }
  }

  /** How many replicas each master has. */
  lemma Owners(masters: nat, replicas: nat, rest: nat, k: nat)
    requires k < masters
    ensures Times(Blocks(masters, replicas) + Repeat(0, rest), k) == replicas + if k == 0 then rest else 0
  {
    TimesConcat(Blocks(masters, replicas), Repeat(0, rest), k);
    TimesBlocks(masters, replicas, k);
    TimesRepeat(0, rest, k);
  }

  lemma NoMasters(n: nat, r: nat)
    ensures n / (r + 1) == 0 <==> n <= r
  {}

  lemma Leftover(n: nat, m: nat, r: nat) returns (rest: nat)
    requires m == n / (r + 1) && n > r
    ensures rest == n % (r + 1) <= r && n - m == m * r + rest && 0 < m <= n
  {
    rest := n % (r + 1);
    assert n == (r + 1) * m + rest;
    assert (r + 1) * m == m + m * r;
  }
}
