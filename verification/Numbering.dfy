/**
 The parallel global numbering of one/grid.c: recycling of ids, relabelling, and the moves of nodes
 between table slots, over the node table of NodeStore.
 */
module GlobalNumbering {
  import opened Common
  import opened ItemStore
  import opened Packing
  import opened Geometry
  import opened NodeStore
  import opened Sorting

  /** The ids waiting for reuse are sorted, without repetition, below `top`, and none is in use. */
  ghost predicate IdsOk(xyz: seq<Point>, global: seq<int>, unused: seq<int>, top: int) {
    && |global| == |xyz|
    && forall u :: Unfold(u) ==>
         && Increasing(unused)
         && (forall i :: 0 <= i < |unused| ==> 0 <= unused[i] < top)
         && (forall n :: IsValid(xyz, n) ==> 0 <= global[n] < top && global[n] !in unused)
  }

  lemma UnusedIsIncreasing(xyz: seq<Point>, global: seq<int>, unused: seq<int>, top: int)
    requires IdsOk(xyz, global, unused, top)
    ensures Increasing(unused) && forall i :: 0 <= i < |unused| ==> 0 <= unused[i] < top
  {
    assert Unfold(0) && UnfoldIds(0);
  }

  ghost predicate Numbered(g: Nodes)
    reads g
  {
    g.Valid() && g.hasGlobal && IdsOk(g.xyz, g.nodeGlobal, g.unused, g.globalNNode)
  }

  /** The next id is not in use, and taking it keeps the ids apart. */
  lemma NextIdIsFree(xyz: seq<Point>, global: seq<int>, unused: seq<int>, top: int)
    requires IdsOk(xyz, global, unused, top)
    ensures unused != [] ==> unused[0] >= 0 && forall n :: IsValid(xyz, n) ==> global[n] != unused[0]
    ensures unused == [] ==> forall n :: IsValid(xyz, n) ==> global[n] != top
  {
    assert Unfold(0) && UnfoldIds(0);
  }

  lemma IdsAdd(xyz: seq<Point>, global: seq<int>, unused: seq<int>, top: int, xyz': seq<Point>, global': seq<int>,
               node: nat)
    requires IdsOk(xyz, global, unused, top) && |global'| == |xyz'| && |xyz| <= |xyz'| && node < |xyz'| && top >= 0
    requires forall m :: 0 <= m < |xyz'| && m != node ==> (IsValid(xyz', m) <==> IsValid(xyz, m))
    requires forall m :: 0 <= m < |xyz| && m != node ==> global'[m] == global[m]
    requires global'[node] == if unused != [] then unused[0] else top
    ensures unused != [] ==> IdsOk(xyz', global', Dropped(unused, 0), top)
    ensures unused == [] ==> IdsOk(xyz', global', [], top + 1)
  {
    assert Unfold(0) && UnfoldIds(0);
    var unused' := if unused != [] then Dropped(unused, 0) else unused;
    assert forall x :: x in unused' ==> x in unused;
    forall n | IsValid(xyz', n) ensures global'[n] !in unused' {
      if n != node {
        assert IsValid(xyz, n);
      }
    }
  }

  /** gridGetNextNodeGlobal */
  method GetNextNodeGlobal(g: Nodes) returns (global: int)
    modifies g`unused, g`globalNNode
    ensures !g.hasGlobal ==> global == EMPTY && g.unused == old(g.unused) && g.globalNNode == old(g.globalNNode)
    ensures g.hasGlobal && old(g.unused) != [] ==>
      global == old(g.unused)[0] && g.unused == Dropped(old(g.unused), 0) && g.globalNNode == old(g.globalNNode)
    ensures g.hasGlobal && old(g.unused) == [] ==>
      global == old(g.globalNNode) && g.unused == old(g.unused) && g.globalNNode == old(g.globalNNode) + 1
  {
    if !g.hasGlobal {
      global := EMPTY;
    } else if |g.unused| > 0 {
      global := g.unused[0];
      g.unused := Drop(g.unused, 0);
    } else {
      global := g.globalNNode;
      g.globalNNode := g.globalNNode + 1;
    }
  }

  /** gridAddNode on a numbered grid: the node gets an id that no node has. */
  method AddNode(g: Nodes, x: real, y: real, z: real) returns (node: nat)
    requires Numbered(g) && g.globalNNode >= 0 && x != DBL_MAX
    modifies g
    ensures Numbered(g) && g.globalNNode >= 0 && node == old(g.NextNode()) && g.nnode == old(g.nnode) + 1
    ensures node < |g.xyz| == |g.nodeGlobal| && g.xyz[node] == Point(x, y, z) && !IsValid(old(g.xyz), node)
    ensures forall m :: IsValid(old(g.xyz), m) ==>
      IsValid(g.xyz, m) && g.xyz[m] == old(g.xyz)[m] && g.nodeGlobal[m] == old(g.nodeGlobal)[m]
    ensures forall m :: IsValid(g.xyz, m) && m != node ==>
      IsValid(old(g.xyz), m) && g.nodeGlobal[m] != g.nodeGlobal[node]
    ensures g.nodeGlobal[node] == if old(g.unused) != [] then old(g.unused)[0] else old(g.globalNNode)
    ensures g.unused == if old(g.unused) != [] then old(g.unused)[1..] else []
  {
    NextIdIsFree(g.xyz, g.nodeGlobal, g.unused, g.globalNNode);
    ghost var xyz, ids, unused, top := g.xyz, g.nodeGlobal, g.unused, g.globalNNode;
    var global := GetNextNodeGlobal(g);
    node := g.AddNodeWithGlobal(x, y, z, global);
    IdsAdd(xyz, ids, unused, top, g.xyz, g.nodeGlobal, node);
    assert unused != [] ==> Dropped(unused, 0) == unused[1..];
    StillDistinct(g.xyz, g.nodeGlobal, node);
  }

  lemma StillDistinct(xyz: seq<Point>, global: seq<int>, node: nat)
    requires GlobalsOk(xyz, global) && IsValid(xyz, node)
    ensures forall m :: IsValid(xyz, m) && m != node ==> global[m] != global[node]
  {
    assert Unfold(0) && UnfoldIds(0);
  }

  /** gridJoinUnusedNodeGlobal: a sorted insertion that ignores what is there already. */
  method JoinUnused(g: Nodes, global: int)
    requires Increasing(g.unused)
    modifies g`unused
    ensures Increasing(g.unused)
    ensures forall x :: x in g.unused <==> x in old(g.unused) || (x == global && global != EMPTY)
  {
    if global == EMPTY {
      return;
    }
    var insertpoint := InsertPoint(g.unused, global);
    if |g.unused| != insertpoint && g.unused[insertpoint] == global {
      return;
    }
    ghost var s := g.unused;
    g.unused := Insert(g.unused, insertpoint, global);
    JoinedMembers(s, insertpoint, global);
  }

  lemma JoinedMembers(s: seq<int>, p: nat, x: int)
    requires Increasing(s) && IsInsertPoint(s, x, p) && (p < |s| ==> s[p] != x)
    ensures Increasing(Inserted(s, p, x))
    ensures forall y :: y in Inserted(s, p, x) <==> y in s || y == x
  {
    forall y ensures y in Inserted(s, p, x) <==> y in s || y == x {
      InsertedMember(s, p, x, y);
    }
  }

  lemma InsertedMember(s: seq<int>, p: nat, x: int, y: int)
    requires p <= |s|
    ensures y in Inserted(s, p, x) <==> y in s || y == x
  {
    assert Inserted(s, p, x) == s[..p] + [x] + s[p..] && s == s[..p] + s[p..];
  }

  lemma IdsRemove(xyz: seq<Point>, global: seq<int>, unused: seq<int>, top: int, xyz': seq<Point>, unused': seq<int>,
                  node: nat)
    requires IdsOk(xyz, global, unused, top) && GlobalsOk(xyz, global) && IsValid(xyz, node) && |xyz'| == |xyz|
    requires !IsValid(xyz', node) && forall m :: 0 <= m < |xyz| && m != node ==> xyz'[m] == xyz[m]
    requires Increasing(unused') && forall x :: x in unused' <==> x in unused || x == global[node]
    ensures IdsOk(xyz', global, unused', top)
  {
    assert Unfold(0) && UnfoldIds(0);
    forall i | 0 <= i < |unused'| ensures 0 <= unused'[i] < top {
      assert unused'[i] in unused';
    }
    forall n | IsValid(xyz', n) ensures global[n] !in unused' && 0 <= global[n] < top {
      assert n != node && IsValid(xyz, n);
    }
  }

  /** gridRemoveNode: the id of the node becomes available. */
  method RemoveNode(g: Nodes, node: int) returns (ok: bool)
    requires Numbered(g) && g.globalNNode >= 0
    modifies g
    ensures Numbered(g) && g.globalNNode == old(g.globalNNode) && g.nodeGlobal == old(g.nodeGlobal)
    ensures ok == IsValid(old(g.xyz), node)
    ensures !ok ==> g.xyz == old(g.xyz) && g.unused == old(g.unused)
    ensures ok ==> |g.xyz| == |old(g.xyz)| && !IsValid(g.xyz, node)
    ensures ok ==> forall m :: 0 <= m < |g.xyz| && m != node ==> g.xyz[m] == old(g.xyz)[m]
    ensures ok ==> forall x :: x in g.unused <==> x in old(g.unused) || x == g.nodeGlobal[node]
  {
    ghost var xyz, unused := g.xyz, g.unused;
    UnusedIsIncreasing(g.xyz, g.nodeGlobal, g.unused, g.globalNNode);
    UsedIdIsNotEmpty(g.xyz, g.nodeGlobal, g.unused, g.globalNNode, node);
    ok := g.RemoveNodeWithOutGlobal(node);
    if ok {
      JoinUnused(g, g.nodeGlobal[node]);
      IdsRemove(xyz, g.nodeGlobal, unused, g.globalNNode, g.xyz, g.unused, node);
    }
  }

  lemma UsedIdIsNotEmpty(xyz: seq<Point>, global: seq<int>, unused: seq<int>, top: int, node: int)
    requires IdsOk(xyz, global, unused, top)
    ensures IsValid(xyz, node) ==> global[node] >= 0
  {
    assert Unfold(0) && UnfoldIds(0);
  }

  /** An id map that keeps the order of the ids in use. */
  ghost predicate KeepsOrder(xyz: seq<Point>, global: seq<int>, f: int -> int)
    requires |global| == |xyz|
  {
    forall n, m :: IsValid(xyz, n) && IsValid(xyz, m) && global[n] < global[m] ==> f(global[n]) < f(global[m])
  }

  /** Relabelling by an order-keeping map, in the table and in the index alike. */
  lemma Relabelled(xyz: seq<Point>, global: seq<int>, global': seq<int>, f: int -> int)
    requires GlobalsOk(xyz, global) && |global'| == |xyz| && KeepsOrder(xyz, global, f)
    requires forall n :: IsValid(xyz, n) ==> global'[n] == f(global[n])
    ensures GlobalsOk(xyz, global')
  {
    assert Unfold(0) && UnfoldIds(0);
    forall n, m | IsValid(xyz, n) && IsValid(xyz, m) && n != m ensures global'[n] != global'[m] {
      assert global[n] < global[m] || global[m] < global[n];
    }
  }

  lemma RelabelledSorted(xyz: seq<Point>, global: seq<int>, sg: seq<int>, sl: seq<int>, global': seq<int>,
                         sg': seq<int>, f: int -> int)
    requires SortedOk(xyz, global, sg, sl) && |global'| == |xyz| && KeepsOrder(xyz, global, f)
    requires forall n :: IsValid(xyz, n) ==> global'[n] == f(global[n])
    requires |sg'| == |sg| && forall i :: 0 <= i < |sg| ==> sg'[i] == f(sg[i])
    ensures SortedOk(xyz, global', sg', sl)
  {
    assert Unfold(0) && UnfoldIds(0);
    forall i | 0 <= i < |sg| ensures EntryOk(xyz, global', sg', sl, i) {
      assert EntryOk(xyz, global, sg, sl, i);
    }
    forall i, j | 0 <= i < j < |sg| ensures sg'[i] < sg'[j] {
      assert EntryOk(xyz, global, sg, sl, i) && EntryOk(xyz, global, sg, sl, j);
    }
    forall n | 0 <= n < |xyz| ensures Listed(xyz, global', sg', n) {
      assert Listed(xyz, global, sg, n);
      if IsValid(xyz, n) {
        var i :| 0 <= i < |sg| && sg[i] == global[n];
        assert sg'[i] == global'[n];
      }
    }
  }

  function Shifted(x: int, oldnnodeg: int, nodeoffset: int): int {
    if x >= oldnnodeg then x + nodeoffset else x
  }

  /** Ids below oldnnodeg stay, and ids from oldnnodeg on grow by nodeoffset. */
  ghost predicate AreShifted(ids: seq<int>, ids': seq<int>, oldnnodeg: int, nodeoffset: int) {
    && |ids'| == |ids|
    && (forall i :: 0 <= i < |ids| && ids[i] < oldnnodeg ==> ids'[i] == ids[i])
    && (forall i :: 0 <= i < |ids| && ids[i] >= oldnnodeg ==> ids'[i] == ids[i] + nodeoffset)
  }

  /**
   Why the ids are shifted: two partitions with the same ids below oldnnodeg give their new nodes ids
   from oldnnodeg on, the first of them at most m0. When the second is shifted by m0 more than the first,
   they share the old ids and no other.
   */
  lemma ShiftedApart(ids0: seq<int>, ids0': seq<int>, ids1: seq<int>, ids1': seq<int>, oldnnodeg: int, m0: nat,
                     offset0: nat, offset1: nat)
    requires AreShifted(ids0, ids0', oldnnodeg, offset0) && AreShifted(ids1, ids1', oldnnodeg, offset1)
    requires forall k :: k in ids0 ==> k < oldnnodeg + m0
    requires offset1 >= offset0 + m0
    ensures forall x :: x in ids0' && x in ids1' <==> x in ids0 && x in ids1 && x < oldnnodeg
  {
    forall x ensures x in ids0' && x in ids1' <==> x in ids0 && x in ids1 && x < oldnnodeg {
      ShiftedInto(ids0, ids0', oldnnodeg, offset0, x);
      ShiftedInto(ids1, ids1', oldnnodeg, offset1, x);
    }
  }

  /** Where a shifted id comes from. */
  lemma ShiftedInto(ids: seq<int>, ids': seq<int>, oldnnodeg: int, nodeoffset: nat, x: int)
    requires AreShifted(ids, ids', oldnnodeg, nodeoffset)
    ensures x in ids' <==> (x in ids && x < oldnnodeg) || (x - nodeoffset in ids && x - nodeoffset >= oldnnodeg)
  {
    if x in ids' {
      var i :| 0 <= i < |ids'| && ids'[i] == x;
      assert ids[i] in ids;
    }
    if x in ids && x < oldnnodeg {
      var i :| 0 <= i < |ids| && ids[i] == x;
      assert ids'[i] == x;
    }
    if x - nodeoffset in ids && x - nodeoffset >= oldnnodeg {
      var i :| 0 <= i < |ids| && ids[i] == x - nodeoffset;
      assert ids'[i] == x;
    }
  }

  /** gridGlobalShiftNode: ids from oldnnodeg on move up by nodeoffset. */
  method GlobalShiftNode(g: Nodes, oldnnodeg: int, newnnodeg: int, nodeoffset: int) returns (ok: bool)
    requires g.Valid() && nodeoffset >= 0
    modifies g`globalNNode, g`nodeGlobal, g`unused, g`sortedGlobal
    ensures g.Valid() && g.globalNNode == newnnodeg && ok == g.hasGlobal
    ensures !ok ==> g.nodeGlobal == old(g.nodeGlobal) && g.unused == old(g.unused)
    ensures ok ==> |g.nodeGlobal| == |g.xyz| == |old(g.nodeGlobal)|
    ensures ok ==> forall n :: IsValid(g.xyz, n) ==>
      g.nodeGlobal[n] == old(g.nodeGlobal)[n] + if old(g.nodeGlobal)[n] < oldnnodeg then 0 else nodeoffset
    ensures ok ==> forall n :: 0 <= n < |g.nodeGlobal| && !IsValid(g.xyz, n) ==> g.nodeGlobal[n] == old(g.nodeGlobal)[n]
    ensures ok ==> AreShifted(old(g.unused), g.unused, oldnnodeg, nodeoffset)
    ensures ok && g.hasSorted ==> AreShifted(old(g.sortedGlobal), g.sortedGlobal, oldnnodeg, nodeoffset)
    ensures !(ok && g.hasSorted) ==> g.sortedGlobal == old(g.sortedGlobal)
  {
    g.globalNNode := newnnodeg;
    if !g.hasGlobal {
      return false;
    }
    ghost var f := x => Shifted(x, oldnnodeg, nodeoffset);
    var globals, sorted := g.nodeGlobal, g.sortedGlobal;
    for node := 0 to g.maxnode
      invariant |globals| == g.maxnode
      invariant forall n :: 0 <= n < g.maxnode ==>
        globals[n] == if n < node && IsValid(g.xyz, n) then f(g.nodeGlobal[n]) else g.nodeGlobal[n]
    {
      if IsValid(g.xyz, node) && globals[node] >= oldnnodeg {
        globals := globals[node := globals[node] + nodeoffset];
      }
    }
    Relabelled(g.xyz, g.nodeGlobal, globals, f);
    g.unused := ShiftAll(g.unused, oldnnodeg, nodeoffset);
    if g.hasSorted {
      sorted := ShiftAll(g.sortedGlobal, oldnnodeg, nodeoffset);
      RelabelledSorted(g.xyz, g.nodeGlobal, g.sortedGlobal, g.sortedLocal, globals, sorted, f);
    }
    g.nodeGlobal, g.sortedGlobal := globals, sorted;
    ok := true;
  }

  method ShiftAll(s: seq<int>, oldnnodeg: int, nodeoffset: int) returns (r: seq<int>)
    ensures |r| == |s| && forall i :: 0 <= i < |s| ==> r[i] == Shifted(s[i], oldnnodeg, nodeoffset)
  {
    r := s;
    for node := 0 to |s|
      invariant |r| == |s|
      invariant forall i :: 0 <= i < |s| ==> r[i] == if i < node then Shifted(s[i], oldnnodeg, nodeoffset) else s[i]
    {
      if r[node] >= oldnnodeg {
        r := r[node := r[node] + nodeoffset];
      }
    }
  }

  /** How many ids of a list are below x. */
  ghost function CountBelow(s: seq<int>, x: int): nat {
    if s == [] then 0 else CountBelow(s[..|s| - 1], x) + if s[|s| - 1] < x then 1 else 0
  }

  lemma {:induction false} CountBelowIs(s: seq<int>, x: int, k: nat)
    requires Increasing(s) && k <= |s|
    requires forall i :: 0 <= i < k ==> s[i] < x
    requires forall i :: k <= i < |s| ==> s[i] >= x
    ensures CountBelow(s, x) == k
  {
    if s != [] {
      CountBelowIs(s[..|s| - 1], x, if k == |s| then k - 1 else k);
    }
  }

  /** What elimination makes of an id: all unused ids below it are squeezed out. */
  ghost function Squeezed(unused: seq<int>, x: int): int {
    x - CountBelow(unused, x)
  }

  /** Between two ids there is room for at most their difference of unused ids. */
  lemma {:induction false} CountBelowGrows(s: seq<int>, x: int, y: int)
    requires Increasing(s) && x < y && x !in s
    ensures CountBelow(s, x) <= CountBelow(s, y) <= CountBelow(s, x) + y - x - 1
  {
    if s != [] {
      var m := |s| - 1;
      assert s[m] in s;
      if s[m] < y {
        if s[m] > x {
          if x + 1 == s[m] {
            CountBelowAll(s, m, x, y);
          } else {
            CountBelowTail(s[..m], s[m], y);
            CountBelowGrows(s[..m], x, s[m]);
          }
        } else {
          CountBelowGrows(s[..m], x, y);
        }
      } else {
        CountBelowGrows(s[..m], x, y);
      }
    }
  }

  /** Nothing of a list lies between two ids. */
  lemma {:induction false} CountBelowTail(s: seq<int>, x: int, y: int)
    requires x <= y && forall i :: 0 <= i < |s| ==> s[i] < x
    ensures CountBelow(s, x) == CountBelow(s, y)
  {
    if s != [] {
      CountBelowTail(s[..|s| - 1], x, y);
    }
  }

  lemma {:induction false} CountBelowAll(s: seq<int>, m: nat, x: int, y: int)
    requires Increasing(s) && m == |s| - 1 && s[m] == x + 1 && s[m] < y && x !in s
    ensures CountBelow(s, y) == CountBelow(s, x) + 1
  {
    forall i | 0 <= i < m ensures s[..m][i] < x {
      assert s[i] != x;
    }
    CountBelowTail(s[..m], x, y);
  }

  /** Elimination keeps the order of the ids that stay. */
  lemma SqueezedMonotone(unused: seq<int>, x: int, y: int)
    requires Increasing(unused) && x < y && x !in unused
    ensures Squeezed(unused, x) < Squeezed(unused, y)
  {
    CountBelowGrows(unused, x, y);
  }

  lemma {:induction false} CountBelowBound(s: seq<int>, x: int)
    requires Increasing(s) && x >= 0 && forall i :: 0 <= i < |s| ==> s[i] >= 0
    ensures CountBelow(s, x) <= x && CountBelow(s, x) <= |s|
  {
    if s != [] {
      var m := |s| - 1;
      if s[m] < x {
        CountBelowTail(s[..m], s[m], x);
        CountBelowBound(s[..m], s[m]);
      } else {
        CountBelowBound(s[..m], x);
      }
    }
  }

  /** The ids that stay go below the new count. */
  lemma SqueezedRange(unused: seq<int>, top: int, x: int)
    requires Increasing(unused) && 0 <= x < top && x !in unused
    requires forall i :: 0 <= i < |unused| ==> 0 <= unused[i] < top
    ensures 0 <= Squeezed(unused, x) < top - |unused|
  {
    CountBelowBound(unused, x);
    CountBelowIs(unused, top, |unused|);
    SqueezedMonotone(unused, x, top);
  }

  /** They fill the new range without a gap: every k is the image of exactly one id. */
  lemma SqueezedOnto(unused: seq<int>, top: int, k: int) returns (x: int)
    requires Increasing(unused) && forall i :: 0 <= i < |unused| ==> 0 <= unused[i] < top
    requires 0 <= k < top - |unused|
    ensures 0 <= x < top && x !in unused && Squeezed(unused, x) == k
    ensures forall y :: 0 <= y < top && y !in unused && Squeezed(unused, y) == k ==> y == x
  {
    x := SqueezeSearch(unused, top, k, 0);
    forall y | 0 <= y < top && y !in unused && Squeezed(unused, y) == k ensures y == x {
      if y < x {
        SqueezedMonotone(unused, y, x);
      } else if x < y {
        SqueezedMonotone(unused, x, y);
      }
    }
  }

  /** Counting up from x through ids whose image is at most k. */
  lemma {:induction false} SqueezeSearch(unused: seq<int>, top: int, k: int, x: int) returns (r: int)
    requires Increasing(unused) && forall i :: 0 <= i < |unused| ==> 0 <= unused[i] < top
    requires 0 <= x <= top && 0 <= k < top - |unused| && Squeezed(unused, x) <= k
    ensures 0 <= r < top && r !in unused && Squeezed(unused, r) == k
    decreases top - x
  {
    CountBelowIs(unused, top, |unused|);
    assert x < top;
    CountBelowStep(unused, x);
    if x !in unused && Squeezed(unused, x) == k {
      r := x;
    } else {
      r := SqueezeSearch(unused, top, k, x + 1);
    }
  }

  lemma {:induction false} CountBelowStep(s: seq<int>, x: int)
    requires Increasing(s)
    ensures CountBelow(s, x + 1) == CountBelow(s, x) + if x in s then 1 else 0
  {
    if s != [] {
      var m := |s| - 1;
      CountBelowStep(s[..m], x);
      assert x in s <==> x in s[..m] || x == s[m] by {
        assert s == s[..m] + [s[m]];
      }
      assert s[m] !in s[..m];
    }
  }

  lemma IndexIsInverse(xyz: seq<Point>, global: seq<int>, sg: seq<int>, sl: seq<int>)
    requires GlobalsOk(xyz, global) && SortedOk(xyz, global, sg, sl)
    ensures Increasing(sg)
    ensures forall i :: 0 <= i < |sl| ==> 0 <= sl[i] < |global| && IsValid(xyz, sl[i]) && global[sl[i]] == sg[i]
    ensures forall i, j :: 0 <= i < j < |sl| ==> sl[i] != sl[j]
    ensures forall n :: IsValid(xyz, n) ==> n in sl
  {
    assert Unfold(0) && UnfoldIds(0);
    forall i | 0 <= i < |sl| ensures IsValid(xyz, sl[i]) && global[sl[i]] == sg[i] {
      assert EntryOk(xyz, global, sg, sl, i);
    }
    forall n | IsValid(xyz, n) ensures n in sl {
      assert Listed(xyz, global, sg, n);
      var i :| 0 <= i < |sg| && sg[i] == global[n];
      assert EntryOk(xyz, global, sg, sl, i);
      assert sl[i] == n;
    }
  }

  /** The first loop of gridEliminateUnusedNodeGlobal: nodes another partition has already deleted. */
  method RemoveUnusedNodes(g: Nodes)
    requires g.Valid() && g.hasSorted
    modifies g`nnode, g`xyz, g`blanknode, g`hasSorted, g`sortedGlobal, g`sortedLocal, g`rank, g`nfree
    ensures g.Valid() && g.hasSorted && |g.xyz| == |old(g.xyz)|
    ensures forall m :: IsValid(g.xyz, m) <==> IsValid(old(g.xyz), m) && g.nodeGlobal[m] !in g.unused
    ensures forall m :: IsValid(g.xyz, m) ==> g.xyz[m] == old(g.xyz)[m]
  {
    for offset := 0 to |g.unused|
      invariant g.Valid() && g.hasSorted && |g.xyz| == |old(g.xyz)|
      invariant forall m :: IsValid(g.xyz, m) <==> IsValid(old(g.xyz), m) && g.nodeGlobal[m] !in g.unused[..offset]
      invariant forall m :: IsValid(g.xyz, m) ==> g.xyz[m] == old(g.xyz)[m]
    {
      ghost var xyz := g.xyz;
      assert g.unused[..offset + 1] == g.unused[..offset] + [g.unused[offset]];
      var node := g.Global2Local(g.unused[offset]);
      if node != EMPTY {
        OnlyLocal(g.xyz, g.nodeGlobal, g.unused[offset], node);
        var _ := g.RemoveNodeWithOutGlobal(node);
        forall m ensures IsValid(g.xyz, m) <==> IsValid(xyz, m) && m != node {
        }
      }
    }
    assert g.unused[..|g.unused|] == g.unused;
  }

  lemma OnlyLocal(xyz: seq<Point>, global: seq<int>, g: int, local: int)
    requires GlobalsOk(xyz, global) && IsValid(xyz, local) && global[local] == g
    ensures forall m :: IsValid(xyz, m) && m != local ==> global[m] != g
  {
    assert Unfold(0) && UnfoldIds(0);
  }

  /** The second loop of gridEliminateUnusedNodeGlobal: one pass over the sorted ids and the unused ids. */
  method SqueezeIds(g: Nodes)
    requires |g.sortedGlobal| == |g.sortedLocal| && Increasing(g.sortedGlobal) && Increasing(g.unused)
    requires forall i :: 0 <= i < |g.sortedLocal| ==>
      0 <= g.sortedLocal[i] < |g.nodeGlobal| && g.nodeGlobal[g.sortedLocal[i]] == g.sortedGlobal[i]
    requires forall i, j :: 0 <= i < j < |g.sortedLocal| ==> g.sortedLocal[i] != g.sortedLocal[j]
    modifies g`nodeGlobal, g`sortedGlobal
    ensures |g.nodeGlobal| == |old(g.nodeGlobal)| && |g.sortedGlobal| == |old(g.sortedGlobal)|
    ensures forall i :: 0 <= i < |g.sortedGlobal| ==> g.sortedGlobal[i] == Squeezed(g.unused, old(g.sortedGlobal)[i])
    ensures forall i :: 0 <= i < |g.sortedGlobal| ==>
      g.nodeGlobal[g.sortedLocal[i]] == Squeezed(g.unused, old(g.sortedGlobal)[i])
  {
    ghost var sg, sl, n := g.sortedGlobal, g.sortedLocal, |g.sortedGlobal|;
    var offset := 0;
    for sort := 0 to |g.sortedGlobal|
      invariant 0 <= offset <= |g.unused|
      invariant sort < n ==> forall i :: 0 <= i < offset ==> g.unused[i] < sg[sort]
      invariant |g.nodeGlobal| == |old(g.nodeGlobal)| && |g.sortedGlobal| == n
      invariant forall i :: 0 <= i < n ==> g.sortedGlobal[i] == if i < sort then Squeezed(g.unused, sg[i]) else sg[i]
      invariant forall i :: 0 <= i < n ==> g.nodeGlobal[sl[i]] == if i < sort then Squeezed(g.unused, sg[i]) else sg[i]
    {
      offset := SkipSmaller(g.unused, offset, g.sortedGlobal[sort]);
      CountBelowIs(g.unused, sg[sort], offset);
      var node := g.sortedLocal[sort];
      g.nodeGlobal := g.nodeGlobal[node := g.nodeGlobal[node] - offset];
      g.sortedGlobal := g.sortedGlobal[sort := g.sortedGlobal[sort] - offset];
    }
  }

  method SkipSmaller(unused: seq<int>, offset0: nat, id: int) returns (offset: nat)
    requires Increasing(unused) && offset0 <= |unused| && forall i :: 0 <= i < offset0 ==> unused[i] < id
    ensures offset <= |unused| && (forall i :: 0 <= i < offset ==> unused[i] < id)
    ensures forall i :: offset <= i < |unused| ==> unused[i] >= id
  {
    offset := offset0;
    while offset < |unused| && unused[offset] < id
      invariant offset <= |unused| && forall i :: 0 <= i < offset ==> unused[i] < id
    {
      offset := offset + 1;
    }
  }

  /** The squeezed ids are sound in the table and in the index. */
  lemma SqueezedOk(xyz: seq<Point>, global: seq<int>, sg: seq<int>, sl: seq<int>, unused: seq<int>, global': seq<int>,
                   sg': seq<int>)
    requires GlobalsOk(xyz, global) && SortedOk(xyz, global, sg, sl) && Increasing(unused)
    requires forall m :: IsValid(xyz, m) ==> global[m] !in unused
    requires |global'| == |global| && |sg'| == |sg|
    requires forall i :: 0 <= i < |sg| ==> 0 <= sl[i] < |global'| && sg'[i] == global'[sl[i]] == Squeezed(unused, sg[i])
    ensures GlobalsOk(xyz, global') && SortedOk(xyz, global', sg', sl)
    ensures forall m :: IsValid(xyz, m) ==> global'[m] == Squeezed(unused, global[m])
  {
    IndexIsInverse(xyz, global, sg, sl);
    var f := x => Squeezed(unused, x);
    forall m | IsValid(xyz, m) ensures global'[m] == f(global[m]) {
      var i :| 0 <= i < |sl| && sl[i] == m;
    }
    forall a, b | IsValid(xyz, a) && IsValid(xyz, b) && global[a] < global[b] ensures f(global[a]) < f(global[b]) {
      SqueezedMonotone(unused, global[a], global[b]);
    }
    Relabelled(xyz, global, global', f);
    RelabelledSorted(xyz, global, sg, sl, global', sg', f);
  }

  /**
   gridEliminateUnusedNodeGlobal. Every id left is g less the number of unused ids below it; this
   depends on the unused list only, so partitions with the same list agree.
   */
  method EliminateUnused(g: Nodes) returns (ok: bool)
    requires g.Valid() && Increasing(g.unused)
    modifies g
    ensures ok <==> old(g.unused) == [] || g.hasGlobal
    ensures g.hasGlobal == old(g.hasGlobal)
    ensures ok ==> g.Valid() && g.unused == [] && |g.xyz| == |old(g.xyz)|
    ensures ok ==> g.globalNNode == old(g.globalNNode) - |old(g.unused)|
    ensures ok && g.hasGlobal ==> |g.nodeGlobal| == |g.xyz| == |old(g.nodeGlobal)|
    ensures ok && g.hasGlobal ==>
      forall m :: IsValid(g.xyz, m) <==> IsValid(old(g.xyz), m) && old(g.nodeGlobal)[m] !in old(g.unused)
    ensures ok && g.hasGlobal ==> forall m :: IsValid(g.xyz, m) ==>
      g.xyz[m] == old(g.xyz)[m] && g.nodeGlobal[m] == Squeezed(old(g.unused), old(g.nodeGlobal)[m])
  {
    if |g.unused| == 0 {
      SqueezedNothing();
      return true;
    }
    if !g.hasSorted || g.nnode != |g.sortedGlobal| {
      if !g.hasGlobal {
        return false;
      }
      g.CreateSortedGlobal();
    }
    RemoveUnusedNodes(g);
    IndexIsInverse(g.xyz, g.nodeGlobal, g.sortedGlobal, g.sortedLocal);
    ghost var global, sorted := g.nodeGlobal, g.sortedGlobal;
    SqueezeIds(g);
    SqueezedOk(g.xyz, global, sorted, g.sortedLocal, g.unused, g.nodeGlobal, g.sortedGlobal);
    g.globalNNode := g.globalNNode - |g.unused|;
    g.unused := [];
    ok := true;
  }

  lemma SqueezedNothing()
    ensures forall x :: Squeezed([], x) == x
  {
  }

  /** Ids in use stay in range, and none is unused, after an elimination. */
  lemma IdsAfterElimination(xyz0: seq<Point>, global: seq<int>, unused: seq<int>, top: int, xyz: seq<Point>,
                            global': seq<int>)
    requires IdsOk(xyz0, global, unused, top) && |global'| == |xyz|
    requires forall m :: IsValid(xyz, m) ==> IsValid(xyz0, m) && global'[m] == Squeezed(unused, global[m])
    ensures IdsOk(xyz, global', [], top - |unused|)
    ensures forall m :: IsValid(xyz0, m) ==> global[m] !in unused
  {
    assert Unfold(0) && UnfoldIds(0);
    forall n | IsValid(xyz, n) ensures 0 <= global'[n] < top - |unused| {
      SqueezedRange(unused, top, global[n]);
    }
  }

  lemma {:induction false} RoomForUnused(unused: seq<int>, top: int)
    requires Increasing(unused) && top >= 0 && forall i :: 0 <= i < |unused| ==> 0 <= unused[i] < top
    ensures |unused| <= top
  {
    if unused != [] {
      RoomForUnused(unused[..|unused| - 1], unused[|unused| - 1]);
    }
  }

  datatype NodeOp = AddOp(x: real, y: real, z: real) | RemoveOp(node: int) | EliminateOp

  /** The numbering of a node table. */
  datatype Numbers = Numbers(xyz: seq<Point>, global: seq<int>, unused: seq<int>, top: int)

  ghost function NumbersOf(g: Nodes): Numbers
    reads g
  {
    Numbers(g.xyz, g.nodeGlobal, g.unused, g.globalNNode)
  }

  /** A node that is there with its place and its id. */
  ghost predicate HasNode(a: Numbers, n: int, p: Point, id: int) {
    IsValid(a.xyz, n) && n < |a.global| && a.xyz[n] == p && a.global[n] == id
  }

  ghost predicate NodeAdded(a: Numbers, b: Numbers, n: int, p: Point) {
    && !IsValid(a.xyz, n) && HasNode(b, n, p, if a.unused != [] then a.unused[0] else a.top)
    && b.unused == (if a.unused != [] then a.unused[1..] else [])
    && (forall m :: m != n ==> (IsValid(b.xyz, m) <==> IsValid(a.xyz, m)))
    && forall m :: m != n && IsValid(a.xyz, m) && m < |a.global| ==> HasNode(b, m, a.xyz[m], a.global[m])
  }

  ghost predicate NodeRemoved(a: Numbers, b: Numbers, n: int) {
    && b.global == a.global && b.top == a.top && !IsValid(b.xyz, n)
    && (forall m :: m != n ==> (IsValid(b.xyz, m) <==> IsValid(a.xyz, m)))
    && (forall m :: m != n && IsValid(a.xyz, m) && IsValid(b.xyz, m) ==> b.xyz[m] == a.xyz[m])
    && forall x :: x in b.unused <==> x in a.unused || (IsValid(a.xyz, n) && n < |a.global| && x == a.global[n])
  }

  ghost predicate Eliminated(a: Numbers, b: Numbers) {
    && b.unused == [] && b.top == a.top - |a.unused| && |b.global| == |b.xyz| == |a.xyz| == |a.global|
    && (forall m :: IsValid(b.xyz, m) <==> IsValid(a.xyz, m) && a.global[m] !in a.unused)
    && forall m :: IsValid(b.xyz, m) ==> HasNode(b, m, a.xyz[m], Squeezed(a.unused, a.global[m]))
  }

  ghost predicate Does(op: NodeOp, a: Numbers, b: Numbers) {
    match op
    case AddOp(x, y, z) => exists n :: NodeAdded(a, b, n, Point(x, y, z))
    case RemoveOp(node) => NodeRemoved(a, b, node)
    case EliminateOp => Eliminated(a, b)
  }

  /** The numberings along a run, each made from the one before by its operation. */
  ghost predicate IsTrace(ops: seq<NodeOp>, trace: seq<Numbers>, n: nat) {
    n <= |ops| && |trace| == n + 1 && forall i :: 0 <= i < n ==> Does(ops[i], trace[i], trace[i + 1])
  }

  lemma TraceGrows(ops: seq<NodeOp>, trace: seq<Numbers>, n: nat, next: Numbers)
    requires IsTrace(ops, trace, n) && n < |ops| && Does(ops[n], trace[n], next)
    ensures IsTrace(ops, trace + [next], n + 1)
  {
  }

  lemma IdsFill(g: Nodes)
    requires Numbered(g)
    ensures |g.nodeGlobal| == |g.xyz|
  {
  }

  method Step(g: Nodes, op: NodeOp)
    requires Numbered(g) && g.globalNNode >= 0 && (op.AddOp? ==> op.x != DBL_MAX)
    modifies g
    ensures Numbered(g) && g.globalNNode >= 0 && Does(op, old(NumbersOf(g)), NumbersOf(g))
  {
    ghost var a := NumbersOf(g);
    IdsFill(g);
    match op
    case AddOp(x, y, z) =>
      var node := AddNode(g, x, y, z);
      assert NodeAdded(a, NumbersOf(g), node, Point(x, y, z));
    case RemoveOp(node) =>
      var _ := RemoveNode(g, node);
    case EliminateOp =>
      UnusedIsIncreasing(a.xyz, a.global, a.unused, a.top);
      RoomForUnused(a.unused, a.top);
      var _ := EliminateUnused(g);
      IdsAfterElimination(a.xyz, a.global, a.unused, a.top, g.xyz, g.nodeGlobal);
  }

  /** Any run of additions, removals and eliminations keeps the numbering sound. */
  method Run(g: Nodes, ops: seq<NodeOp>) returns (ghost trace: seq<Numbers>)
    requires Numbered(g) && g.globalNNode >= 0
    requires forall i :: 0 <= i < |ops| && ops[i].AddOp? ==> ops[i].x != DBL_MAX
    modifies g
    ensures Numbered(g) && g.globalNNode >= 0
    ensures IsTrace(ops, trace, |ops|) && trace[0] == old(NumbersOf(g)) && trace[|ops|] == NumbersOf(g)
  {
    trace := [NumbersOf(g)];
    for i := 0 to |ops|
      invariant Numbered(g) && g.globalNNode >= 0
      invariant IsTrace(ops, trace, i) && trace[0] == old(NumbersOf(g)) && trace[i] == NumbersOf(g)
    {
      Step(g, ops[i]);
      TraceGrows(ops, trace, i, NumbersOf(g));
      trace := trace + [NumbersOf(g)];
    }
  }
}
