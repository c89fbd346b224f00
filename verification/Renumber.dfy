/**
 Moves of nodes and of their labels in one/grid.c: gridPack and gridRenumber move nodes to other
 slots, gridRenumberGlobalNodes moves global ids to other nodes.
 */
module Renumbering {
  import opened Common
  import opened ItemStore
  import opened Packing
  import opened Geometry
  import opened NodeStore
  import opened GlobalNumbering
  import opened Sorting

  /** Slot m is where some valid node went. */
  ghost predicate Hit(xyz: seq<Point>, o2n: seq<int>, m: int) {
    exists n :: IsValid(xyz, n) && n < |o2n| && o2n[n] == m
  }

  /** The new slot of node n holds what node n was. */
  ghost predicate Kept(xyz: seq<Point>, global: seq<int>, xyz': seq<Point>, global': seq<int>, o2n: seq<int>, n: int)
    requires |global| == |xyz| && |global'| == |xyz'|
  {
    IsValid(xyz, n) ==> n < |o2n| && IsValid(xyz', o2n[n]) && xyz'[o2n[n]] == xyz[n] && global'[o2n[n]] == global[n]
  }

  lemma MovedGlobals(xyz: seq<Point>, global: seq<int>, xyz': seq<Point>, global': seq<int>, o2n: seq<int>)
    requires GlobalsOk(xyz, global) && |global'| == |xyz'|
    requires forall n :: 0 <= n < |xyz| ==> Kept(xyz, global, xyz', global', o2n, n)
    requires forall m :: IsValid(xyz', m) ==> Hit(xyz, o2n, m)
    ensures GlobalsOk(xyz', global')
  {
    assert Unfold(0) && UnfoldIds(0);
    forall a, b | IsValid(xyz', a) && IsValid(xyz', b) && a != b ensures global'[a] != global'[b] {
      assert Hit(xyz, o2n, a) && Hit(xyz, o2n, b);
      var n :| IsValid(xyz, n) && n < |o2n| && o2n[n] == a;
      var m :| IsValid(xyz, m) && m < |o2n| && o2n[m] == b;
      assert Kept(xyz, global, xyz', global', o2n, n) && Kept(xyz, global, xyz', global', o2n, m);
    }
  }

  lemma MovedSorted(xyz: seq<Point>, global: seq<int>, sg: seq<int>, sl: seq<int>,
                    xyz': seq<Point>, global': seq<int>, sl': seq<int>, o2n: seq<int>)
    requires SortedOk(xyz, global, sg, sl) && |global'| == |xyz'|
    requires forall n :: 0 <= n < |xyz| ==> Kept(xyz, global, xyz', global', o2n, n)
    requires forall m :: IsValid(xyz', m) ==> Hit(xyz, o2n, m)
    requires |sl'| == |sl| && forall i :: 0 <= i < |sl| && 0 <= sl[i] < |o2n| ==> sl'[i] == o2n[sl[i]]
    ensures SortedOk(xyz', global', sg, sl')
  {
    assert Unfold(0) && UnfoldIds(0);
    forall i | 0 <= i < |sg| ensures EntryOk(xyz', global', sg, sl', i) {
      assert EntryOk(xyz, global, sg, sl, i);
      assert Kept(xyz, global, xyz', global', o2n, sl[i]);
    }
    forall m | 0 <= m < |xyz'| ensures Listed(xyz', global', sg, m) {
      if IsValid(xyz', m) {
        assert Hit(xyz, o2n, m);
        var n :| IsValid(xyz, n) && n < |o2n| && o2n[n] == m;
        assert Kept(xyz, global, xyz', global', o2n, n) && Listed(xyz, global, sg, n);
      }
    }
  }

  lemma LocalsInTable(xyz: seq<Point>, global: seq<int>, sg: seq<int>, sl: seq<int>)
    requires SortedOk(xyz, global, sg, sl)
    ensures forall i :: 0 <= i < |sl| ==> IsValid(xyz, sl[i])
  {
    assert Unfold(0) && UnfoldIds(0);
    forall i | 0 <= i < |sl| ensures IsValid(xyz, sl[i]) {
      assert EntryOk(xyz, global, sg, sl, i);
    }
  }

  /** The index after a move of the nodes: sortedLocal[i] = o2n[sortedLocal[i]]. */
  method MapLocals(g: Nodes, o2n: seq<int>)
    requires forall i :: 0 <= i < |g.sortedLocal| ==> 0 <= g.sortedLocal[i] < |o2n|
    modifies g`sortedLocal
    ensures |g.sortedLocal| == |old(g.sortedLocal)|
    ensures forall i :: 0 <= i < |g.sortedLocal| ==> g.sortedLocal[i] == o2n[old(g.sortedLocal)[i]]
  {
    for i := 0 to |g.sortedLocal|
      invariant |g.sortedLocal| == |old(g.sortedLocal)|
      invariant forall j :: 0 <= j < |g.sortedLocal| ==>
        g.sortedLocal[j] == if j < i then o2n[old(g.sortedLocal)[j]] else old(g.sortedLocal)[j]
    {
      g.sortedLocal := g.sortedLocal[i := o2n[g.sortedLocal[i]]];
    }
  }

  /** The node loop of gridPack has dealt with the nodes below |o2n|. */
  ghost predicate PackedNode(xyz0: seq<Point>, global0: seq<int>, xyz: seq<Point>, global: seq<int>, o2n: seq<int>,
                             n: int)
    requires |global0| == |xyz0| == |global| == |xyz| && 0 <= n < |o2n| <= |xyz0|
  {
    if IsValid(xyz0, n) then
      o2n[n] == NewPlace(NodeRows(xyz0), n) < |xyz| && xyz[o2n[n]] == xyz0[n] && global[o2n[n]] == global0[n]
    else o2n[n] == EMPTY
  }

  ghost predicate PackNodesInv(xyz0: seq<Point>, global0: seq<int>, xyz: seq<Point>, global: seq<int>, o2n: seq<int>,
                               pack: nat) {
    && |global0| == |xyz0| == |global| == |xyz| && pack <= |o2n| <= |xyz0|
    && forall u :: Unfold(u) ==>
         && pack == NewPlace(NodeRows(xyz0), |o2n|)
         && (forall n :: 0 <= n < |o2n| ==> PackedNode(xyz0, global0, xyz, global, o2n, n))
         && (forall n :: 0 <= n < pack ==> IsValid(xyz, n) && Hit(xyz0, o2n, n))
         && (forall n :: pack <= n < |xyz| ==> xyz[n] == xyz0[n] && global[n] == global0[n])
  }

  lemma PackNodesSkip(xyz0: seq<Point>, global0: seq<int>, xyz: seq<Point>, global: seq<int>, o2n: seq<int>, pack: nat)
    requires PackNodesInv(xyz0, global0, xyz, global, o2n, pack) && |o2n| < |xyz| && !IsValid(xyz, |o2n|)
    ensures PackNodesInv(xyz0, global0, xyz, global, o2n + [EMPTY], pack)
  {
    assert Unfold(0) && UnfoldIds(0);
    var o2n' := o2n + [EMPTY];
    NewPlaceStep(NodeRows(xyz0), |o2n|);
    forall n | 0 <= n < |o2n'| ensures PackedNode(xyz0, global0, xyz, global, o2n', n) {
      if n < |o2n| {
        assert PackedNode(xyz0, global0, xyz, global, o2n, n);
      }
    }
    forall n | 0 <= n < pack ensures Hit(xyz0, o2n', n) {
      assert Hit(xyz0, o2n, n);
      var k :| IsValid(xyz0, k) && k < |o2n| && o2n[k] == n;
      assert o2n'[k] == n;
    }
  }

  lemma PackedNodesStay(xyz0: seq<Point>, global0: seq<int>, xyz: seq<Point>, global: seq<int>, o2n: seq<int>,
                        pack: nat, n: nat)
    requires PackNodesInv(xyz0, global0, xyz, global, o2n, pack) && |o2n| < |xyz| && IsValid(xyz, |o2n|) && n <= |o2n|
    ensures PackedNode(xyz0, global0, xyz[pack := xyz[|o2n|]], global[pack := global[|o2n|]], o2n + [pack], n)
  {
    assert Unfold(0) && UnfoldIds(0);
    if n < |o2n| {
      assert PackedNode(xyz0, global0, xyz, global, o2n, n);
      NewPlaceMonotone(NodeRows(xyz0), n, |o2n|);
    }
  }

  lemma HitsStay(xyz0: seq<Point>, o2n: seq<int>, m: int, next: int)
    requires Hit(xyz0, o2n, m)
    ensures Hit(xyz0, o2n + [next], m)
  {
    var k :| IsValid(xyz0, k) && k < |o2n| && o2n[k] == m;
    assert (o2n + [next])[k] == m;
  }

  lemma PackNodesMove(xyz0: seq<Point>, global0: seq<int>, xyz: seq<Point>, global: seq<int>, o2n: seq<int>, pack: nat)
    requires PackNodesInv(xyz0, global0, xyz, global, o2n, pack) && |o2n| < |xyz| && IsValid(xyz, |o2n|)
    ensures PackNodesInv(xyz0, global0, xyz[pack := xyz[|o2n|]], global[pack := global[|o2n|]], o2n + [pack], pack + 1)
  {
    assert Unfold(0) && UnfoldIds(0);
    var orig := |o2n|;
    var o2n', xyz', global' := o2n + [pack], xyz[pack := xyz[orig]], global[pack := global[orig]];
    NewPlaceStep(NodeRows(xyz0), orig);
    forall n | 0 <= n < |o2n'| ensures PackedNode(xyz0, global0, xyz', global', o2n', n) {
      PackedNodesStay(xyz0, global0, xyz, global, o2n, pack, n);
    }
    forall n | 0 <= n < pack + 1 ensures IsValid(xyz', n) && Hit(xyz0, o2n', n) {
      if n < pack {
        HitsStay(xyz0, o2n, n, pack);
      } else {
        assert o2n'[orig] == n;
      }
    }
  }

  /** The loop result, once the slots from `pack` on are free. */
  lemma PackNodesDone(xyz0: seq<Point>, global0: seq<int>, xyz: seq<Point>, global: seq<int>, o2n: seq<int>, pack: nat,
                      final: seq<Point>)
    requires PackNodesInv(xyz0, global0, xyz, global, o2n, pack) && |o2n| == |xyz0| == |final|
    requires forall n :: 0 <= n < pack ==> final[n] == xyz[n]
    requires forall n :: pack <= n < |xyz| ==> IsFreeNode(final[n], if n == |xyz| - 1 then EMPTY else n + 1)
    ensures FreeFrom(final, pack) && pack == NUsed(NodeRows(xyz0))
    ensures forall n :: 0 <= n < |xyz0| ==>
      Kept(xyz0, global0, final, global, o2n, n) && PackedNode(xyz0, global0, final, global, o2n, n)
    ensures forall m :: IsValid(final, m) ==> Hit(xyz0, o2n, m)
  {
    assert Unfold(0) && UnfoldIds(0);
    var rows := NodeRows(xyz0);
    assert rows[..|rows|] == rows;
    forall n | 0 <= n < |xyz0|
      ensures Kept(xyz0, global0, final, global, o2n, n) && PackedNode(xyz0, global0, final, global, o2n, n)
    {
      assert PackedNode(xyz0, global0, xyz, global, o2n, n);
      if IsValid(xyz0, n) {
        NewPlaceMonotone(rows, n, |rows|);
      }
    }
    forall n | 0 <= n < pack ensures IsValid(final, n) {
      assert IsValid(xyz, n);
    }
  }

  lemma NodeCount(xyz: seq<Point>, blank: int, rank: seq<int>, nfree: nat)
    requires NodesOk(xyz, blank, rank, nfree)
    ensures NUsed(NodeRows(xyz)) + nfree == |xyz|
  {
    assert Unfold(0) && UnfoldIds(0);
  }

  /** Only the coordinates that mark free nodes are written when the free list is rebuilt. */
  ghost predicate IsFreed(xyz: seq<Point>, final: seq<Point>, pack: nat) {
    && |final| == |xyz|
    && forall n :: 0 <= n < |xyz| ==>
         final[n] == if n < pack then xyz[n]
                     else Point(DBL_MAX, if n == |xyz| - 1 then EMPTY as real else (n + 1) as real, xyz[n].z)
  }

  /** The loop of gridPack that frees the nodes from nnode on. */
  method FreeTail(g: Nodes, pack: nat)
    requires |g.xyz| == g.maxnode >= 1 && pack <= g.maxnode
    modifies g`xyz, g`blanknode, g`rank, g`nfree
    ensures IsFreed(old(g.xyz), g.xyz, pack) && g.blanknode == if pack == g.maxnode then EMPTY else pack
    ensures var t := CompactTable(NodeRows(g.xyz), pack);
            g.blanknode == t.blank && g.rank == t.rank && g.nfree == t.nfree
  {
    ghost var xyz0 := g.xyz;
    for i := pack to g.maxnode
      modifies g`xyz
      invariant |g.xyz| == |xyz0| == g.maxnode
      invariant forall n :: 0 <= n < g.maxnode ==>
        g.xyz[n] == if pack <= n < i then Point(DBL_MAX, (n + 1) as real, xyz0[n].z) else xyz0[n]
    {
      g.xyz := g.xyz[i := Point(DBL_MAX, (i + 1) as real, g.xyz[i].z)];
    }
    if g.maxnode == pack {
      g.blanknode := EMPTY;
    } else {
      g.xyz := g.xyz[g.maxnode - 1 := g.xyz[g.maxnode - 1].(y := EMPTY as real)];
      g.blanknode := pack;
    }
    ghost var t := CompactTable(NodeRows(g.xyz), pack);
    g.rank, g.nfree := t.rank, t.nfree;
  }

  /** nodeGlobal, or anything where the program has none. */
  ghost function Labels(g: Nodes): seq<int>
    reads g
  {
    if g.hasGlobal then g.nodeGlobal else seq(|g.xyz|, _ => 0)
  }

  /** The node loop of gridPack: nodes move down in place, keeping their order. */
  method SqueezeNodes(g: Nodes) returns (nodeo2n: seq<int>, packnode: nat, ghost labels: seq<int>)
    requires |g.xyz| == g.maxnode && (g.hasGlobal ==> |g.nodeGlobal| == g.maxnode)
    modifies g`xyz, g`nodeGlobal
    ensures |nodeo2n| == g.maxnode && PackNodesInv(old(g.xyz), old(Labels(g)), g.xyz, labels, nodeo2n, packnode)
    ensures if g.hasGlobal then labels == g.nodeGlobal else g.nodeGlobal == old(g.nodeGlobal)
  {
    ghost var xyz0, labels0 := g.xyz, Labels(g);
    nodeo2n, packnode, labels := [], 0, labels0;
    for orignode := 0 to g.maxnode
      invariant |nodeo2n| == orignode && |g.xyz| == g.maxnode
      invariant PackNodesInv(xyz0, labels0, g.xyz, labels, nodeo2n, packnode)
      invariant if g.hasGlobal then labels == g.nodeGlobal else g.nodeGlobal == old(g.nodeGlobal)
    {
      if IsValid(g.xyz, orignode) {
        PackNodesMove(xyz0, labels0, g.xyz, labels, nodeo2n, packnode);
        g.xyz := g.xyz[packnode := g.xyz[orignode]];
        if g.hasGlobal {
          g.nodeGlobal := g.nodeGlobal[packnode := g.nodeGlobal[orignode]];
        }
        labels := labels[packnode := labels[orignode]];
        nodeo2n := nodeo2n + [packnode];
        packnode := packnode + 1;
      } else {
        PackNodesSkip(xyz0, labels0, g.xyz, labels, nodeo2n, packnode);
        nodeo2n := nodeo2n + [EMPTY];
      }
    }
  }

  /** Node n moved by `o2n`, the map handed to the other tables. */
  ghost predicate NodeMoved(xyz0: seq<Point>, xyz: seq<Point>, o2n: seq<int>, n: int)
    requires |o2n| == |xyz0| == |xyz| && 0 <= n < |xyz0|
  {
    if IsValid(xyz0, n) then o2n[n] == NewPlace(NodeRows(xyz0), n) && IsValid(xyz, o2n[n]) && xyz[o2n[n]] == xyz0[n]
    else o2n[n] == EMPTY
  }

  ghost predicate IsNodeMove(xyz0: seq<Point>, xyz: seq<Point>, o2n: seq<int>) {
    && |o2n| == |xyz0| == |xyz|
    && forall n :: 0 <= n < |xyz0| ==> NodeMoved(xyz0, xyz, o2n, n)
  }

  /** Nodes keep their global ids when they move. */
  ghost predicate IsLabelMove(xyz0: seq<Point>, labels0: seq<int>, labels: seq<int>, o2n: seq<int>)
    requires |labels0| == |xyz0| == |labels| == |o2n|
  {
    forall n :: IsValid(xyz0, n) ==> 0 <= o2n[n] < |labels| && labels[o2n[n]] == labels0[n]
  }

  /** What a second gridPack finds in the node table. */
  predicate IsPackedNodes(g: Nodes)
    reads g
  {
    FreeFrom(g.xyz, g.nnode) && g.blanknode == if g.maxnode == g.nnode then EMPTY else g.nnode
  }

  /** Nothing is lost and nothing is added by a move. */
  ghost predicate AllKept(xyz0: seq<Point>, labels0: seq<int>, xyz: seq<Point>, labels: seq<int>, o2n: seq<int>) {
    && |labels0| == |xyz0| && |labels| == |xyz|
    && forall u :: Unfold(u) ==>
         && (forall n :: 0 <= n < |xyz0| ==> Kept(xyz0, labels0, xyz, labels, o2n, n))
         && (forall m :: IsValid(xyz, m) ==> Hit(xyz0, o2n, m))
  }

  lemma PackMove(xyz0: seq<Point>, labels0: seq<int>, final: seq<Point>, labels: seq<int>, o2n: seq<int>, n: nat)
    requires |labels0| == |xyz0| == |labels| == |o2n| == |final| && n < |xyz0|
    requires PackedNode(xyz0, labels0, final, labels, o2n, n) && Kept(xyz0, labels0, final, labels, o2n, n)
    ensures NodeMoved(xyz0, final, o2n, n) && (IsValid(xyz0, n) ==> labels[o2n[n]] == labels0[n])
  {
  }

  lemma TailStays(xyz0: seq<Point>, labels0: seq<int>, xyz: seq<Point>, labels: seq<int>, o2n: seq<int>, pack: nat)
    requires PackNodesInv(xyz0, labels0, xyz, labels, o2n, pack)
    ensures forall n :: pack <= n < |xyz0| ==> xyz[n] == xyz0[n]
  {
    assert Unfold(0) && UnfoldIds(0);
  }

  lemma PackMoves(xyz0: seq<Point>, labels0: seq<int>, xyz: seq<Point>, labels: seq<int>, o2n: seq<int>, pack: nat,
                  final: seq<Point>)
    requires PackNodesInv(xyz0, labels0, xyz, labels, o2n, pack) && |o2n| == |xyz0| && IsFreed(xyz, final, pack)
    ensures FreeFrom(final, pack) && pack == NUsed(NodeRows(xyz0)) && |labels0| == |labels| == |xyz0|
    ensures IsNodeMove(xyz0, final, o2n) && IsLabelMove(xyz0, labels0, labels, o2n)
    ensures AllKept(xyz0, labels0, final, labels, o2n)
    ensures forall n :: pack <= n < |xyz0| ==> final[n].z == xyz0[n].z
  {
    PackNodesDone(xyz0, labels0, xyz, labels, o2n, pack, final);
    TailStays(xyz0, labels0, xyz, labels, o2n, pack);
    forall n | 0 <= n < |xyz0|
      ensures NodeMoved(xyz0, final, o2n, n) && (IsValid(xyz0, n) ==> labels[o2n[n]] == labels0[n])
    {
      PackMove(xyz0, labels0, final, labels, o2n, n);
    }
  }

  lemma NumberingMoves(xyz0: seq<Point>, labels0: seq<int>, xyz: seq<Point>, labels: seq<int>, o2n: seq<int>,
                       hasGlobal: bool, hasSorted: bool, sg: seq<int>, sl0: seq<int>, sl: seq<int>)
    requires AllKept(xyz0, labels0, xyz, labels, o2n)
    requires hasGlobal ==> GlobalsOk(xyz0, labels0)
    requires hasSorted ==> SortedOk(xyz0, labels0, sg, sl0) && |sl| == |sl0|
    requires hasSorted ==> forall i :: 0 <= i < |sl| && 0 <= sl0[i] < |o2n| ==> sl[i] == o2n[sl0[i]]
    ensures hasGlobal ==> GlobalsOk(xyz, labels)
    ensures hasSorted ==> SortedOk(xyz, labels, sg, sl)
  {
    assert Unfold(0) && UnfoldIds(0);
    if hasGlobal {
      MovedGlobals(xyz0, labels0, xyz, labels, o2n);
    }
    if hasSorted {
      MovedSorted(xyz0, labels0, sg, sl0, xyz, labels, sl, o2n);
    }
  }

  /** The table of the node part of gridPack, without the sorted index. */
  method SettleNodes(g: Nodes) returns (nodeo2n: seq<int>, ghost labels: seq<int>)
    requires g.ValidTable()
    modifies g`xyz, g`nodeGlobal, g`blanknode, g`rank, g`nfree
    ensures |g.xyz| == g.maxnode == |labels| && g.nnode + g.nfree == g.maxnode && IsPackedNodes(g)
    ensures NodesOk(g.xyz, g.blanknode, g.rank, g.nfree)
    ensures AllKept(old(g.xyz), old(Labels(g)), g.xyz, labels, nodeo2n)
    ensures if g.hasGlobal then labels == g.nodeGlobal else g.nodeGlobal == old(g.nodeGlobal)
    ensures IsNodeMove(old(g.xyz), g.xyz, nodeo2n) && IsLabelMove(old(g.xyz), old(Labels(g)), labels, nodeo2n)
    ensures forall n :: g.nnode <= n < g.maxnode ==> g.xyz[n].z == old(g.xyz)[n].z
  {
    ghost var xyz0, labels0 := g.xyz, Labels(g);
    NodeCount(g.xyz, g.blanknode, g.rank, g.nfree);
    var packnode: nat;
    nodeo2n, packnode, labels := SqueezeNodes(g);
    ghost var xyz1 := g.xyz;
    FreeTail(g, packnode);
    PackMoves(xyz0, labels0, xyz1, labels, nodeo2n, packnode, g.xyz);
    FreeFromOk(g.xyz, packnode);
  }

  /** The node part of gridPack. */
  method PackNodes(g: Nodes) returns (nodeo2n: seq<int>)
    requires g.Valid()
    modifies g`xyz, g`nodeGlobal, g`blanknode, g`sortedLocal, g`rank, g`nfree
    ensures g.Valid() && IsPackedNodes(g)
    ensures IsNodeMove(old(g.xyz), g.xyz, nodeo2n)
    ensures |Labels(g)| == |old(Labels(g))| == |g.xyz| && IsLabelMove(old(g.xyz), old(Labels(g)), Labels(g), nodeo2n)
    ensures forall n :: g.nnode <= n < g.maxnode ==> g.xyz[n].z == old(g.xyz)[n].z
  {
    ghost var xyz0, labels0, locals0 := g.xyz, Labels(g), g.sortedLocal;
    ghost var labels;
    nodeo2n, labels := SettleNodes(g);
    if g.hasSorted {
      LocalsInTable(xyz0, labels0, g.sortedGlobal, g.sortedLocal);
      MapLocals(g, nodeo2n);
    }
    NumberingMoves(xyz0, labels0, g.xyz, labels, nodeo2n, g.hasGlobal, g.hasSorted, g.sortedGlobal, locals0,
                   g.sortedLocal);
    assert g.hasGlobal ==> Labels(g) == labels;
    NoLabels(xyz0, labels0, labels, nodeo2n, Labels(g));
  }

  /** Without nodeGlobal there is nothing to move. */
  lemma NoLabels(xyz0: seq<Point>, labels0: seq<int>, labels: seq<int>, o2n: seq<int>, now: seq<int>)
    requires |labels0| == |xyz0| == |labels| == |o2n| == |now| && IsLabelMove(xyz0, labels0, labels, o2n)
    requires now == labels || forall n :: 0 <= n < |now| ==> labels0[n] == 0 && now[n] == 0
    ensures IsLabelMove(xyz0, labels0, now, o2n)
  {
  }

  /** A bijection of the first nnode slots. */
  predicate IsShuffle(o2n: seq<int>, nnode: nat) {
    && nnode <= |o2n|
    && (forall n :: 0 <= n < nnode ==> 0 <= o2n[n] < nnode)
    && (forall n, m :: 0 <= n < m < nnode ==> o2n[n] != o2n[m])
  }

  /** The copy through a temporary array that gridRenumber makes of every node table: temp[o2n[node]] = s[node]. */
  method Scatter<T>(s: seq<T>, o2n: seq<int>, nnode: nat) returns (r: seq<T>)
    requires IsShuffle(o2n, nnode) && nnode <= |s|
    ensures |r| == |s| && r[nnode..] == s[nnode..]
    ensures forall n :: 0 <= n < nnode ==> r[o2n[n]] == s[n]
  {
    r := s;
    for node := 0 to nnode
      invariant |r| == |s| && r[nnode..] == s[nnode..]
      invariant forall n :: 0 <= n < node ==> r[o2n[n]] == s[n]
    {
      r := r[o2n[node] := s[node]];
    }
  }

  lemma ShuffleHits(o2n: seq<int>, nnode: nat, m: nat) returns (n: nat)
    requires IsShuffle(o2n, nnode) && m < nnode
    ensures n < nnode && o2n[n] == m
  {
    n := PermutationHits(o2n[..nnode], m);
  }

  lemma ShuffleKeeps(xyz0: seq<Point>, labels0: seq<int>, xyz: seq<Point>, labels: seq<int>, o2n: seq<int>, nnode: nat)
    requires FreeFrom(xyz0, nnode) && IsShuffle(o2n, nnode) && |xyz| == |xyz0| == |labels0| == |labels|
    requires xyz[nnode..] == xyz0[nnode..]
    requires forall n :: 0 <= n < nnode ==> xyz[o2n[n]] == xyz0[n] && labels[o2n[n]] == labels0[n]
    ensures FreeFrom(xyz, nnode) && AllKept(xyz0, labels0, xyz, labels, o2n)
  {
    forall n | nnode <= n < |xyz| ensures xyz[n] == xyz0[n] && !IsValid(xyz, n) && !IsValid(xyz0, n) {
      assert xyz[n] == xyz[nnode..][n - nnode] == xyz0[nnode..][n - nnode];
      assert IsFreeNode(xyz0[n], if n == |xyz0| - 1 then EMPTY else n + 1);
    }
    forall m | 0 <= m < nnode ensures IsValid(xyz, m) && Hit(xyz0, o2n, m) {
      var n := ShuffleHits(o2n, nnode, m);
      assert IsValid(xyz0, n);
    }
    forall n | 0 <= n < |xyz0| ensures Kept(xyz0, labels0, xyz, labels, o2n, n) {
      if n < nnode {
        assert IsValid(xyz0, n);
      }
    }
  }

  /** The tables of the node part of gridRenumber, without the sorted index. */
  method ScatterNodes(g: Nodes, o2n: seq<int>)
    requires g.ValidTable() && IsPackedNodes(g) && IsShuffle(o2n, g.nnode)
    modifies g`xyz, g`nodeGlobal, g`rank, g`nfree
    ensures |g.xyz| == g.maxnode && g.nnode + g.nfree == g.maxnode && IsPackedNodes(g)
    ensures NodesOk(g.xyz, g.blanknode, g.rank, g.nfree)
    ensures AllKept(old(g.xyz), old(Labels(g)), g.xyz, Labels(g), o2n)
    ensures forall n :: 0 <= n < g.nnode ==> g.xyz[o2n[n]] == old(g.xyz)[n]
    ensures g.hasGlobal ==> |g.nodeGlobal| == |g.xyz| == |old(g.nodeGlobal)|
    ensures g.hasGlobal ==> forall n :: 0 <= n < g.nnode ==> g.nodeGlobal[o2n[n]] == old(g.nodeGlobal)[n]
  {
    ghost var xyz0, labels0 := g.xyz, Labels(g);
    g.xyz := Scatter(g.xyz, o2n, g.nnode);
    if g.hasGlobal {
      g.nodeGlobal := Scatter(g.nodeGlobal, o2n, g.nnode);
    }
    ShuffleKeeps(xyz0, labels0, g.xyz, Labels(g), o2n, g.nnode);
    FreeFromOk(g.xyz, g.nnode);
    FreeFromCount(g.xyz, g.nnode);
    ghost var t := CompactTable(NodeRows(g.xyz), g.nnode);
    g.rank, g.nfree := t.rank, t.nfree;
  }

  /** The node part of gridRenumber, for a packed grid. */
  method MoveNodes(g: Nodes, o2n: seq<int>)
    requires g.Valid() && IsPackedNodes(g) && IsShuffle(o2n, g.nnode)
    modifies g`xyz, g`nodeGlobal, g`sortedLocal, g`rank, g`nfree
    ensures g.Valid() && IsPackedNodes(g) && |g.xyz| == |old(g.xyz)|
    ensures forall n :: 0 <= n < g.nnode ==> g.xyz[o2n[n]] == old(g.xyz)[n]
    ensures g.hasGlobal ==> |g.nodeGlobal| == |g.xyz| == |old(g.nodeGlobal)|
    ensures g.hasGlobal ==> forall n :: 0 <= n < g.nnode ==> g.nodeGlobal[o2n[n]] == old(g.nodeGlobal)[n]
  {
    ghost var xyz0, labels0, locals0 := g.xyz, Labels(g), g.sortedLocal;
    if g.hasSorted {
      LocalsBelow(xyz0, labels0, g.sortedGlobal, g.sortedLocal, g.nnode);
    }
    ScatterNodes(g, o2n);
    if g.hasSorted {
      MapLocals(g, o2n);
    }
    NumberingMoves(xyz0, labels0, g.xyz, Labels(g), o2n, g.hasGlobal, g.hasSorted, g.sortedGlobal, locals0,
                   g.sortedLocal);
  }

  lemma FreeFromCount(xyz: seq<Point>, nnode: nat)
    requires FreeFrom(xyz, nnode)
    ensures CompactTable(NodeRows(xyz), nnode).nfree == |xyz| - nnode
  {
  }

  lemma LocalsBelow(xyz: seq<Point>, global: seq<int>, sg: seq<int>, sl: seq<int>, nnode: nat)
    requires SortedOk(xyz, global, sg, sl) && FreeFrom(xyz, nnode)
    ensures forall i :: 0 <= i < |sl| ==> 0 <= sl[i] < nnode
  {
    LocalsInTable(xyz, global, sg, sl);
    forall i | 0 <= i < |sl| ensures sl[i] < nnode {
      assert IsValid(xyz, sl[i]);
      if sl[i] >= nnode {
        FreeFromIsFree(xyz, nnode, sl[i]);
      }
    }
  }

  /** Exchanging the labels a and b. */
  function Transposed(x: int, a: int, b: int): int {
    if x == a then b else if x == b then a else x
  }

  /** The first entry of a list from position `fix` on that equals k, or the length of the list. */
  ghost function FirstFix(n2o: seq<int>, k: int, fix: nat): (r: nat)
    requires fix <= |n2o|
    ensures fix <= r <= |n2o| && (r < |n2o| ==> n2o[r] == k) && forall i :: fix <= i < r ==> n2o[i] != k
    decreases |n2o| - fix
  {
    if fix == |n2o| || n2o[fix] == k then fix else FirstFix(n2o, k, fix + 1)
  }

  /** The list after step k: the entry that asked for label k now asks for the label k was exchanged with. */
  ghost function Repaired(n2o: seq<int>, k: nat): (r: seq<int>)
    requires k < |n2o|
    ensures |r| == |n2o|
  {
    var fix := FirstFix(n2o, k, k + 1);
    var r := n2o[k := k];
    if n2o[k] == k || fix == |n2o| then r else r[fix := n2o[k]]
  }

  /** The final label of a node now labelled x, when the steps from k on are still to come. */
  ghost function Relabel(n2o: seq<int>, k: nat, x: int): int
    requires k <= |n2o|
    decreases |n2o| - k
  {
    if k == |n2o| then x else Relabel(Repaired(n2o, k), k + 1, Transposed(x, k, n2o[k]))
  }

  ghost predicate Injective(n2o: seq<int>) {
    forall i, j :: 0 <= i < j < |n2o| ==> n2o[i] != n2o[j]
  }

  /** The node first labelled n2o[j] ends with label j. */
  lemma {:induction false} RelabelIsInverse(n2o: seq<int>, k: nat, j: nat)
    requires Injective(n2o) && k <= |n2o| && j < |n2o| && forall i :: 0 <= i < k ==> n2o[i] == i
    ensures Relabel(n2o, k, n2o[j]) == j
    decreases |n2o| - k
  {
    if k < |n2o| {
      var next := Repaired(n2o, k);
      RepairedIs(n2o, k);
      RelabelIsInverse(next, k + 1, j);
    }
  }

  /** The repaired list is the list with the labels k and n2o[k] exchanged. */
  lemma RepairedIs(n2o: seq<int>, k: nat)
    requires Injective(n2o) && k < |n2o| && forall i :: 0 <= i < k ==> n2o[i] == i
    ensures Injective(Repaired(n2o, k)) && forall i :: 0 <= i <= k ==> Repaired(n2o, k)[i] == i
    ensures forall j :: 0 <= j < |n2o| ==> Repaired(n2o, k)[j] == Transposed(n2o[j], k, n2o[k])
  {
    var fix := FirstFix(n2o, k, k + 1);
    forall j | 0 <= j < |n2o| ensures Repaired(n2o, k)[j] == Transposed(n2o[j], k, n2o[k]) {
      if n2o[j] == k && j != k {
        assert j > k;
        assert fix <= j;
      }
    }
  }

  /** Different labels stay different, so grids that hold different nodes agree on who has which label. */
  lemma {:induction false} RelabelIsInjective(n2o: seq<int>, k: nat, x: int, y: int)
    requires k <= |n2o| && x != y
    ensures Relabel(n2o, k, x) != Relabel(n2o, k, y)
    decreases |n2o| - k
  {
    if k < |n2o| {
      RelabelIsInjective(Repaired(n2o, k), k + 1, Transposed(x, k, n2o[k]), Transposed(y, k, n2o[k]));
    }
  }

  lemma ExchangeBoth(xyz: seq<Point>, global: seq<int>, sg: seq<int>, sl: seq<int>, p: nat, q: nat)
    requires GlobalsOk(xyz, global) && SortedOk(xyz, global, sg, sl) && p < |sg| && q < |sg| && p != q
    requires IsValid(xyz, sl[p]) && IsValid(xyz, sl[q])
    ensures var global' := global[sl[q] := sg[p]][sl[p] := sg[q]];
      GlobalsOk(xyz, global') && SortedOk(xyz, global', sg, sl[p := sl[q]][q := sl[p]]) &&
      forall n :: IsValid(xyz, n) ==> global'[n] == Transposed(global[n], sg[p], sg[q])
  {
    assert Unfold(0) && UnfoldIds(0);
    var global', sl' := global[sl[q] := sg[p]][sl[p] := sg[q]], sl[p := sl[q]][q := sl[p]];
    assert EntryOk(xyz, global, sg, sl, p) && EntryOk(xyz, global, sg, sl, q);
    forall n | IsValid(xyz, n) ensures global'[n] == Transposed(global[n], sg[p], sg[q]) {
    }
    forall i | 0 <= i < |sg| ensures EntryOk(xyz, global', sg, sl', i) {
      assert EntryOk(xyz, global, sg, sl, i);
    }
    forall n | 0 <= n < |xyz| ensures Listed(xyz, global', sg, n) {
      assert Listed(xyz, global, sg, n);
    }
  }

  lemma ExchangeOne(xyz: seq<Point>, global: seq<int>, local: int, a: int, b: int)
    requires GlobalsOk(xyz, global) && IsValid(xyz, local) && global[local] == a && a != b
    requires forall n :: IsValid(xyz, n) ==> global[n] != b
    ensures var global' := global[local := b];
      GlobalsOk(xyz, global') && forall n :: IsValid(xyz, n) ==> global'[n] == Transposed(global[n], a, b)
  {
    assert Unfold(0) && UnfoldIds(0);
  }

  /** The two look-ups of a step of gridRenumberGlobalNodes. */
  method LookUp(g: Nodes, global: int) returns (position: int, local: int)
    requires g.Valid() && g.hasSorted
    ensures IsLocalOf(g.xyz, g.nodeGlobal, global, local)
    ensures position == EMPTY ==> local == EMPTY
    ensures position != EMPTY ==> 0 <= position < |g.sortedGlobal| == |g.sortedLocal|
    ensures position != EMPTY ==>
      g.sortedGlobal[position] == global && local == g.sortedLocal[position] && local != EMPTY
  {
    SortedIsAscending(g.xyz, g.nodeGlobal, g.sortedGlobal, g.sortedLocal);
    position := SortSearch(g.sortedGlobal, global);
    FoundIsLocal(g.xyz, g.nodeGlobal, g.sortedGlobal, g.sortedLocal, global, position);
    LocalsInTable(g.xyz, g.nodeGlobal, g.sortedGlobal, g.sortedLocal);
    local := if position == EMPTY then EMPTY else g.sortedLocal[position];
  }

  /** Exchanging two labels among the nodes of this grid, which may have both, one or none of them. */
  method Transpose(g: Nodes, newglobal: int, oldglobal: int)
    requires g.Valid() && g.hasSorted && newglobal != oldglobal
    modifies g`hasSorted, g`nodeGlobal, g`sortedGlobal, g`sortedLocal
    ensures g.Valid() && g.hasSorted && |old(g.nodeGlobal)| == |g.xyz| == |g.nodeGlobal|
    ensures forall n :: IsValid(g.xyz, n) ==> g.nodeGlobal[n] == Transposed(old(g.nodeGlobal)[n], newglobal, oldglobal)
  {
    var newposition, newlocal := LookUp(g, newglobal);
    var oldposition, oldlocal := LookUp(g, oldglobal);
    if oldlocal != EMPTY && newlocal != EMPTY {
      ExchangeBoth(g.xyz, g.nodeGlobal, g.sortedGlobal, g.sortedLocal, newposition, oldposition);
      g.nodeGlobal := g.nodeGlobal[oldlocal := newglobal][newlocal := oldglobal];
      g.sortedLocal := g.sortedLocal[newposition := oldlocal][oldposition := newlocal];
    } else if oldlocal != EMPTY {
      ExchangeOne(g.xyz, g.nodeGlobal, oldlocal, oldglobal, newglobal);
      g.nodeGlobal := g.nodeGlobal[oldlocal := newglobal];
      g.CreateSortedGlobal();
    } else if newlocal != EMPTY {
      ExchangeOne(g.xyz, g.nodeGlobal, newlocal, newglobal, oldglobal);
      g.nodeGlobal := g.nodeGlobal[newlocal := oldglobal];
      g.CreateSortedGlobal();
    }
  }

  /** The repair of the list after a step. */
  method FixList(n2o: array<int>, newglobal: nat)
    requires newglobal < n2o.Length && n2o[newglobal] != newglobal
    modifies n2o
    ensures n2o[..] == Repaired(old(n2o[..]), newglobal)
  {
    ghost var list := n2o[..];
    var oldglobal := n2o[newglobal];
    n2o[newglobal] := newglobal;
    var fix := newglobal + 1;
    while fix < n2o.Length
      invariant newglobal < fix <= n2o.Length && n2o[..] == list[newglobal := newglobal]
      invariant FirstFix(list, newglobal, newglobal + 1) >= fix
    {
      assert n2o[..][fix] == list[fix];
      if newglobal == n2o[fix] {
        n2o[fix] := oldglobal;
        break;
      }
      fix := fix + 1;
    }
  }

  /** The labels after k steps still lead where the first labels led. */
  ghost predicate Follows(xyz: seq<Point>, list: seq<int>, k: nat, labels: seq<int>, list0: seq<int>,
                          labels0: seq<int>) {
    && k <= |list| && |labels| == |xyz| == |labels0|
    && forall u :: Unfold(u) ==>
         forall n :: IsValid(xyz, n) ==> Relabel(list, k, labels[n]) == Relabel(list0, 0, labels0[n])
  }

  lemma FollowsStep(xyz: seq<Point>, list: seq<int>, k: nat, labels: seq<int>, list0: seq<int>, labels0: seq<int>,
                    labels': seq<int>)
    requires Follows(xyz, list, k, labels, list0, labels0) && k < |list| && |labels'| == |xyz|
    requires forall n :: IsValid(xyz, n) ==> labels'[n] == Transposed(labels[n], k, list[k])
    ensures Follows(xyz, Repaired(list, k), k + 1, labels', list0, labels0)
  {
    assert Unfold(0) && UnfoldIds(0);
    forall n | IsValid(xyz, n) ensures Relabel(Repaired(list, k), k + 1, labels'[n]) == Relabel(list0, 0, labels0[n]) {
      assert Relabel(list, k, labels[n]) == Relabel(Repaired(list, k), k + 1, Transposed(labels[n], k, list[k]));
    }
  }

  lemma {:induction false} FollowsDone(xyz: seq<Point>, list: seq<int>, labels: seq<int>, list0: seq<int>,
                                       labels0: seq<int>)
    requires Follows(xyz, list, |list|, labels, list0, labels0)
    ensures forall n :: IsValid(xyz, n) ==> labels[n] == Relabel(list0, 0, labels0[n])
  {
    assert Unfold(0) && UnfoldIds(0);
  }

  /** One step of gridRenumberGlobalNodes. */
  method RenumberStep(g: Nodes, n2o: array<int>, newglobal: nat)
    requires g.Valid() && g.hasSorted && newglobal < n2o.Length
    modifies g`hasSorted, g`nodeGlobal, g`sortedGlobal, g`sortedLocal, n2o
    ensures g.Valid() && g.hasSorted && |old(g.nodeGlobal)| == |g.xyz| == |g.nodeGlobal|
    ensures n2o[..] == Repaired(old(n2o[..]), newglobal)
    ensures forall n :: IsValid(g.xyz, n) ==>
      g.nodeGlobal[n] == Transposed(old(g.nodeGlobal)[n], newglobal, old(n2o[newglobal]))
  {
    var oldglobal := n2o[newglobal];
    if newglobal != oldglobal {
      Transpose(g, newglobal, oldglobal);
      FixList(n2o, newglobal);
    } else {
      assert n2o[..] == n2o[..][newglobal := newglobal];
    }
  }

  /** gridRenumberGlobalNodes: the final label of a node is a function of its first label and the list alone. */
  method RenumberGlobalNodes(g: Nodes, n2o: array<int>)
    requires g.Valid() && g.hasGlobal
    modifies g`hasSorted, g`nodeGlobal, g`sortedGlobal, g`sortedLocal, n2o
    ensures g.Valid() && |old(g.nodeGlobal)| == |g.xyz| == |g.nodeGlobal|
    ensures forall n :: IsValid(g.xyz, n) ==> g.nodeGlobal[n] == Relabel(old(n2o[..]), 0, old(g.nodeGlobal)[n])
  {
    ghost var list0, labels0 := n2o[..], g.nodeGlobal;
    if !g.hasSorted {
      g.CreateSortedGlobal();
    }
    for newglobal := 0 to n2o.Length
      invariant g.Valid() && g.hasSorted
      invariant Follows(g.xyz, n2o[..], newglobal, g.nodeGlobal, list0, labels0)
    {
      ghost var list, labels := n2o[..], g.nodeGlobal;
      RenumberStep(g, n2o, newglobal);
      FollowsStep(g.xyz, list, newglobal, labels, list0, labels0, g.nodeGlobal);
    }
    FollowsDone(g.xyz, n2o[..], g.nodeGlobal, list0, labels0);
  }

  datatype TableOp =
    | AddWith(x: real, y: real, z: real, global: int)
    | RemoveAt(node: int)
    | Pack
    | Move(o2n: seq<int>)
    | Shift(oldnnodeg: int, newnnodeg: int, nodeoffset: int)
    | RenumberGlobals(n2o: array<int>)

  /** A node table as the operations see it. */
  datatype NodeState = NodeState(xyz: seq<Point>, labels: seq<int>, hasGlobal: bool, nnode: nat, maxnode: nat,
                                 blanknode: int)

  function StateOf(g: Nodes): NodeState
    reads g
  {
    NodeState(g.xyz, g.nodeGlobal, g.hasGlobal, g.nnode, g.maxnode, g.blanknode)
  }

  /** A new node comes with a fresh id, nodes are moved by a permutation of a packed table, ids are shifted up. */
  predicate Allowed(s: NodeState, op: TableOp) {
    match op
    case AddWith(x, _, _, global) =>
      && x != DBL_MAX && global >= 0
      && (if s.hasGlobal then |s.labels| >= |s.xyz| && forall m :: 0 <= m < |s.xyz| && IsValid(s.xyz, m) ==>
        s.labels[m] != global
          else s.nnode == 0)
    case Move(o2n) =>
      FreeFrom(s.xyz, s.nnode) && s.blanknode == (if s.maxnode == s.nnode then EMPTY else s.nnode) &&
      IsShuffle(o2n, s.nnode)
    case Shift(_, _, nodeoffset) => nodeoffset >= 0
    case RenumberGlobals(_) => s.hasGlobal
    case _ => true
  }

  ghost predicate NodeEnters(a: NodeState, b: NodeState, n: int, p: Point, global: int) {
    && !IsValid(a.xyz, n) && IsValid(b.xyz, n) && b.xyz[n] == p && n < |b.labels| && b.labels[n] == global
    && OthersStay(a, b, n)
  }

  ghost predicate OthersStay(a: NodeState, b: NodeState, n: int) {
    && (forall m :: m != n ==> (IsValid(b.xyz, m) <==> IsValid(a.xyz, m)))
    && (forall m :: m != n && IsValid(a.xyz, m) && IsValid(b.xyz, m) ==> b.xyz[m] == a.xyz[m])
    && forall m :: m != n && a.hasGlobal && 0 <= m < |a.labels| && m < |b.labels| ==> b.labels[m] == a.labels[m]
  }

  ghost predicate Relabelled(a: NodeState, b: NodeState, f: int -> int) {
    && b.xyz == a.xyz && |a.labels| == |a.xyz| == |b.labels|
    && forall n :: IsValid(a.xyz, n) ==> b.labels[n] == f(a.labels[n])
  }

  ghost function ByList(list: seq<int>): int -> int {
    x => Relabel(list, 0, x)
  }

  /** What an operation that is allowed does to the nodes and their ids. */
  ghost predicate Does(op: TableOp, a: NodeState, b: NodeState) {
    match op
    case AddWith(x, y, z, global) => exists n :: NodeEnters(a, b, n, Point(x, y, z), global)
    case RemoveAt(node) => !IsValid(b.xyz, node) && OthersStay(a, b, node)
    case Pack => FreeFrom(b.xyz, b.nnode) && exists o2n :: IsNodeMove(a.xyz, b.xyz, o2n)
    case Move(o2n) =>
      && |b.xyz| == |a.xyz|
      && forall n :: 0 <= n < a.nnode && n < |o2n| && 0 <= o2n[n] < |b.xyz| && n < |a.xyz| ==> b.xyz[o2n[n]] == a.xyz[n]
    case Shift(oldnnodeg, _, nodeoffset) =>
      a.hasGlobal ==> Relabelled(a, b, x => if x < oldnnodeg then x else x + nodeoffset)
    case RenumberGlobals(n2o) => exists list: seq<int> :: |list| == n2o.Length && Relabelled(a, b, ByList(list))
  }

  /** The tables along a run: each operation that is allowed does what it does, and the others are skipped. */
  ghost predicate IsTrace(ops: seq<TableOp>, trace: seq<NodeState>, n: nat) {
    && n <= |ops| && |trace| == n + 1
    && forall i :: 0 <= i < n ==>
         if Allowed(trace[i], ops[i]) then Does(ops[i], trace[i], trace[i + 1]) else trace[i + 1] == trace[i]
  }

  lemma TraceGrows(ops: seq<TableOp>, trace: seq<NodeState>, n: nat, next: NodeState)
    requires IsTrace(ops, trace, n) && n < |ops|
    requires if Allowed(trace[n], ops[n]) then Does(ops[n], trace[n], next) else next == trace[n]
    ensures IsTrace(ops, trace + [next], n + 1)
  {
  }

  method Step(g: Nodes, op: TableOp)
    requires g.Valid() && Allowed(StateOf(g), op)
    modifies g, if op.RenumberGlobals? then {op.n2o} else {}
    ensures g.Valid() && Does(op, old(StateOf(g)), StateOf(g))
  {
    ghost var a := StateOf(g);
    match op
    case AddWith(x, y, z, global) =>
      var node := g.AddNodeWithGlobal(x, y, z, global);
      LabelsFill(g);
      assert NodeEnters(a, StateOf(g), node, Point(x, y, z), global);
    case RemoveAt(node) =>
      var _ := g.RemoveNodeWithOutGlobal(node);
    case Pack =>
      var o2n := PackNodes(g);
    case Move(o2n) =>
      MoveNodes(g, o2n);
    case Shift(oldnnodeg, newnnodeg, nodeoffset) =>
      if g.hasGlobal {
        LabelsFill(g);
      }
      var _ := GlobalShiftNode(g, oldnnodeg, newnnodeg, nodeoffset);
    case RenumberGlobals(n2o) =>
      ghost var list := n2o[..];
      RenumberGlobalNodes(g, n2o);
      assert Relabelled(a, StateOf(g), ByList(list));
  }

  lemma LabelsFill(g: Nodes)
    requires g.Valid() && g.hasGlobal
    ensures |g.nodeGlobal| == |g.xyz|
  {
  }

  /** After any run of operations the binary search for a global id answers like a linear search of the valid nodes. */
  method SearchAfter(g: Nodes, ops: seq<TableOp>, global: int) returns (local: int, ghost trace: seq<NodeState>)
    requires g.Valid()
    modifies g, set i | 0 <= i < |ops| && ops[i].RenumberGlobals? :: ops[i].n2o
    ensures g.Valid() && (!g.hasGlobal ==> local == EMPTY)
    ensures g.hasGlobal ==> IsLocalOf(g.xyz, g.nodeGlobal, global, local)
    ensures IsTrace(ops, trace, |ops|) && trace[0] == old(StateOf(g)) && trace[|ops|] == StateOf(g)
  {
    trace := [StateOf(g)];
    for i := 0 to |ops|
      invariant g.Valid()
      invariant IsTrace(ops, trace, i) && trace[0] == old(StateOf(g)) && trace[i] == StateOf(g)
    {
      if Allowed(StateOf(g), ops[i]) {
        Step(g, ops[i]);
      }
      TraceGrows(ops, trace, i, StateOf(g));
      trace := trace + [StateOf(g)];
    }
    local := g.Global2Local(global);
  }
}
