/**
 The node table of one/grid.c and its global numbering: the free list threaded through the
 coordinates, the sorted global-to-local index, and the global ids waiting for reuse.
 */
module NodeStore {
  import opened Common
  import opened Geometry
  import opened ItemStore
  import opened Sorting

  predicate IsValid(xyz: seq<Point>, n: int) {
    0 <= n < |xyz| && xyz[n].x != DBL_MAX
  }

  /** The node table read as an item table of two columns, so that the free list is the same notion. */
  ghost function NodeRows(xyz: seq<Point>): (rows: seq<seq<int>>)
    ensures |rows| == |xyz| && Wide(rows, 2)
    ensures forall n :: 0 <= n < |xyz| ==> rows[n] == NodeRow(xyz[n])
  {
    seq(|xyz|, n requires 0 <= n < |xyz| => NodeRow(xyz[n]))
  }

  ghost function NodeRow(p: Point): (row: seq<int>)
    ensures |row| == 2 && (Used(row) <==> p.x != DBL_MAX) && InRange(if Used(row) then row else [], 1)
  {
    if p.x == DBL_MAX then [EMPTY, p.y.Floor] else [0, 0]
  }

  ghost predicate Increasing(s: seq<int>) {
    forall i, j :: 0 <= i < j < |s| ==> s[i] < s[j]
  }

  /** Valid nodes have different global ids. */
  ghost predicate Distinct(xyz: seq<Point>, global: seq<int>)
    requires |global| == |xyz|
  {
    forall n, m :: IsValid(xyz, n) && IsValid(xyz, m) && n != m ==> global[n] != global[m]
  }

  ghost predicate EntryOk(xyz: seq<Point>, global: seq<int>, sg: seq<int>, sl: seq<int>, i: int)
    requires |global| == |xyz| && |sg| == |sl| && 0 <= i < |sg|
  {
    IsValid(xyz, sl[i]) && global[sl[i]] == sg[i]
  }

  ghost predicate Listed(xyz: seq<Point>, global: seq<int>, sg: seq<int>, n: int)
    requires |global| == |xyz|
  {
    IsValid(xyz, n) ==> global[n] in sg
  }

  /** The sorted index lists exactly the valid nodes, by ascending global id. */
  ghost predicate SortedOk(xyz: seq<Point>, global: seq<int>, sg: seq<int>, sl: seq<int>) {
    && |global| == |xyz| && |sg| == |sl|
    && forall u :: UnfoldIds(u) ==>
         && Increasing(sg)
         && (forall i :: 0 <= i < |sg| ==> EntryOk(xyz, global, sg, sl, i))
         && (forall n :: 0 <= n < |xyz| ==> Listed(xyz, global, sg, n))
  }

  ghost predicate GlobalsOk(xyz: seq<Point>, global: seq<int>) {
    |global| == |xyz| && forall u :: UnfoldIds(u) ==> Distinct(xyz, global)
  }

  /** The result of a linear search of the valid nodes for a global id. */
  ghost predicate IsLocalOf(xyz: seq<Point>, global: seq<int>, g: int, local: int)
    requires |global| == |xyz|
  {
    if local == EMPTY then forall n :: IsValid(xyz, n) ==> global[n] != g
    else IsValid(xyz, local) && global[local] == g
  }

  lemma FoundIsLocal(xyz: seq<Point>, global: seq<int>, sg: seq<int>, sl: seq<int>, g: int, position: int)
    requires SortedOk(xyz, global, sg, sl)
    requires if position == EMPTY then g !in sg else 0 <= position < |sg| && sg[position] == g
    ensures IsLocalOf(xyz, global, g, if position == EMPTY then EMPTY else sl[position])
  {
    assert Unfold(0) && UnfoldIds(0);
    if position == EMPTY {
      forall n | IsValid(xyz, n) ensures global[n] != g {
        assert Listed(xyz, global, sg, n);
      }
    } else {
      assert EntryOk(xyz, global, sg, sl, position);
    }
  }

  lemma SortedIsAscending(xyz: seq<Point>, global: seq<int>, sg: seq<int>, sl: seq<int>)
    requires SortedOk(xyz, global, sg, sl)
    ensures Ascending(sg) && Increasing(sg)
  {
    assert Unfold(0) && UnfoldIds(0);
  }

  /** Where a new id goes: after the last smaller one. */
  ghost predicate IsInsertPoint(s: seq<int>, x: int, p: int) {
    0 <= p <= |s| && (forall i :: 0 <= i < p ==> s[i] < x) && (forall i :: p <= i < |s| ==> s[i] >= x)
  }

  /** The backward search for the insert point, as written in gridSetNodeGlobal and gridJoinUnusedNodeGlobal. */
  method InsertPoint(s: seq<int>, x: int) returns (insertpoint: int)
    requires Increasing(s)
    ensures IsInsertPoint(s, x, insertpoint)
  {
    insertpoint := 0;
    var index := |s| - 1;
    while index >= 0
      invariant -1 <= index < |s|
      invariant forall i :: index < i < |s| ==> s[i] >= x
      invariant insertpoint == 0
    {
      if s[index] < x {
        insertpoint := index + 1;
        break;
      }
      index := index - 1;
    }
  }

  function Inserted(s: seq<int>, p: nat, x: int): (r: seq<int>)
    requires p <= |s|
    ensures |r| == |s| + 1
    ensures forall i :: 0 <= i < |r| ==> r[i] == if i < p then s[i] else if i == p then x else s[i - 1]
  {
    s[..p] + [x] + s[p..]
  }

  /** Shifting the tail of a list up by one, from its end, and storing x in the gap. */
  method Insert(s: seq<int>, p: nat, x: int) returns (r: seq<int>)
    requires p <= |s|
    ensures r == Inserted(s, p, x)
  {
    r := s + [x];
    var index := |s|;
    while index > p
      invariant p <= index <= |s| && |r| == |s| + 1
      invariant forall i :: 0 <= i < |s| && i < index ==> r[i] == s[i]
      invariant forall i :: index < i <= |s| ==> r[i] == s[i - 1]
    {
      r := r[index := r[index - 1]];
      index := index - 1;
    }
    r := r[p := x];
  }

  function Dropped(s: seq<int>, p: nat): (r: seq<int>)
    requires p < |s|
    ensures |r| == |s| - 1 && forall i :: 0 <= i < |r| ==> r[i] == if i < p then s[i] else s[i + 1]
  {
    s[..p] + s[p + 1..]
  }

  /** Shifting the tail of a list down by one. */
  method Drop(s: seq<int>, p: nat) returns (r: seq<int>)
    requires p < |s|
    ensures r == Dropped(s, p)
  {
    r := s;
    for index := p to |s| - 1
      invariant |r| == |s|
      invariant forall i :: p <= i < index ==> r[i] == s[i + 1]
      invariant forall i :: 0 <= i < |s| && (i < p || index <= i) ==> r[i] == s[i]
    {
      r := r[index := r[index + 1]];
    }
    r := r[..|s| - 1];
  }

  lemma SortedInsert(xyz: seq<Point>, global: seq<int>, sg: seq<int>, sl: seq<int>,
                     xyz': seq<Point>, global': seq<int>, n: nat, g: int, p: nat)
    requires SortedOk(xyz, global, sg, sl) && IsInsertPoint(sg, g, p)
    requires n < |xyz| && !IsValid(xyz, n) && |xyz'| == |xyz| && |global'| == |xyz'| && IsValid(xyz', n)
    requires global'[n] == g
    requires forall m :: 0 <= m < |xyz| && m != n ==> (IsValid(xyz', m) <==> IsValid(xyz, m)) && global'[m] == global[m]
    requires forall m :: IsValid(xyz, m) ==> global[m] != g
    ensures SortedOk(xyz', global', Inserted(sg, p, g), Inserted(sl, p, n))
  {
    assert Unfold(0) && UnfoldIds(0);
    var sg', sl' := Inserted(sg, p, g), Inserted(sl, p, n);
    forall i | 0 <= i < |sg| ensures sg[i] != g {
      assert EntryOk(xyz, global, sg, sl, i);
    }
    forall i | 0 <= i < |sg'| ensures EntryOk(xyz', global', sg', sl', i) {
      if i != p {
        assert EntryOk(xyz, global, sg, sl, if i < p then i else i - 1);
      }
    }
    assert sg'[p] == g;
    forall m | 0 <= m < |xyz'| ensures Listed(xyz', global', sg', m) {
      assert Listed(xyz, global, sg, m);
      if IsValid(xyz', m) && m != n {
        var i :| 0 <= i < |sg| && sg[i] == global[m];
        assert sg'[if i < p then i else i + 1] == global[m];
      }
    }
  }

  lemma SortedDrop(xyz: seq<Point>, global: seq<int>, sg: seq<int>, sl: seq<int>, xyz': seq<Point>, n: nat, p: nat)
    requires SortedOk(xyz, global, sg, sl) && GlobalsOk(xyz, global) && p < |sg|
    requires IsValid(xyz, n) && sg[p] == global[n] && |xyz'| == |xyz| && !IsValid(xyz', n)
    requires forall m :: 0 <= m < |xyz| && m != n ==> (IsValid(xyz', m) <==> IsValid(xyz, m))
    ensures SortedOk(xyz', global, Dropped(sg, p), Dropped(sl, p))
  {
    assert Unfold(0) && UnfoldIds(0);
    var sg', sl' := Dropped(sg, p), Dropped(sl, p);
    assert EntryOk(xyz, global, sg, sl, p);
    forall i | 0 <= i < |sg'| ensures EntryOk(xyz', global, sg', sl', i) {
      assert EntryOk(xyz, global, sg, sl, if i < p then i else i + 1);
    }
    forall m | 0 <= m < |xyz'| ensures Listed(xyz', global, sg', m) {
      assert Listed(xyz, global, sg, m);
      if IsValid(xyz', m) {
        var i :| 0 <= i < |sg| && sg[i] == global[m];
        assert i != p;
        assert sg'[if i < p then i else i - 1] == global[m];
      }
    }
  }

  /** The list of valid nodes in ascending order, as gathered by gridCreateSortedGlobal. */
  ghost predicate IsPackOf(xyz: seq<Point>, pack: seq<int>, upto: int) {
    && (forall i :: 0 <= i < |pack| ==> IsValid(xyz, pack[i]) && pack[i] < upto)
    && (forall i, j :: 0 <= i < j < |pack| ==> pack[i] < pack[j])
    && (forall n :: 0 <= n < upto && IsValid(xyz, n) ==> n in pack)
  }

  lemma SortedCreate(xyz: seq<Point>, global: seq<int>, pack: seq<int>, idx: seq<int>)
    requires GlobalsOk(xyz, global) && IsPackOf(xyz, pack, |xyz|)
    requires |idx| == |pack| && Permutation(idx)
    requires forall i, j :: 0 <= i < j < |idx| ==> global[pack[idx[i]]] <= global[pack[idx[j]]]
    ensures SortedOk(xyz, global, seq(|idx|, i requires 0 <= i < |idx| => global[pack[idx[i]]]),
                     seq(|idx|, i requires 0 <= i < |idx| => pack[idx[i]]))
  {
    assert Unfold(0) && UnfoldIds(0);
    var sg := seq(|idx|, i requires 0 <= i < |idx| => global[pack[idx[i]]]);
    var sl := seq(|idx|, i requires 0 <= i < |idx| => pack[idx[i]]);
    forall i | 0 <= i < |sg| ensures EntryOk(xyz, global, sg, sl, i) {
    }
    forall n | 0 <= n < |xyz| ensures Listed(xyz, global, sg, n) {
      if IsValid(xyz, n) {
        var k :| 0 <= k < |pack| && pack[k] == n;
        var i := PermutationHits(idx, k);
        assert sg[i] == global[n];
      }
    }
    forall i, j | 0 <= i < j < |sg| ensures sg[i] < sg[j] {
      assert idx[i] != idx[j];
      assert pack[idx[i]] != pack[idx[j]];
    }
  }

  /** A permutation takes every value. */
  lemma PermutationHits(idx: seq<int>, k: nat) returns (i: nat)
    requires Permutation(idx) && k < |idx|
    ensures i < |idx| && idx[i] == k
  {
    if k in idx {
      i :| 0 <= i < |idx| && idx[i] == k;
    } else {
      Pigeonhole(idx, Below(|idx|) - {k});
      assert false;
    }
  }

  predicate IsFreeNode(p: Point, next: int) {
    p.x == DBL_MAX && p.y == next as real
  }

  ghost function NodeTable(xyz: seq<Point>, blank: int, rank: seq<int>, nfree: nat): Table {
    Table(NodeRows(xyz), blank, rank, nfree)
  }

  /** The free list of nodes is in order; kept folded. */
  ghost predicate NodesOk(xyz: seq<Point>, blank: int, rank: seq<int>, nfree: nat) {
    && |rank| == |xyz|
    && forall u :: Unfold(u) ==> TableOk(NodeTable(xyz, blank, rank, nfree), 2, 1)
  }

  lemma TakeNode(xyz: seq<Point>, blank: int, rank: seq<int>, nfree: nat, p: Point)
    requires NodesOk(xyz, blank, rank, nfree) && blank != EMPTY && p.x != DBL_MAX
    ensures 0 <= blank < |xyz| && !IsValid(xyz, blank) && nfree > 0
    ensures NodesOk(xyz[blank := p], xyz[blank].y.Floor, rank, nfree - 1)
  {
    assert Unfold(0) && UnfoldIds(0);
    TakeKeeps(NodeTable(xyz, blank, rank, nfree), 2, 1, [0, 0]);
    assert NodeRows(xyz[blank := p]) == NodeRows(xyz)[blank := [0, 0]];
  }

  lemma ReleaseNode(xyz: seq<Point>, blank: int, rank: seq<int>, nfree: nat, n: nat, p: Point)
    requires NodesOk(xyz, blank, rank, nfree) && IsValid(xyz, n) && IsFreeNode(p, blank)
    ensures nfree < |xyz| == |rank|
    ensures NodesOk(xyz[n := p], n, rank[n := nfree], nfree + 1)
  {
    assert Unfold(0) && UnfoldIds(0);
    var t := NodeTable(xyz, blank, rank, nfree);
    ReleaseKeeps(t, 2, 1, n);
    CountPositive(t, 2, 1, n);
    assert NodeRow(p) == t.rows[n][0 := EMPTY][1 := blank];
    assert NodeRows(xyz[n := p]) == t.rows[n := t.rows[n][0 := EMPTY][1 := blank]];
  }

  /** Free nodes from `from` on, chained upwards. */
  predicate FreeFrom(xyz: seq<Point>, from: nat) {
    && from <= |xyz|
    && (forall n :: 0 <= n < from ==> IsValid(xyz, n))
    && (forall n :: from <= n < |xyz| ==> IsFreeNode(xyz[n], if n == |xyz| - 1 then EMPTY else n + 1))
  }

  lemma FreeFromIsFree(xyz: seq<Point>, from: nat, n: nat)
    requires FreeFrom(xyz, from) && n >= from
    ensures !IsValid(xyz, n)
  {
    assert n < |xyz| ==> IsFreeNode(xyz[n], if n == |xyz| - 1 then EMPTY else n + 1);
  }

  lemma FreeFromOk(xyz: seq<Point>, from: nat)
    requires FreeFrom(xyz, from)
    ensures var t := CompactTable(NodeRows(xyz), from); NodesOk(xyz, t.blank, t.rank, t.nfree)
  {
    var rows := NodeRows(xyz);
    forall n | 0 <= n < |rows|
      ensures if n < from then Used(rows[n]) && InRange(rows[n], 1)
              else rows[n][0] == EMPTY && rows[n][1] == if n == |rows| - 1 then EMPTY else n + 1
    {
      assert rows[n] == NodeRow(xyz[n]);
      if n < from {
        assert IsValid(xyz, n);
      } else {
        assert IsFreeNode(xyz[n], if n == |xyz| - 1 then EMPTY else n + 1);
      }
    }
    CompactIsOk(rows, 2, 1, from);
  }

  lemma NodesFull(xyz: seq<Point>, rank: seq<int>, nfree: nat)
    requires NodesOk(xyz, EMPTY, rank, nfree)
    ensures nfree == 0 && forall n :: 0 <= n < |xyz| ==> IsValid(xyz, n)
  {
    var t := NodeTable(xyz, EMPTY, rank, nfree);
    assert Unfold(0) && UnfoldIds(0);
    forall n | 0 <= n < |xyz| ensures IsValid(xyz, n) {
      assert FreeOk(t, 2, n);
    }
  }

  lemma GlobalsInsert(xyz: seq<Point>, global: seq<int>, xyz': seq<Point>, global': seq<int>, n: nat, g: int)
    requires GlobalsOk(xyz, global) && n < |xyz| && |xyz'| == |xyz| && |global'| == |xyz'|
    requires global'[n] == g && forall m :: IsValid(xyz, m) ==> global[m] != g
    requires forall m :: 0 <= m < |xyz| && m != n ==> (IsValid(xyz', m) <==> IsValid(xyz, m)) && global'[m] == global[m]
    requires !IsValid(xyz, n)
    ensures GlobalsOk(xyz', global')
  {
    assert Unfold(0) && UnfoldIds(0);
  }

  /** The index does not care about growth of the table by free nodes. */
  lemma GrowNumbering(xyz: seq<Point>, global: seq<int>, sg: seq<int>, sl: seq<int>, xyz': seq<Point>,
                      global': seq<int>)
    requires |xyz| <= |xyz'| == |global'| && |global| == |xyz|
    requires forall m :: 0 <= m < |xyz| ==> xyz'[m] == xyz[m] && global'[m] == global[m]
    requires forall m :: |xyz| <= m < |xyz'| ==> !IsValid(xyz', m)
    ensures GlobalsOk(xyz, global) ==> GlobalsOk(xyz', global')
    ensures SortedOk(xyz, global, sg, sl) ==> SortedOk(xyz', global', sg, sl)
  {
    if GlobalsOk(xyz, global) {
      assert Unfold(0) && UnfoldIds(0);
      forall n, m | IsValid(xyz', n) && IsValid(xyz', m) && n != m ensures global'[n] != global'[m] {
        assert IsValid(xyz, n) && IsValid(xyz, m);
      }
    }
    if SortedOk(xyz, global, sg, sl) {
      assert Unfold(0) && UnfoldIds(0);
      forall i | 0 <= i < |sg| ensures EntryOk(xyz', global', sg, sl, i) {
        assert EntryOk(xyz, global, sg, sl, i);
      }
      forall n | 0 <= n < |xyz'| ensures Listed(xyz', global', sg, n) {
        if n < |xyz| {
          assert Listed(xyz, global, sg, n);
        }
      }
    }
  }

  lemma NodeCounts(xyz: seq<Point>, blank: int, rank: seq<int>, nfree: nat, n: nat)
    requires NodesOk(xyz, blank, rank, nfree) && IsValid(xyz, n)
    ensures nfree < |xyz|
  {
    assert Unfold(0) && UnfoldIds(0);
    CountPositive(NodeTable(xyz, blank, rank, nfree), 2, 1, n);
  }

  class Nodes {
    var maxnode: nat
    var nnode: nat
    var blanknode: int
    var xyz: seq<Point>
    /** nodeGlobal and the sorted index are NULL in the program until first needed. */
    var hasGlobal: bool
    var nodeGlobal: seq<int>
    var hasSorted: bool
    var sortedGlobal: seq<int>
    var sortedLocal: seq<int>
    var unused: seq<int>
    var globalNNode: int
    ghost var rank: seq<int>
    ghost var nfree: nat

    /** The invariant without the sorted index. */
    ghost predicate ValidTable()
      reads this
    {
      && |xyz| == maxnode >= 1
      && nnode + nfree == maxnode
      && NodesOk(xyz, blanknode, rank, nfree)
      && (hasGlobal ==> GlobalsOk(xyz, nodeGlobal))
    }

    ghost predicate Valid()
      reads this
    {
      && ValidTable()
      && (hasSorted ==> hasGlobal && SortedOk(xyz, nodeGlobal, sortedGlobal, sortedLocal) && |sortedGlobal| == nnode)
    }

    constructor (maxnode: int)
      ensures Valid() && this.maxnode == Max(maxnode, 1) && nnode == 0 && !hasGlobal && !hasSorted
      ensures unused == [] && globalNNode == 0 && FreeFrom(xyz, 0)
    {
      var n := Max(maxnode, 1);
      this.maxnode := n;
      nnode, nfree, blanknode := 0, n, 0;
      var table := FreeNodes([], n);
      xyz := table;
      hasGlobal, nodeGlobal := false, [];
      hasSorted, sortedGlobal, sortedLocal := false, [], [];
      unused, globalNNode := [], 0;
      rank := CompactTable(NodeRows(table), 0).rank;
      new;
      FreeFromOk(xyz, 0);
    }

    /** Free nodes up to n are appended. */
    static method FreeNodes(xyz: seq<Point>, n: nat) returns (table: seq<Point>)
      requires |xyz| < n
      ensures |table| == n && table[..|xyz|] == xyz
      ensures forall m :: |xyz| <= m < n ==> IsFreeNode(table[m], if m == n - 1 then EMPTY else m + 1)
    {
      table := xyz;
      for i := |xyz| to n
        invariant |table| == i && table[..|xyz|] == xyz
        invariant forall m :: |xyz| <= m < i ==> IsFreeNode(table[m], m + 1)
      {
        table := table + [Point(DBL_MAX, (i + 1) as real, 0.0)];
      }
      table := table[n - 1 := table[n - 1].(y := EMPTY as real)];
    }

    /** The realloc branch of gridAddNodeWithGlobal. */
    method Grow()
      requires Valid() && blanknode == EMPTY
      modifies this`maxnode, this`blanknode, this`xyz, this`nodeGlobal, this`rank, this`nfree
      ensures Valid() && blanknode == old(maxnode) && maxnode == old(maxnode) + Max(5000, old(maxnode) / 6)
      ensures xyz[..old(maxnode)] == old(xyz) && (hasGlobal ==> nodeGlobal[..old(maxnode)] == old(nodeGlobal))
      ensures forall m :: old(maxnode) <= m < maxnode ==> !IsValid(xyz, m)
    {
      NodesFull(xyz, rank, nfree);
      var origSize, newSize := maxnode, maxnode + Max(5000, maxnode / 6);
      var table := FreeNodes(xyz, newSize);
      forall m | 0 <= m < origSize ensures table[m] == xyz[m] && IsValid(table, m) {
        assert table[m] == table[..origSize][m];
        assert IsValid(xyz, m);
      }
      FreeFromOk(table, origSize);
      ghost var t := CompactTable(NodeRows(table), origSize);
      if hasGlobal {
        var global := nodeGlobal + seq(newSize - origSize, _ => 0);
        GrowNumbering(xyz, nodeGlobal, sortedGlobal, sortedLocal, table, global);
        nodeGlobal := global;
      }
      maxnode, blanknode, xyz := newSize, origSize, table;
      rank, nfree := t.rank, t.nfree;
    }

    function NextNode(): int
      reads this
    {
      if blanknode == EMPTY then maxnode else blanknode
    }

    /** The nodes there are: valid flags, coordinates and global ids agree with an earlier table but for one node. */
    twostate predicate SameBut(node: int)
      reads this
    {
      && |old(xyz)| <= |xyz|
      && (forall m :: 0 <= m < |xyz| && m != node ==> (IsValid(xyz, m) <==> IsValid(old(xyz), m)))
      && (forall m :: IsValid(old(xyz), m) && m != node ==> xyz[m] == old(xyz)[m])
      && (old(hasGlobal) ==> hasGlobal && forall m :: 0 <= m < |old(nodeGlobal)| && m < |nodeGlobal| && m != node ==>
            nodeGlobal[m] == old(nodeGlobal)[m])
    }

    /** gridAddNodeWithGlobal, with the part of gridSetNodeGlobal it calls. */
    method AddNodeWithGlobal(x: real, y: real, z: real, global: int) returns (node: nat)
      requires Valid() && x != DBL_MAX
      requires hasGlobal ==> global >= 0 && forall m :: IsValid(xyz, m) ==> nodeGlobal[m] != global
      requires !hasGlobal && global >= 0 ==> nnode == 0
      modifies this`maxnode, this`blanknode, this`xyz, this`nodeGlobal, this`rank, this`nfree, this`nnode,
        this`hasGlobal,
        this`sortedGlobal, this`sortedLocal
      ensures Valid() && node == old(NextNode()) < maxnode && nnode == old(nnode) + 1
      ensures maxnode == old(maxnode) + if old(blanknode) == EMPTY then Max(5000, old(maxnode) / 6) else 0
      ensures !IsValid(old(xyz), node) && xyz[node] == Point(x, y, z) && SameBut(node)
      ensures hasGlobal == (old(hasGlobal) || global >= 0) && (hasGlobal ==> nodeGlobal[node] == global)
    {
      if blanknode == EMPTY {
        Grow();
      }
      ghost var grown := xyz;
      forall m | 0 <= m < |old(xyz)| ensures grown[m] == old(xyz)[m] {
        assert grown[m] == grown[..|old(xyz)|][m];
      }
      node := Enter(Point(x, y, z), global);
      forall m | 0 <= m < |xyz| && m != node ensures IsValid(xyz, m) <==> IsValid(old(xyz), m) {
        assert xyz[m] == grown[m];
        assert m >= |old(xyz)| ==> !IsValid(grown, m);
      }
      if old(hasGlobal) {
        forall m | 0 <= m < |old(nodeGlobal)| && m != node ensures nodeGlobal[m] == old(nodeGlobal)[m] {
          assert nodeGlobal[m] == nodeGlobal[..|old(nodeGlobal)|][m];
        }
      }
    }

    /** Filling the head of the free list, then the part of gridSetNodeGlobal for the new node. */
    method Enter(p: Point, global: int) returns (node: nat)
      requires Valid() && p.x != DBL_MAX && blanknode != EMPTY
      requires hasGlobal ==> global >= 0 && forall m :: IsValid(xyz, m) ==> nodeGlobal[m] != global
      requires !hasGlobal && global >= 0 ==> nnode == 0
      modifies this`blanknode, this`xyz, this`nodeGlobal, this`nfree, this`nnode, this`hasGlobal,
        this`sortedGlobal, this`sortedLocal
      ensures Valid() && node == old(blanknode) < maxnode && nnode == old(nnode) + 1
      ensures !IsValid(old(xyz), node) && xyz == old(xyz)[node := p]
      ensures hasGlobal == (old(hasGlobal) || global >= 0)
      ensures hasGlobal ==> |nodeGlobal| == |xyz| && nodeGlobal[node] == global
      ensures old(hasGlobal) ==> nodeGlobal == old(nodeGlobal)[node := global]
    {
      TakeNode(xyz, blanknode, rank, nfree, p);
      ghost var table, rest, next := xyz[blanknode := p], nfree - 1, xyz[blanknode].y.Floor;
      node := blanknode;
      SetNewGlobal(node, p, global);
      assert xyz[node := p] == table && xyz[node].y.Floor == next && nfree - 1 == rest;
      Fill(node, p);
    }

    /** A free node takes a point; its number is already known. */
    method Fill(node: nat, p: Point)
      requires |xyz| == maxnode >= 1 && nnode + nfree == maxnode && 0 < nfree && node < |xyz|
      requires NodesOk(xyz[node := p], xyz[node].y.Floor, rank, nfree - 1)
      requires hasGlobal ==> GlobalsOk(xyz[node := p], nodeGlobal)
      requires hasSorted ==>
        hasGlobal && SortedOk(xyz[node := p], nodeGlobal, sortedGlobal, sortedLocal) && |sortedGlobal| == nnode + 1
      modifies this`blanknode, this`nnode, this`nfree, this`xyz
      ensures Valid() && nnode == old(nnode) + 1 && xyz == old(xyz)[node := p]
    {
      blanknode := xyz[node].y.Floor;
      nnode, nfree := nnode + 1, nfree - 1;
      xyz := xyz[node := p];
    }

    /** The part of gridSetNodeGlobal for a new node; the first id given allocates nodeGlobal. */
    method SetNewGlobal(node: nat, p: Point, global: int)
      requires Valid() && node < |xyz| && !IsValid(xyz, node) && p.x != DBL_MAX
      requires hasGlobal ==> global >= 0 && forall m :: IsValid(xyz, m) ==> nodeGlobal[m] != global
      requires !hasGlobal && global >= 0 ==> nnode == 0
      modifies this`nodeGlobal, this`hasGlobal, this`sortedGlobal, this`sortedLocal
      ensures hasGlobal == (old(hasGlobal) || global >= 0)
      ensures hasGlobal ==> |nodeGlobal| == |xyz| && nodeGlobal[node] == global && GlobalsOk(xyz[node := p], nodeGlobal)
      ensures old(hasGlobal) ==> nodeGlobal == old(nodeGlobal)[node := global]
      ensures hasSorted ==> hasGlobal && SortedOk(xyz[node := p], nodeGlobal, sortedGlobal, sortedLocal)
      ensures hasSorted ==> |sortedGlobal| == nnode + 1
    {
      if hasGlobal {
        GlobalsInsert(xyz, nodeGlobal, xyz[node := p], nodeGlobal[node := global], node, global);
        if hasSorted {
          InsertSorted(node, p, global);
        }
        nodeGlobal := nodeGlobal[node := global];
      } else if global >= 0 {
        NoNodes();
        nodeGlobal := seq(maxnode, _ => 0)[node := global];
        FirstGlobal(xyz, xyz[node := p], nodeGlobal, node);
        hasGlobal := true;
      }
    }

    /** The insertion of gridSetNodeGlobal. */
    method InsertSorted(node: nat, p: Point, global: int)
      requires |nodeGlobal| == |xyz| && SortedOk(xyz, nodeGlobal, sortedGlobal, sortedLocal)
      requires node < |xyz| && !IsValid(xyz, node) && p.x != DBL_MAX
      requires forall m :: IsValid(xyz, m) ==> nodeGlobal[m] != global
      modifies this`sortedGlobal, this`sortedLocal
      ensures SortedOk(xyz[node := p], nodeGlobal[node := global], sortedGlobal, sortedLocal)
      ensures |sortedGlobal| == |old(sortedGlobal)| + 1
    {
      SortedIsAscending(xyz, nodeGlobal, sortedGlobal, sortedLocal);
      var insertpoint := InsertPoint(sortedGlobal, global);
      SortedInsert(xyz, nodeGlobal, sortedGlobal, sortedLocal, xyz[node := p], nodeGlobal[node := global], node,
                   global, insertpoint);
      sortedGlobal := Insert(sortedGlobal, insertpoint, global);
      sortedLocal := Insert(sortedLocal, insertpoint, node);
    }

    lemma NoNodes()
      requires Valid() && nnode == 0
      ensures forall m :: !IsValid(xyz, m)
    {
      forall m ensures !IsValid(xyz, m) {
        if IsValid(xyz, m) {
          NodeCounts(xyz, blanknode, rank, nfree, m);
        }
      }
    }

    /** gridSetNodeXYZ for a valid node. */
    method SetNodeXYZ(node: int, p: Point)
      requires Valid() && IsValid(xyz, node) && p.x != DBL_MAX
      modifies this`xyz
      ensures Valid() && xyz == old(xyz)[node := p]
    {
      PlacedOk(xyz, blanknode, rank, nfree, nodeGlobal, sortedGlobal, sortedLocal, node, p);
      xyz := xyz[node := p];
    }

    /** gridRemoveNodeWithOutGlobal */
    method RemoveNodeWithOutGlobal(node: int) returns (ok: bool)
      requires Valid()
      modifies this`nnode, this`xyz, this`blanknode, this`sortedGlobal, this`sortedLocal, this`rank, this`nfree
      ensures Valid() && ok == IsValid(old(xyz), node)
      ensures !ok ==>
        xyz == old(xyz) && nnode == old(nnode) && sortedGlobal == old(sortedGlobal) && sortedLocal == old(sortedLocal)
      ensures ok ==> nnode == old(nnode) - 1 && blanknode == node && |xyz| == |old(xyz)| && !IsValid(xyz, node)
      ensures ok ==> forall m :: 0 <= m < |xyz| && m != node ==> xyz[m] == old(xyz)[m]
    {
      if !IsValid(xyz, node) {
        return false;
      }
      Release(node);
      ok := true;
    }

    /** A valid node leaves the index and heads the free list. */
    method Release(node: int)
      requires Valid() && IsValid(xyz, node)
      modifies this`nnode, this`xyz, this`blanknode, this`sortedGlobal, this`sortedLocal, this`rank, this`nfree
      ensures Valid() && nnode == old(nnode) - 1 && blanknode == node
      ensures xyz == old(xyz)[node := Point(DBL_MAX, old(blanknode) as real, old(xyz)[node].z)]
    {
      var p := Point(DBL_MAX, blanknode as real, xyz[node].z);
      ReleaseNode(xyz, blanknode, rank, nfree, node, p);
      DropLabel(node, p);
      Free(node, p);
    }

    /** A node whose number is already gone heads the free list. */
    method Free(node: nat, p: Point)
      requires |xyz| == |rank| == maxnode >= 1 && nnode + nfree == maxnode && 0 < nnode && node < |xyz|
      requires NodesOk(xyz[node := p], node, rank[node := nfree], nfree + 1)
      requires hasGlobal ==> GlobalsOk(xyz[node := p], nodeGlobal)
      requires hasSorted ==>
        hasGlobal && SortedOk(xyz[node := p], nodeGlobal, sortedGlobal, sortedLocal) && |sortedGlobal| == nnode - 1
      modifies this`nnode, this`xyz, this`blanknode, this`rank, this`nfree
      ensures Valid() && nnode == old(nnode) - 1 && blanknode == node && xyz == old(xyz)[node := p]
    {
      nnode := nnode - 1;
      xyz := xyz[node := p];
      blanknode := node;
      rank, nfree := rank[node := nfree], nfree + 1;
    }

    /** The numbering without a node that is about to go. */
    method DropLabel(node: nat, p: Point)
      requires Valid() && IsValid(xyz, node) && p.x == DBL_MAX
      modifies this`sortedGlobal, this`sortedLocal
      ensures hasGlobal ==> GlobalsOk(xyz[node := p], nodeGlobal)
      ensures hasSorted ==> hasGlobal && SortedOk(xyz[node := p], nodeGlobal, sortedGlobal, sortedLocal)
      ensures hasSorted ==> |sortedGlobal| == nnode - 1
      ensures !hasSorted ==> sortedGlobal == old(sortedGlobal) && sortedLocal == old(sortedLocal)
    {
      if hasGlobal {
        GlobalsDrop(xyz, nodeGlobal, xyz[node := p]);
      }
      if hasSorted {
        DropSorted(node, p);
      }
    }

    /** The removal from the sorted index in gridRemoveNodeWithOutGlobal. */
    method DropSorted(node: nat, p: Point)
      requires SortedOk(xyz, nodeGlobal, sortedGlobal, sortedLocal) && GlobalsOk(xyz, nodeGlobal)
      requires IsValid(xyz, node) && p.x == DBL_MAX
      modifies this`sortedGlobal, this`sortedLocal
      ensures SortedOk(xyz[node := p], nodeGlobal, sortedGlobal, sortedLocal)
      ensures |sortedGlobal| == |old(sortedGlobal)| - 1
    {
      SortedIsAscending(xyz, nodeGlobal, sortedGlobal, sortedLocal);
      ValidIsListed(xyz, nodeGlobal, sortedGlobal, sortedLocal, node);
      var removepoint := SortSearch(sortedGlobal, nodeGlobal[node]);
      SortedDrop(xyz, nodeGlobal, sortedGlobal, sortedLocal, xyz[node := p], node, removepoint);
      sortedGlobal := Drop(sortedGlobal, removepoint);
      sortedLocal := Drop(sortedLocal, removepoint);
    }

    /** gridCreateSortedGlobal */
    method CreateSortedGlobal()
      requires ValidTable() && hasGlobal
      modifies this`hasSorted, this`sortedGlobal, this`sortedLocal
      ensures Valid() && hasSorted
    {
      var pack, keys := ValidNodes();
      PackIsAll(xyz, pack, blanknode, rank, nfree);
      var index := SortHeap(keys);
      assert forall i :: 0 <= i < |index| ==> keys[index[i]] == nodeGlobal[pack[index[i]]];
      SortedCreate(xyz, nodeGlobal, pack, index);
      var locals := Picked(pack, index);
      var globals := Picked(keys, index);
      SortedSame(xyz, nodeGlobal, pack, index, globals, locals);
      hasSorted, sortedGlobal, sortedLocal := true, globals, locals;
    }

    /** The valid nodes and their global ids, in order. */
    method ValidNodes() returns (pack: seq<int>, keys: seq<int>)
      requires |xyz| == |nodeGlobal| == maxnode
      ensures IsPackOf(xyz, pack, |xyz|)
      ensures |keys| == |pack| && forall i :: 0 <= i < |pack| ==> keys[i] == nodeGlobal[pack[i]]
    {
      pack, keys := [], [];
      for local := 0 to maxnode
        invariant IsPackOf(xyz, pack, local)
        invariant |keys| == |pack| && forall i :: 0 <= i < |pack| ==> keys[i] == nodeGlobal[pack[i]]
      {
        if IsValid(xyz, local) {
          pack, keys := pack + [local], keys + [nodeGlobal[local]];
        }
      }
    }

    /** gridGlobal2Local: the binary search answers like a linear search of the valid nodes. */
    method Global2Local(global: int) returns (local: int)
      requires Valid()
      modifies this`hasSorted, this`sortedGlobal, this`sortedLocal
      ensures Valid() && hasSorted == hasGlobal
      ensures !hasGlobal ==> local == EMPTY
      ensures hasGlobal ==> IsLocalOf(xyz, nodeGlobal, global, local)
    {
      if !hasGlobal {
        return EMPTY;
      }
      if !hasSorted {
        CreateSortedGlobal();
      }
      SortedIsAscending(xyz, nodeGlobal, sortedGlobal, sortedLocal);
      var position := SortSearch(sortedGlobal, global);
      FoundIsLocal(xyz, nodeGlobal, sortedGlobal, sortedLocal, global, position);
      local := if position == EMPTY then EMPTY else sortedLocal[position];
    }
  }

  /** The elements of a list in the order of an index. */
  method Picked(s: seq<int>, index: seq<int>) returns (r: seq<int>)
    requires forall i :: 0 <= i < |index| ==> 0 <= index[i] < |s|
    ensures |r| == |index| && forall i :: 0 <= i < |r| ==> r[i] == s[index[i]]
  {
    r := [];
    for i := 0 to |index|
      invariant |r| == i && forall j :: 0 <= j < i ==> r[j] == s[index[j]]
    {
      r := r + [s[index[i]]];
    }
  }

  lemma SortedSame(xyz: seq<Point>, global: seq<int>, pack: seq<int>, idx: seq<int>, sg: seq<int>, sl: seq<int>)
    requires |global| == |xyz| && IsPackOf(xyz, pack, |xyz|) && |idx| == |pack| && Permutation(idx)
    requires |sg| == |sl| == |idx|
    requires forall i :: 0 <= i < |idx| ==> sg[i] == global[pack[idx[i]]] && sl[i] == pack[idx[i]]
    requires SortedOk(xyz, global, seq(|idx|, i requires 0 <= i < |idx| => global[pack[idx[i]]]),
                      seq(|idx|, i requires 0 <= i < |idx| => pack[idx[i]]))
    ensures SortedOk(xyz, global, sg, sl)
  {
    assert sg == seq(|idx|, i requires 0 <= i < |idx| => global[pack[idx[i]]]);
    assert sl == seq(|idx|, i requires 0 <= i < |idx| => pack[idx[i]]);
  }

  /** Moving a node in space touches no table but the coordinates. */
  lemma PlacedOk(xyz: seq<Point>, blank: int, rank: seq<int>, nfree: nat, global: seq<int>, sg: seq<int>, sl: seq<int>,
                 n: nat, p: Point)
    requires IsValid(xyz, n) && p.x != DBL_MAX
    ensures NodesOk(xyz, blank, rank, nfree) ==> NodesOk(xyz[n := p], blank, rank, nfree)
    ensures GlobalsOk(xyz, global) ==> GlobalsOk(xyz[n := p], global)
    ensures SortedOk(xyz, global, sg, sl) ==> SortedOk(xyz[n := p], global, sg, sl)
  {
    var xyz' := xyz[n := p];
    assert NodeRows(xyz') == NodeRows(xyz);
    assert Unfold(0) && UnfoldIds(0);
    if SortedOk(xyz, global, sg, sl) {
      forall i | 0 <= i < |sg| ensures EntryOk(xyz', global, sg, sl, i) {
        assert EntryOk(xyz, global, sg, sl, i);
      }
      forall m | 0 <= m < |xyz'| ensures Listed(xyz', global, sg, m) {
        assert Listed(xyz, global, sg, m);
      }
    }
  }

  lemma FirstGlobal(xyz: seq<Point>, xyz': seq<Point>, global: seq<int>, node: nat)
    requires |global| == |xyz'| == |xyz| && forall m :: !IsValid(xyz, m)
    requires forall m :: 0 <= m < |xyz| && m != node ==> xyz'[m] == xyz[m]
    ensures GlobalsOk(xyz', global)
  {
    forall n | 0 <= n < |xyz| && n != node ensures !IsValid(xyz', n) {
      assert !IsValid(xyz, n);
    }
  }

  lemma GlobalsDrop(xyz: seq<Point>, global: seq<int>, xyz': seq<Point>)
    requires GlobalsOk(xyz, global) && |xyz'| == |xyz| && forall m :: IsValid(xyz', m) ==> IsValid(xyz, m)
    ensures GlobalsOk(xyz', global)
  {
    assert Unfold(0) && UnfoldIds(0);
  }

  lemma ValidIsListed(xyz: seq<Point>, global: seq<int>, sg: seq<int>, sl: seq<int>, n: nat)
    requires SortedOk(xyz, global, sg, sl) && IsValid(xyz, n)
    ensures global[n] in sg
  {
    assert Unfold(0) && UnfoldIds(0) && Listed(xyz, global, sg, n);
  }

  /** As many nodes are gathered as are counted. */
  lemma PackIsAll(xyz: seq<Point>, pack: seq<int>, blank: int, rank: seq<int>, nfree: nat)
    requires NodesOk(xyz, blank, rank, nfree) && IsPackOf(xyz, pack, |xyz|)
    ensures |pack| == |xyz| - nfree
  {
    assert Unfold(0) && UnfoldIds(0);
    PackCount(xyz, pack, |xyz|);
    assert NodeRows(xyz)[..|xyz|] == NodeRows(xyz);
  }

  lemma PackLast(xyz: seq<Point>, pack: seq<int>, upto: nat)
    requires 0 < upto <= |xyz| && IsPackOf(xyz, pack, upto)
    ensures IsValid(xyz, upto - 1) ==> pack != [] && IsPackOf(xyz, pack[..|pack| - 1], upto - 1)
    ensures !IsValid(xyz, upto - 1) ==> IsPackOf(xyz, pack, upto - 1)
  {
    if IsValid(xyz, upto - 1) {
      var m := |pack| - 1;
      assert pack[m] == upto - 1 by {
        var k :| 0 <= k < |pack| && pack[k] == upto - 1;
      }
      forall n | 0 <= n < upto - 1 && IsValid(xyz, n) ensures n in pack[..m] {
        var k :| 0 <= k < |pack| && pack[k] == n;
        assert pack[..m][k] == n;
      }
    } else {
      forall i | 0 <= i < |pack| ensures pack[i] < upto - 1 {
        assert IsValid(xyz, pack[i]);
      }
    }
  }

  lemma PackBelow(xyz: seq<Point>, pack: seq<int>, upto: nat, i: nat)
    requires upto <= |xyz| && IsPackOf(xyz, pack, upto) && i < |pack|
    ensures 0 <= pack[i] < upto
  {
  }

  lemma {:induction false} PackCount(xyz: seq<Point>, pack: seq<int>, upto: nat)
    requires upto <= |xyz| && IsPackOf(xyz, pack, upto)
    ensures |pack| == NUsed(NodeRows(xyz)[..upto])
  {
    if upto > 0 {
      var rows := NodeRows(xyz)[..upto];
      assert rows[..|rows| - 1] == NodeRows(xyz)[..upto - 1] && rows[|rows| - 1] == NodeRow(xyz[upto - 1]);
      PackLast(xyz, pack, upto);
      PackCount(xyz, if IsValid(xyz, upto - 1) then pack[..|pack| - 1] else pack, upto - 1);
    } else if pack != [] {
      PackBelow(xyz, pack, upto, 0);
    }
  }
}
