/** The grid of one/grid.c: a node table and three item tables that are packed together. */
module MeshGrid {
  import opened Common
  import opened ItemStore
  import opened Packing
  import opened FacePacking
  import opened Geometry
  import opened NodeStore
  import opened Renumbering

  /** Edges carry their id and the t parameters at their two nodes. */
  type EdgeTag = Tag<real>

  /** Every used row names valid nodes only. */
  ghost predicate NamesValid(rows: seq<seq<int>>, xyz: seq<Point>) {
    forall c :: 0 <= c < |rows| && |rows[c]| >= 2 && Used(rows[c]) ==> AllValid(rows[c], xyz)
  }

  ghost predicate AllValid(row: seq<int>, xyz: seq<Point>) {
    forall i :: 0 <= i < |row| ==> IsValid(xyz, row[i])
  }

  /** A table as gridPack leaves it. */
  ghost predicate IsPackedItems<P>(s: Store<P>)
    reads s
  {
    && s.count <= |s.rows| && (forall c :: 0 <= c < |s.rows| ==> |s.rows[c]| >= 2)
    && Compact(s.rows, s.count)
    && s.blank == if s.count == |s.rows| then EMPTY else s.count
  }

  /** Row c of the old table is at its new place, with its nodes renumbered and its data. */
  ghost predicate ItemMoved<P>(rows0: seq<seq<int>>, data0: seq<P>, rows: seq<seq<int>>, data: seq<P>, o2n: seq<int>,
                               c: int)
    requires (forall c :: 0 <= c < |rows0| ==> |rows0[c]| >= 2) && 0 <= c < |rows0| == |data0| && |rows| == |data|
  {
    Used(rows0[c]) ==>
      && var place := NewPlace(rows0, c);
      && place < |rows| && InRange(rows0[c], |o2n|)
      && rows[place] == Mapped(rows0[c], o2n) && data[place] == data0[c]
  }

  /** All items of a table moved down in order by `o2n`. */
  ghost predicate ItemsMoved<P>(rows0: seq<seq<int>>, data0: seq<P>, rows: seq<seq<int>>, data: seq<P>, o2n: seq<int>) {
    && (forall c :: 0 <= c < |rows0| ==> |rows0[c]| >= 2) && |rows0| == |data0| == |rows| == |data|
    && forall c :: 0 <= c < |rows0| ==> ItemMoved(rows0, data0, rows, data, o2n, c)
  }

  lemma FromProgress<P>(g: Progress<P>, per: nat, o2n: seq<int>)
    requires Shape(g, per) && |g.i2n| == |g.rows0| && forall c :: 0 <= c < |g.i2n| ==> Moved(g, per, o2n, c)
    ensures ItemsMoved(g.rows0, g.data0, g.rows, g.data, o2n)
  {
    forall c | 0 <= c < |g.rows0| ensures ItemMoved(g.rows0, g.data0, g.rows, g.data, o2n, c) {
      assert Moved(g, per, o2n, c);
    }
  }

  /** What a node map does to node n. */
  lemma NodeMapAt(xyz0: seq<Point>, xyz: seq<Point>, o2n: seq<int>, n: int)
    requires IsNodeMove(xyz0, xyz, o2n) && 0 <= n < |o2n|
    ensures if IsValid(xyz0, n) then 0 <= o2n[n] < |o2n| else o2n[n] == EMPTY
  {
    assert NodeMoved(xyz0, xyz, o2n, n);
  }

  lemma NodeMapRange(xyz0: seq<Point>, xyz: seq<Point>, o2n: seq<int>)
    requires IsNodeMove(xyz0, xyz, o2n)
    ensures forall n :: 0 <= n < |o2n| ==> EMPTY <= o2n[n] < |o2n|
  {
    forall n | 0 <= n < |o2n| ensures EMPTY <= o2n[n] < |o2n| {
      NodeMapAt(xyz0, xyz, o2n, n);
    }
  }

  /** A row survives a node map exactly when it names valid nodes only. */
  lemma SurvivesIsValid(row: seq<int>, xyz0: seq<Point>, xyz: seq<Point>, o2n: seq<int>)
    requires IsNodeMove(xyz0, xyz, o2n)
    ensures AllValid(row, xyz0) <==> InRange(row, |o2n|) && InRange(Mapped(row, o2n), |o2n|)
  {
    if AllValid(row, xyz0) {
      forall i | 0 <= i < |row| ensures 0 <= Mapped(row, o2n)[i] < |o2n| {
        NodeMapAt(xyz0, xyz, o2n, row[i]);
      }
    } else if InRange(row, |o2n|) {
      var i :| 0 <= i < |row| && !IsValid(xyz0, row[i]);
      NodeMapAt(xyz0, xyz, o2n, row[i]);
      assert Mapped(row, o2n)[i] == EMPTY;
    }
  }

  lemma AllSurviveIsValid(rows: seq<seq<int>>, xyz0: seq<Point>, xyz: seq<Point>, o2n: seq<int>)
    requires IsNodeMove(xyz0, xyz, o2n) && forall c :: 0 <= c < |rows| ==> |rows[c]| >= 2
    ensures NamesValid(rows, xyz0) <==> forall c :: 0 <= c < |rows| ==> Survives(rows, o2n, c)
  {
    forall c | 0 <= c < |rows| ensures Survives(rows, o2n, c) <==> (Used(rows[c]) ==> AllValid(rows[c], xyz0)) {
      SurvivesIsValid(rows[c], xyz0, xyz, o2n);
    }
  }

  lemma AllCanMap(rows: seq<seq<int>>, xyz0: seq<Point>, xyz: seq<Point>, o2n: seq<int>)
    requires IsNodeMove(xyz0, xyz, o2n) && (forall c :: 0 <= c < |rows| ==> |rows[c]| >= 2) && NamesValid(rows, xyz0)
    ensures forall c :: 0 <= c < |rows| && Used(rows[c]) ==> CanMap(rows[c], o2n)
  {
    forall c | 0 <= c < |rows| && Used(rows[c]) ensures CanMap(rows[c], o2n) {
      SurvivesIsValid(rows[c], xyz0, xyz, o2n);
    }
  }

  /** In a packed grid the node map leaves the nodes where they are. */
  lemma PackedNodeStays(xyz0: seq<Point>, xyz: seq<Point>, o2n: seq<int>, nnode: nat, n: nat)
    requires IsNodeMove(xyz0, xyz, o2n) && FreeFrom(xyz0, nnode) && n < nnode
    ensures o2n[n] == n && xyz[n] == xyz0[n]
  {
    assert NodeMoved(xyz0, xyz, o2n, n) && IsValid(xyz0, n);
    var rows := NodeRows(xyz0);
    forall c | 0 <= c < n ensures Used(rows[..n][c]) {
      assert IsValid(xyz0, c) && rows[c] == NodeRow(xyz0[c]);
    }
    NUsedOfCompact(rows[..n], n);
  }

  /** Packing a packed node table changes nothing. */
  lemma PackNodesAgain(xyz0: seq<Point>, xyz: seq<Point>, o2n: seq<int>, nnode: nat)
    requires IsNodeMove(xyz0, xyz, o2n) && FreeFrom(xyz0, nnode) && FreeFrom(xyz, nnode)
    requires forall n :: nnode <= n < |xyz0| ==> xyz[n].z == xyz0[n].z
    ensures xyz == xyz0
  {
    forall n | 0 <= n < |xyz0| ensures xyz[n] == xyz0[n] {
      if n < nnode {
        PackedNodeStays(xyz0, xyz, o2n, nnode, n);
      } else {
        assert IsFreeNode(xyz0[n], NextFree(n, |xyz0|)) && IsFreeNode(xyz[n], NextFree(n, |xyz0|));
      }
    }
  }

  lemma PackedItemStays(row: seq<int>, xyz0: seq<Point>, xyz: seq<Point>, o2n: seq<int>, nnode: nat, i: nat)
    requires IsNodeMove(xyz0, xyz, o2n) && FreeFrom(xyz0, nnode) && AllValid(row, xyz0) && i < |row|
    ensures 0 <= row[i] < |o2n| && o2n[row[i]] == row[i]
  {
    var n := row[i];
    assert IsValid(xyz0, n);
    if n >= nnode {
      FreeFromIsFree(xyz0, nnode, n);
    }
    PackedNodeStays(xyz0, xyz, o2n, nnode, n);
  }

  lemma PackItemsAgain<P>(g: Progress<P>, per: nat, o2n: seq<int>, count: nat, xyz0: seq<Point>, xyz: seq<Point>,
                          nnode: nat)
    requires Shape(g, per) && |g.i2n| == |g.rows0| && forall c :: 0 <= c < |g.i2n| ==> Moved(g, per, o2n, c)
    requires count <= |g.rows0| && Compact(g.rows0, count) && TailKept(g.rows0, g.data0, g.rows, g.data, count)
    requires IsNodeMove(xyz0, xyz, o2n) && FreeFrom(xyz0, nnode) && NamesValid(g.rows0, xyz0)
    ensures g.rows == g.rows0 && g.data == g.data0
  {
    forall c, i | 0 <= c < count && 0 <= i < per && 0 <= g.rows0[c][i] < |o2n|
      ensures o2n[g.rows0[c][i]] == g.rows0[c][i]
    {
      assert AllValid(g.rows0[c], xyz0);
      PackedItemStays(g.rows0[c], xyz0, xyz, o2n, nnode, i);
    }
    PackAgain(g, per, o2n, count);
  }

  lemma MappedValid(row: seq<int>, xyz0: seq<Point>, xyz: seq<Point>, o2n: seq<int>)
    requires IsNodeMove(xyz0, xyz, o2n) && AllValid(row, xyz0) && InRange(row, |o2n|)
    ensures AllValid(Mapped(row, o2n), xyz)
  {
    forall i | 0 <= i < |row| ensures IsValid(xyz, Mapped(row, o2n)[i]) {
      assert NodeMoved(xyz0, xyz, o2n, row[i]) && IsValid(xyz0, row[i]);
    }
  }

  /** Items still name valid nodes after a pack. */
  lemma {:induction false} ItemsStayNamed<P>(rows0: seq<seq<int>>, data0: seq<P>, rows: seq<seq<int>>, data: seq<P>,
                                             o2n: seq<int>, count: nat,
                          xyz0: seq<Point>, xyz: seq<Point>)
    requires ItemsMoved(rows0, data0, rows, data, o2n) && IsNodeMove(xyz0, xyz, o2n) && NamesValid(rows0, xyz0)
    requires forall c :: 0 <= c < |rows| ==> |rows[c]| >= 2
    requires count <= |rows| && Compact(rows, count) && count == NUsed(rows0)
    ensures NamesValid(rows, xyz)
  {
    assert rows0[..|rows0|] == rows0;
    forall p | 0 <= p < |rows| && |rows[p]| >= 2 && Used(rows[p]) ensures AllValid(rows[p], xyz) {
      var c := NewPlaceOnto(rows0, p, |rows0|);
      assert ItemMoved(rows0, data0, rows, data, o2n, c) && AllValid(rows0[c], xyz0);
      MappedValid(rows0[c], xyz0, xyz, o2n);
    }
  }

  /** So do faces, and their ids are still positive. */
  lemma FacesStayNamed(rows0: seq<seq<int>>, data0: seq<FaceTag>, rows: seq<seq<int>>, data: seq<FaceTag>, count: nat,
                       o2n: seq<int>,
                       xyz0: seq<Point>, xyz: seq<Point>)
    requires FacesRegrouped(rows0, data0, rows, data, count, o2n) && IsNodeMove(xyz0, xyz, o2n)
    requires NamesValid(rows0, xyz0) && IdsPositive(rows0, data0)
    ensures NamesValid(rows, xyz) && IdsPositive(rows, data)
  {
    var faces0 := Faces(Regroup(rows0, data0, multiset{}, 0), o2n);
    var faces := seq(|rows|, c requires 0 <= c < |rows| => if Used(rows[c]) then Face(rows[c], data[c]) else NoFace);
    forall c | 0 <= c < |rows| && |rows[c]| >= 2 && Used(rows[c]) ensures AllValid(rows[c], xyz) && data[c].id >= 1 {
      assert faces[c] in multiset(faces) && multiset(faces) == multiset(faces0);
      var d :| 0 <= d < |faces0| && faces0[d] == faces[c];
      assert faces0[d] == Face(Mapped(rows0[d], o2n), data0[d]);
      MappedValid(rows0[d], xyz0, xyz, o2n);
    }
  }

  ghost predicate IdsPositive(rows: seq<seq<int>>, data: seq<FaceTag>) {
    |rows| == |data| && forall c :: 0 <= c < |rows| && |rows[c]| >= 2 && Used(rows[c]) ==> data[c].id >= 1
  }

  /** The faces there were, with new node numbers, now sorted by face id. */
  ghost predicate FacesRegrouped(rows0: seq<seq<int>>, data0: seq<FaceTag>, rows: seq<seq<int>>, data: seq<FaceTag>,
                                 count: nat, o2n: seq<int>) {
    && |rows0| == |data0| && |rows| == |data| && Wide(rows0, 3) && Wide(rows, 3)
    && ValidFaces(rows, data) == AllFaces(rows0, data0, o2n)
    && forall c, d :: 0 <= c < d < count <= |data| ==> data[c].id <= data[d].id
  }

  /** The faces of a packed grid are sorted by id. */
  ghost predicate IsPackedFaces(s: Store<FaceTag>)
    reads s
  {
    IsPackedItems(s) && |s.data| == |s.rows| && forall c, d :: 0 <= c < d < s.count ==> InOrder(s.data, c, d)
  }

  /** For the face loop a packed grid is a settled one. */
  lemma PackedIsSettled(rows: seq<seq<int>>, data: seq<FaceTag>, o2n: seq<int>, count: nat, xyz0: seq<Point>,
                        xyz: seq<Point>, nnode: nat)
    requires Wide(rows, 3) && |rows| == |data| && count <= |rows| && Compact(rows, count)
    requires forall c, d :: 0 <= c < d < count ==> InOrder(data, c, d)
    requires IsNodeMove(xyz0, xyz, o2n) && FreeFrom(xyz0, nnode) && NamesValid(rows, xyz0) && IdsPositive(rows, data)
    ensures IsSettled(rows, data, o2n, count)
  {
    forall c | 0 <= c < count ensures IsFixed(rows[c], o2n) && data[c].id >= 1 {
      assert AllValid(rows[c], xyz0);
      forall i | 0 <= i < |rows[c]| ensures 0 <= rows[c][i] < |o2n| && o2n[rows[c][i]] == rows[c][i] {
        PackedItemStays(rows[c], xyz0, xyz, o2n, nnode, i);
      }
    }
  }

  /** What a packing loop did, in terms of the node tables before and after. */
  lemma ItemsPacked<P>(g: Progress<P>, per: nat, o2n: seq<int>, count: nat, xyz0: seq<Point>, xyz: seq<Point>)
    requires Shape(g, per) && |g.i2n| == |g.rows0| && forall c :: 0 <= c < |g.i2n| ==> Moved(g, per, o2n, c)
    requires IsNodeMove(xyz0, xyz, o2n) && NamesValid(g.rows0, xyz0)
    requires count <= |g.rows| && Compact(g.rows, count) && count == NUsed(g.rows0)
    ensures ItemsMoved(g.rows0, g.data0, g.rows, g.data, o2n) && NamesValid(g.rows, xyz)
  {
    FromProgress(g, per, o2n);
    ItemsStayNamed(g.rows0, g.data0, g.rows, g.data, o2n, count, xyz0, xyz);
  }

  /** The cells of gridPack, for a node map; xyz0 and xyz are the node tables before and after. */
  method PackCellItems<P>(s: Store<P>, o2n: seq<int>, ghost xyz0: seq<Point>, ghost xyz: seq<Point>, ghost nnode: nat)
    requires s.Valid() && |o2n| == s.adj.nnode && IsNodeMove(xyz0, xyz, o2n) && NamesValid(s.rows, xyz0)
    modifies s, s.adj
    ensures s.Valid() && s.adj.nnode == old(s.adj.nnode) && s.max == old(s.max) && s.count == old(s.count)
    ensures IsPackedItems(s) && ItemsMoved(old(s.rows), old(s.data), s.rows, s.data, o2n)
    ensures NamesValid(s.rows, xyz)
    ensures old(IsPackedItems(s)) && FreeFrom(xyz0, nnode) ==>
      s.rows == old(s.rows) && s.data == old(s.data) && s.blank == old(s.blank)
  {
    NodeMapRange(xyz0, xyz, o2n);
    AllSurviveIsValid(s.rows, xyz0, xyz, o2n);
    CountIs(s.Value(), s.per, s.adj.nnode);
    var i2n := PackCells(s, o2n);
    ghost var g := Progress(old(s.rows), old(s.data), s.rows, s.data, i2n, s.adj.Pairs, s.count);
    ItemsPacked(g, s.per, o2n, s.count, xyz0, xyz);
    if old(IsPackedItems(s)) && FreeFrom(xyz0, nnode) {
      PackItemsAgain(g, s.per, o2n, s.count, xyz0, xyz, nnode);
    }
  }

  /** The edges of gridPack; they need not name valid nodes. */
  method PackEdgeItems<P>(s: Store<P>, o2n: seq<int>, ghost xyz0: seq<Point>, ghost xyz: seq<Point>, ghost nnode: nat)
    returns (ok: bool)
    requires s.Valid() && |o2n| == s.adj.nnode && IsNodeMove(xyz0, xyz, o2n)
    modifies s, s.adj
    ensures ok <==> NamesValid(old(s.rows), xyz0)
    ensures ok ==> s.Valid() && s.adj.nnode == old(s.adj.nnode) && s.max == old(s.max) && s.count == old(s.count)
    ensures ok ==> IsPackedItems(s) && ItemsMoved(old(s.rows), old(s.data), s.rows, s.data, o2n)
    ensures ok ==> NamesValid(s.rows, xyz)
    ensures ok && old(IsPackedItems(s)) && FreeFrom(xyz0, nnode) ==>
      s.rows == old(s.rows) && s.data == old(s.data) && s.blank == old(s.blank)
  {
    NodeMapRange(xyz0, xyz, o2n);
    AllSurviveIsValid(s.rows, xyz0, xyz, o2n);
    CountIs(s.Value(), s.per, s.adj.nnode);
    var i2n: seq<int>;
    ok, i2n := PackEdges(s, o2n);
    if ok {
      ghost var g := Progress(old(s.rows), old(s.data), s.rows, s.data, i2n, s.adj.Pairs, s.count);
      ItemsPacked(g, s.per, o2n, s.count, xyz0, xyz);
      if old(IsPackedItems(s)) && FreeFrom(xyz0, nnode) {
        PackItemsAgain(g, s.per, o2n, s.count, xyz0, xyz, nnode);
      }
    }
  }

  ghost predicate IsUnused(rows: seq<seq<int>>) {
    forall c :: 0 <= c < |rows| ==> |rows[c]| >= 2 && !Used(rows[c])
  }

  class Grid {
    const nodes: Nodes
    const cells: Store<seq<int>>
    const faces: Store<FaceTag>
    const edges: Store<EdgeTag>

    ghost const Parts: set<object> := {nodes, cells, cells.adj, faces, faces.adj, edges, edges.adj}

    ghost predicate Apart() {
      && cells.adj != faces.adj && cells.adj != edges.adj && faces.adj != edges.adj
    }

    ghost predicate Valid()
      reads Parts
    {
      && Apart()
      && nodes.Valid() && cells.Valid() && faces.Valid() && edges.Valid()
      && cells.per == 4 && faces.per == 3 && edges.per == 2
      && cells.adj.nnode == faces.adj.nnode == edges.adj.nnode == nodes.maxnode
    }

    /** gridCreate: cell data are the six connection numbers of a cell. */
    constructor (maxnode: int, maxcell: int, maxface: int, maxedge: int)
      ensures Valid() && fresh(Parts)
      ensures nodes.nnode == cells.count == faces.count == edges.count == 0
      ensures nodes.maxnode == Max(maxnode, 1) && !nodes.hasGlobal
      ensures IsUnused(cells.rows) && IsUnused(faces.rows) && IsUnused(edges.rows)
      ensures faces.blank == edges.blank == 0
    {
      var n := new Nodes(maxnode);
      nodes := n;
      cells := new Store(4, seq(6, _ => EMPTY), Max(maxnode, 1), maxcell);
      faces := new Store(3, Tag(EMPTY, []), Max(maxnode, 1), maxface);
      edges := new Store(2, Tag(EMPTY, []), Max(maxnode, 1), maxedge);
    }

    /** gridAddNode for a grid without global ids: the adjacencies grow with the node table. */
    method AddNode(x: real, y: real, z: real) returns (node: nat)
      requires Valid() && x != DBL_MAX && !nodes.hasGlobal
      modifies nodes, cells.adj, faces.adj, edges.adj
      ensures Valid() && node == old(nodes.NextNode()) && nodes.nnode == old(nodes.nnode) + 1 && !nodes.hasGlobal
      ensures node < |nodes.xyz| && nodes.xyz[node] == Point(x, y, z) && !IsValid(old(nodes.xyz), node)
      ensures forall m :: IsValid(old(nodes.xyz), m) ==> IsValid(nodes.xyz, m) && nodes.xyz[m] == old(nodes.xyz)[m]
      ensures forall m :: IsValid(nodes.xyz, m) && m != node ==> IsValid(old(nodes.xyz), m)
    {
      node := nodes.AddNodeWithGlobal(x, y, z, EMPTY);
      if cells.adj.nnode < nodes.maxnode {
        cells.MoreNodes(nodes.maxnode);
        faces.MoreNodes(nodes.maxnode);
        edges.MoreNodes(nodes.maxnode);
      }
    }

    /** gridSetNodeXYZ for a valid node. */
    method PlaceNode(node: int, p: Point)
      requires Valid() && IsValid(nodes.xyz, node) && p.x != DBL_MAX
      modifies nodes`xyz
      ensures Valid() && nodes.xyz == old(nodes.xyz)[node := p]
    {
      nodes.SetNodeXYZ(node, p);
    }

    /** gridRemoveNode for a grid without global ids. */
    method RemoveNode(node: int)
      requires Valid() && IsValid(nodes.xyz, node) && !nodes.hasGlobal
      modifies nodes
      ensures Valid() && !nodes.hasGlobal && !IsValid(nodes.xyz, node) && |nodes.xyz| == |old(nodes.xyz)|
      ensures forall m :: 0 <= m < |nodes.xyz| && m != node ==> nodes.xyz[m] == old(nodes.xyz)[m]
    {
      var _ := nodes.RemoveNodeWithOutGlobal(node);
    }

    ghost predicate IsPacked()
      reads Parts
    {
      IsPackedNodes(nodes) && IsPackedItems(cells) && IsPackedItems(edges)
    }

    /** Cells and faces name valid nodes. */
    ghost predicate Named()
      reads Parts
    {
      NamesValid(cells.rows, nodes.xyz) && NamesValid(faces.rows, nodes.xyz)
    }

    /** The node and cell parts of gridPack. */
    method PackNodesAndCells() returns (nodeo2n: seq<int>)
      requires Valid() && NamesValid(cells.rows, nodes.xyz)
      modifies nodes, cells, cells.adj
      ensures nodes.Valid() && nodes.nnode == old(nodes.nnode) && nodes.maxnode == old(nodes.maxnode)
      ensures IsPackedNodes(nodes) && IsNodeMove(old(nodes.xyz), nodes.xyz, nodeo2n)
      ensures cells.Valid() && cells.adj.nnode == old(cells.adj.nnode) && cells.count == old(cells.count)
      ensures IsPackedItems(cells) && ItemsMoved(old(cells.rows), old(cells.data), cells.rows, cells.data, nodeo2n)
      ensures NamesValid(cells.rows, nodes.xyz)
      ensures old(IsPackedNodes(nodes)) ==> nodes.xyz == old(nodes.xyz) && nodes.blanknode == old(nodes.blanknode)
      ensures old(IsPackedNodes(nodes)) && old(IsPackedItems(cells)) ==>
        cells.rows == old(cells.rows) && cells.data == old(cells.data) && cells.blank == old(cells.blank)
    {
      ghost var xyz0 := nodes.xyz;
      nodeo2n := PackNodes(nodes);
      if FreeFrom(xyz0, nodes.nnode) {
        PackNodesAgain(xyz0, nodes.xyz, nodeo2n, nodes.nnode);
      }
      PackCellItems(cells, nodeo2n, xyz0, nodes.xyz, nodes.nnode);
    }

    /** The face part of gridPack. */
    method PackFaceItems(nodeo2n: seq<int>, ghost xyz0: seq<Point>) returns (ok: bool)
      requires faces.Valid() && faces.per == 3 && NamesValid(faces.rows, xyz0)
      requires |nodeo2n| == faces.adj.nnode && IsNodeMove(xyz0, nodes.xyz, nodeo2n)
      modifies faces, faces.adj
      ensures ok <==> IdsPositive(old(faces.rows), old(faces.data))
      ensures ok ==> faces.Valid() && faces.adj.nnode == old(faces.adj.nnode) && faces.count == old(faces.count)
      ensures ok ==> IsPackedFaces(faces) && IdsPositive(faces.rows, faces.data) && NamesValid(faces.rows, nodes.xyz)
      ensures ok ==>
        FacesRegrouped(old(faces.rows), old(faces.data), faces.rows, faces.data, faces.count, nodeo2n)
      ensures ok && old(IsPackedFaces(faces)) && FreeFrom(xyz0, nodes.nnode) ==>
        faces.rows == old(faces.rows) && faces.data == old(faces.data) && faces.blank == old(faces.blank)
    {
      AllCanMap(faces.rows, xyz0, nodes.xyz, nodeo2n);
      ghost var rows0, data0, count := faces.rows, faces.data, faces.count;
      if IsPackedFaces(faces) && FreeFrom(xyz0, nodes.nnode) && IdsPositive(rows0, data0) {
        PackedIsSettled(rows0, data0, nodeo2n, count, xyz0, nodes.xyz, nodes.nnode);
      }
      ok := PackFaces(faces, nodeo2n);
      if ok {
        FacesStayNamed(rows0, data0, faces.rows, faces.data, faces.count, nodeo2n, xyz0, nodes.xyz);
      }
    }

    /** The face and edge parts of gridPack; an error leaves the edges as they are or half way. */
    method PackBoundary(nodeo2n: seq<int>, ghost xyz0: seq<Point>) returns (ok: bool)
      requires faces.Valid() && edges.Valid() && faces.per == 3 && faces.adj != edges.adj
      requires |nodeo2n| == faces.adj.nnode == edges.adj.nnode && IsNodeMove(xyz0, nodes.xyz, nodeo2n)
      requires NamesValid(faces.rows, xyz0)
      modifies faces, faces.adj, edges, edges.adj
      ensures ok <==> IdsPositive(old(faces.rows), old(faces.data)) && NamesValid(old(edges.rows), xyz0)
      ensures ok ==> faces.Valid() && faces.adj.nnode == old(faces.adj.nnode) && faces.count == old(faces.count)
      ensures ok ==> IsPackedFaces(faces)
      ensures ok ==>
        FacesRegrouped(old(faces.rows), old(faces.data), faces.rows, faces.data, faces.count, nodeo2n)
      ensures ok ==> edges.Valid() && edges.adj.nnode == old(edges.adj.nnode) && edges.count == old(edges.count)
      ensures ok ==>
        IsPackedItems(edges) && ItemsMoved(old(edges.rows), old(edges.data), edges.rows, edges.data, nodeo2n)
      ensures ok ==>
        NamesValid(faces.rows, nodes.xyz) && IdsPositive(faces.rows, faces.data) && NamesValid(edges.rows, nodes.xyz)
      ensures ok && old(IsPackedItems(edges)) && FreeFrom(xyz0, nodes.nnode) ==>
        edges.rows == old(edges.rows) && edges.data == old(edges.data) && edges.blank == old(edges.blank)
      ensures ok && old(IsPackedFaces(faces)) && FreeFrom(xyz0, nodes.nnode) ==>
        faces.rows == old(faces.rows) && faces.data == old(faces.data) && faces.blank == old(faces.blank)
    {
      ok := PackFaceItems(nodeo2n, xyz0);
      if ok {
        ok := PackEdgeItems(edges, nodeo2n, xyz0, nodes.xyz, nodes.nnode);
      }
    }

    /**
     gridPack. It reports an error exactly when a face id is below 1 or an edge names a node that is
     not valid. Otherwise nodes, cells and edges have moved down in order, faces are regrouped by id,
     every table names the new nodes, and a grid that was packed has kept its tables.
     */
    method Pack() returns (ok: bool, nodeo2n: seq<int>)
      requires Valid() && Named()
      modifies Parts
      ensures ok <==> IdsPositive(old(faces.rows), old(faces.data)) && NamesValid(old(edges.rows), old(nodes.xyz))
      ensures IsNodeMove(old(nodes.xyz), nodes.xyz, nodeo2n)
      ensures ok ==> Valid() && IsPacked() && IsPackedFaces(faces)
      ensures ok ==> Named() && IdsPositive(faces.rows, faces.data) && NamesValid(edges.rows, nodes.xyz)
      ensures ok ==> nodes.nnode == old(nodes.nnode) && cells.count == old(cells.count)
      ensures ok ==> faces.count == old(faces.count) && edges.count == old(edges.count)
      ensures ok ==> ItemsMoved(old(cells.rows), old(cells.data), cells.rows, cells.data, nodeo2n)
      ensures ok ==> ItemsMoved(old(edges.rows), old(edges.data), edges.rows, edges.data, nodeo2n)
      ensures ok ==> FacesRegrouped(old(faces.rows), old(faces.data), faces.rows, faces.data, faces.count, nodeo2n)
      ensures ok && old(IsPacked()) ==> nodes.xyz == old(nodes.xyz) && nodes.blanknode == old(nodes.blanknode)
      ensures ok && old(IsPacked()) ==>
        cells.rows == old(cells.rows) && cells.data == old(cells.data) && cells.blank == old(cells.blank)
      ensures ok && old(IsPacked()) ==>
        edges.rows == old(edges.rows) && edges.data == old(edges.data) && edges.blank == old(edges.blank)
      ensures ok && old(IsPacked() && IsPackedFaces(faces)) ==>
        faces.rows == old(faces.rows) && faces.data == old(faces.data) && faces.blank == old(faces.blank)
    {
      ghost var xyz0 := nodes.xyz;
      nodeo2n := PackNodesAndCells();
      ok := PackBoundary(nodeo2n, xyz0);
    }

    /**
     A second gridPack succeeds after the first and moves nothing: all tables are still what the first made of
     the old ones.
     */
    method PackTwice() returns (ok: bool, again: bool, nodeo2n: seq<int>)
      requires Valid() && Named()
      modifies Parts
      ensures ok <==> IdsPositive(old(faces.rows), old(faces.data)) && NamesValid(old(edges.rows), old(nodes.xyz))
      ensures ok ==> again && Valid() && IsPacked() && IsPackedFaces(faces)
      ensures ok ==> IsNodeMove(old(nodes.xyz), nodes.xyz, nodeo2n)
      ensures ok ==> ItemsMoved(old(cells.rows), old(cells.data), cells.rows, cells.data, nodeo2n)
      ensures ok ==> ItemsMoved(old(edges.rows), old(edges.data), edges.rows, edges.data, nodeo2n)
      ensures ok ==> FacesRegrouped(old(faces.rows), old(faces.data), faces.rows, faces.data, faces.count, nodeo2n)
    {
      ok, nodeo2n := Pack();
      again := false;
      if ok {
        var second;
        ghost var before := Tables();
        again, second := Pack();
        assert Tables() == before;
      }
    }

    ghost function Tables(): (seq<Point>, seq<seq<int>>, seq<seq<int>>, seq<FaceTag>, seq<seq<int>>)
      reads Parts
    {
      (nodes.xyz, cells.rows, faces.rows, faces.data, edges.rows)
    }

    static method ThreeNodes() returns (grid: Grid, a: nat, b: nat, c: nat)
      ensures fresh(grid.Parts) && grid.Valid() && grid.nodes.nnode == 3 && grid.faces.count == 0
      ensures IsUnused(grid.cells.rows) && IsUnused(grid.faces.rows) && IsUnused(grid.edges.rows)
      ensures grid.faces.blank == 0 && AllValid([a, b, c], grid.nodes.xyz)
    {
      grid := new Grid(3, 1, 1, 1);
      a := grid.AddNode(0.0, 0.0, 0.0);
      b := grid.AddNode(1.0, 0.0, 0.0);
      c := grid.AddNode(0.0, 1.0, 0.0);
    }

    /** Three nodes and one face without an id. */
    static method FaceWithoutId() returns (grid: Grid)
      ensures fresh(grid.Parts) && grid.Valid() && grid.Named() && grid.nodes.nnode == 3 && grid.faces.count == 1
      ensures !IdsPositive(grid.faces.rows, grid.faces.data) && NamesValid(grid.edges.rows, grid.nodes.xyz)
    {
      var a, b, c;
      grid, a, b, c := ThreeNodes();
      ghost var rows := grid.faces.rows;
      var face := grid.faces.Add([a, b, c], Tag(0, []));
      assert grid.faces.rows == rows[face := [a, b, c]] && grid.faces.data[face] == Tag(0, []);
    }

    /** Two nodes and an edge between them, and then one of the nodes is removed. */
    static method EdgeOfRemovedNode() returns (grid: Grid)
      ensures fresh(grid.Parts) && grid.Valid() && grid.Named() && grid.faces.count == 0 && grid.edges.count == 1
      ensures IdsPositive(grid.faces.rows, grid.faces.data) && !NamesValid(grid.edges.rows, grid.nodes.xyz)
    {
      grid := new Grid(2, 1, 1, 1);
      var a := grid.AddNode(0.0, 0.0, 0.0);
      var b := grid.AddNode(1.0, 0.0, 0.0);
      ghost var rows := grid.edges.rows;
      var edge := grid.edges.Add([a, b], Tag(1, []));
      grid.RemoveNode(b);
      assert grid.edges.rows[edge] == [a, b] && !AllValid(grid.edges.rows[edge], grid.nodes.xyz) by {
        assert grid.edges.rows[edge][1] == b;
      }
    }

    /** gridPack gives up on either grid. */
    static method PackFails() returns (first: bool, second: bool)
      ensures !first && !second
    {
      var grid := FaceWithoutId();
      var nodeo2n;
      first, nodeo2n := grid.Pack();
      grid := EdgeOfRemovedNode();
      second, nodeo2n := grid.Pack();
    }
  }
}
