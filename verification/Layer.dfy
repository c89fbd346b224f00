/**
 The advance of the layer (mesherx/layer.c): every active normal gets a new node, every front triangle
 a prism of tetrahedra, every constrained side its faces, and the front moves on to the new nodes.
 */
module AdvancingLayer {
  import opened Common
  import opened Geometry
  import opened ItemStore
  import opened FacePacking
  import opened NodeStore
  import opened MeshGrid
  import opened LayerStore
  import opened Chains
  import opened Front
  import opened MovingUp

  /** What a cell or a face shows. */
  ghost function RowChi(row: seq<int>, q: Tri): int {
    if |row| == 4 then TetChi(row, q) else if |row| == 3 then TriChi(row, q) else 0
  }

  ghost function Weight(q: Tri): seq<int> -> int {
    (row: seq<int>) => RowChi(row, q)
  }

  /** A sum over the rows of the layer among the first n. */
  ghost function LayerSum(rows: seq<seq<int>>, flags: seq<bool>, n: nat, w: seq<int> -> int): int {
    if n == 0 then 0
    else LayerSum(rows, flags, n - 1, w) + if n <= |rows| && Flagged(flags, n - 1) then w(rows[n - 1]) else 0
  }

  /** What the items of the layer show: for cells their faces, for faces themselves. */
  ghost function Shown(rows: seq<seq<int>>, flags: seq<bool>, q: Tri): int {
    LayerSum(rows, flags, |rows|, Weight(q))
  }

  lemma {:induction false} LayerSumSame(rows: seq<seq<int>>, flags: seq<bool>, rows': seq<seq<int>>, n: nat,
                                        w: seq<int> -> int)
    requires n <= |rows| == |rows'| && forall c :: 0 <= c < |rows| && Flagged(flags, c) ==> rows'[c] == rows[c]
    ensures LayerSum(rows', flags, n, w) == LayerSum(rows, flags, n, w)
  {
    if n > 0 {
      LayerSumSame(rows, flags, rows', n - 1, w);
    }
  }

  /** Changes outside the layer do not show. */
  lemma ShownSame(rows: seq<seq<int>>, flags: seq<bool>, rows': seq<seq<int>>)
    requires |rows| == |rows'| && forall c :: 0 <= c < |rows| && Flagged(flags, c) ==> rows'[c] == rows[c]
    ensures forall q :: Shown(rows', flags, q) == Shown(rows, flags, q)
  {
    forall q ensures Shown(rows', flags, q) == Shown(rows, flags, q) {
      LayerSumSame(rows, flags, rows', |rows|, Weight(q));
    }
  }

  /** The table after an item of the layer went to a free or a new row. */
  ghost predicate IsAdded(rows: seq<seq<int>>, flags: seq<bool>, rows': seq<seq<int>>, flags': seq<bool>, item: nat,
                          row: seq<int>) {
    && |rows| <= |rows'| && item < |rows'| && rows'[item] == row && !Flagged(flags, item)
    && (forall c :: Flagged(flags, c) ==> c < |rows|)
    && (forall c :: 0 <= c < |rows| && c != item ==> rows'[c] == rows[c])
    && (forall c :: Flagged(flags', c) <==> Flagged(flags, c) || c == item)
  }

  lemma {:induction false} LayerSumAdded(rows: seq<seq<int>>, flags: seq<bool>, rows': seq<seq<int>>, flags': seq<bool>,
                                         item: nat, row: seq<int>, n: nat, w: seq<int> -> int)
    requires IsAdded(rows, flags, rows', flags', item, row) && n <= |rows'|
    ensures LayerSum(rows', flags', n, w) == LayerSum(rows, flags, n, w) + if item < n then w(row) else 0
  {
    if n > 0 {
      LayerSumAdded(rows, flags, rows', flags', item, row, n - 1, w);
      assert Flagged(flags', n - 1) <==> Flagged(flags, n - 1) || n - 1 == item;
    }
  }

  lemma {:induction false} LayerSumBeyond(rows: seq<seq<int>>, flags: seq<bool>, n: nat, w: seq<int> -> int)
    requires n >= |rows|
    ensures LayerSum(rows, flags, n, w) == LayerSum(rows, flags, |rows|, w)
  {
    if n > |rows| {
      LayerSumBeyond(rows, flags, n - 1, w);
    }
  }

  lemma ShownAdded(rows: seq<seq<int>>, flags: seq<bool>, rows': seq<seq<int>>, flags': seq<bool>, item: nat,
                   row: seq<int>)
    requires IsAdded(rows, flags, rows', flags', item, row)
    ensures forall q :: Shown(rows', flags', q) == Shown(rows, flags, q) + Weight(q)(row)
  {
    forall q ensures Shown(rows', flags', q) == Shown(rows, flags, q) + Weight(q)(row) {
      LayerSumAdded(rows, flags, rows', flags', item, row, |rows'|, Weight(q));
      LayerSumBeyond(rows, flags, |rows'|, Weight(q));
    }
  }

  lemma {:induction false} LayerSumNothing(rows: seq<seq<int>>, flags: seq<bool>, n: nat, w: seq<int> -> int)
    requires forall c :: !Flagged(flags, c)
    ensures LayerSum(rows, flags, n, w) == 0
  {
    if n > 0 {
      LayerSumNothing(rows, flags, n - 1, w);
    }
  }

  lemma ShownNothing(rows: seq<seq<int>>, flags: seq<bool>)
    requires forall c :: !Flagged(flags, c)
    ensures forall q :: Shown(rows, flags, q) == 0
  {
    forall q ensures Shown(rows, flags, q) == 0 {
      LayerSumNothing(rows, flags, |rows|, Weight(q));
    }
  }

  lemma SumStep(s: seq<int>, k: nat)
    requires k < |s|
    ensures Sum(s[..k + 1]) == Sum(s[..k]) + s[k]
  {
    assert s[..k + 1][..k] == s[..k];
  }

  /**
   For each query triangle, what each front triangle adds to the cells and to the faces of the layer;
   and for each front triangle whether one of its tetrahedra is too small.
   */
  datatype Lists = Lists(made: Tri -> seq<int>, constrained: Tri -> seq<int>, refused: seq<bool>)

  /** Kept folded. */
  ghost predicate Describes(lists: Lists, normals: seq<Normal>, triangles: seq<Triangle>, xyz: seq<Point>) {
    && AllOk(triangles, |normals|)
    && |lists.refused| == |triangles|
    && (forall q :: |lists.made(q)| == |lists.constrained(q)| == |triangles|)
    && forall u :: Unfold(u) ==>
         && (forall k :: 0 <= k < |triangles| ==> lists.refused[k] == TriangleRefused(normals, triangles, xyz, k))
         && (forall q ::
              lists.made(q) == MadeList(normals, triangles, q) &&
                lists.constrained(q) == ConstrainedList(normals, triangles, q))
  }

  lemma RefusedAt(lists: Lists, normals: seq<Normal>, triangles: seq<Triangle>, xyz: seq<Point>, k: nat)
    requires Describes(lists, normals, triangles, xyz) && k < |triangles|
    ensures lists.refused[k] == TriangleRefused(normals, triangles, xyz, k)
  {
    assert Unfold(0);
  }

  ghost predicate ListsFit(lists: Lists, n: nat) {
    |lists.refused| == n && forall q :: |lists.made(q)| == |lists.constrained(q)| == n
  }

  /** What the first k triangles add to the cells. */
  ghost function MadeUpto(lists: Lists, q: Tri, k: nat): int
    requires k <= |lists.made(q)|
  {
    Sum(lists.made(q)[..k])
  }

  /** What the first k triangles add to the faces. */
  ghost function ConstrainedUpto(lists: Lists, q: Tri, k: nat): int
    requires k <= |lists.constrained(q)|
  {
    Sum(lists.constrained(q)[..k])
  }

  ghost predicate RefusedUpto(lists: Lists, k: nat)
    requires k <= |lists.refused|
  {
    true in lists.refused[..k]
  }

  /** One triangle more. */
  lemma ListsStep(lists: Lists, n: nat, k: nat, next: nat)
    requires ListsFit(lists, n) && k < n && next == k + 1
    ensures RefusedUpto(lists, next) <==> RefusedUpto(lists, k) || lists.refused[k]
    ensures forall q :: MadeUpto(lists, q, next) == MadeUpto(lists, q, k) + lists.made(q)[k]
    ensures forall q :: ConstrainedUpto(lists, q, next) == ConstrainedUpto(lists, q, k) + lists.constrained(q)[k]
  {
    assert lists.refused[..next] == lists.refused[..k] + [lists.refused[k]];
    forall q ensures MadeUpto(lists, q, next) == MadeUpto(lists, q, k) + lists.made(q)[k] {
      SumStep(lists.made(q), k);
    }
    forall q ensures ConstrainedUpto(lists, q, next) == ConstrainedUpto(lists, q, k) + lists.constrained(q)[k] {
      SumStep(lists.constrained(q), k);
    }
  }

  lemma WholeLists(lists: Lists, n: nat)
    requires ListsFit(lists, n)
    ensures RefusedUpto(lists, n) <==> true in lists.refused
    ensures forall q :: MadeUpto(lists, q, n) == Sum(lists.made(q))
    ensures forall q :: ConstrainedUpto(lists, q, n) == Sum(lists.constrained(q))
  {
    assert lists.refused[..n] == lists.refused;
    forall q ensures MadeUpto(lists, q, n) == Sum(lists.made(q)) {
      assert lists.made(q)[..n] == lists.made(q);
    }
    forall q ensures ConstrainedUpto(lists, q, n) == Sum(lists.constrained(q)) {
      assert lists.constrained(q)[..n] == lists.constrained(q);
    }
  }

  /** What has been added since, kept folded. */
  ghost predicate ShownSince(a: Tables, b: Tables, lists: Lists, k: nat) {
    forall u :: OpenItems(u) ==> forall q :: k <= |lists.made(q)| && k <= |lists.constrained(q)| ==>
      && Shown(b.cells.rows, b.cells.flags, q) == Shown(a.cells.rows, a.cells.flags, q) + MadeUpto(lists, q, k)
      && Shown(b.faces.rows, b.faces.flags, q) == Shown(a.faces.rows, a.faces.flags, q) + ConstrainedUpto(lists, q, k)
  }

  lemma ShownNext(a: Tables, b: Tables, d: Tables, lists: Lists, n: nat, k: nat)
    requires ListsFit(lists, n) && k < n && ShownSince(a, b, lists, k)
    requires forall q ::
      Shown(d.cells.rows, d.cells.flags, q) == Shown(b.cells.rows, b.cells.flags, q) + lists.made(q)[k]
    requires forall q ::
      Shown(d.faces.rows, d.faces.flags, q) == Shown(b.faces.rows, b.faces.flags, q) + lists.constrained(q)[k]
    ensures ShownSince(a, d, lists, k + 1)
    ensures RefusedUpto(lists, k + 1) <==> RefusedUpto(lists, k) || lists.refused[k]
  {
    assert OpenItems(0);
    ListsStep(lists, n, k, k + 1);
  }

  lemma AllShown(a: Tables, b: Tables, lists: Lists, n: nat)
    requires ListsFit(lists, n) && ShownSince(a, b, lists, n)
    ensures RefusedUpto(lists, n) <==> true in lists.refused
    ensures forall q ::
      Shown(b.cells.rows, b.cells.flags, q) == Shown(a.cells.rows, a.cells.flags, q) + Sum(lists.made(q))
    ensures forall q ::
      Shown(b.faces.rows, b.faces.flags, q) == Shown(a.faces.rows, a.faces.flags, q) + Sum(lists.constrained(q))
  {
    assert OpenItems(0);
    WholeLists(lists, n);
  }

  lemma {:induction false} ListsAt(lists: Lists, normals: seq<Normal>, triangles: seq<Triangle>, xyz: seq<Point>,
                                   k: nat, q: Tri)
    requires Describes(lists, normals, triangles, xyz) && k < |triangles| && TriangleOk(triangles[k], |normals|)
    ensures lists.made(q)[k] == MadeOf(normals, triangles[k], q)
    ensures lists.constrained(q)[k] == ConstrainedOf(normals, triangles[k], 3, q)
  {
    assert Unfold(0);
    assert lists.made(q) == MadeList(normals, triangles, q);
  }

  /** Some tetrahedron of a triangle is made and is too small. */
  ghost predicate TriangleRefused(normals: seq<Normal>, triangles: seq<Triangle>, xyz: seq<Point>, k: int)
    requires AllOk(triangles, |normals|) && 0 <= k < |triangles|
  {
    assert TriangleOk(triangles[k], |normals|);
    var ns := SortedNormals(normals, triangles[k]);
    PrismRefused(xyz, Roots(normals, ns) + Tips(normals, ns))
  }

  /** What the faces of one side show. */
  ghost function SideShown(normals: seq<Normal>, t: Triangle, i: nat, q: Tri): int
    requires TriangleOk(t, |normals|) && i < 3
  {
    ConstrainedOf(normals, t, i + 1, q) - ConstrainedOf(normals, t, i, q)
  }

  /** The handle for the tables of a layer. */
  ghost predicate OpenTables(u: int) {
    true
  }

  class Layer {
    const grid: Grid
    const cells: LayerItems<seq<int>>
    const faces: LayerItems<FaceTag>
    const edges: LayerItems<EdgeTag>
    var normal: seq<Normal>
    var triangle: seq<Triangle>

    ghost const Parts: set<object> := grid.Parts + {cells as object, faces as object, edges as object}

    /** The tables of the grid and the flags of the layer; the serial mesher has no global ids. Kept folded. */
    ghost predicate ValidTables()
      reads Parts
    {
      && this !in Parts
      && forall u :: OpenTables(u) ==>
           && grid.Valid() && !grid.nodes.hasGlobal
           && cells.items == grid.cells && faces.items == grid.faces && edges.items == grid.edges
           && cells.Valid() && faces.Valid() && edges.Valid()
    }

    ghost predicate Valid()
      reads this, Parts
    {
      && ValidTables()
      && RootsValid(normal, grid.nodes.xyz) && DistinctRoots(normal) && Closed(triangle, |normal|)
    }

    constructor (grid: Grid, normal: seq<Normal>, triangle: seq<Triangle>)
      requires grid.Valid() && !grid.nodes.hasGlobal
      requires RootsValid(normal, grid.nodes.xyz) && DistinctRoots(normal) && Closed(triangle, |normal|)
      ensures Valid() && this.grid == grid && this.normal == normal && this.triangle == triangle
      ensures fresh(cells) && fresh(faces) && fresh(edges)
      ensures forall q :: CellsShow(q) == 0 && FacesShow(q) == 0
    {
      this.grid := grid;
      cells := new LayerItems(grid.cells);
      faces := new LayerItems(grid.faces);
      edges := new LayerItems(grid.edges);
      this.normal, this.triangle := normal, triangle;
      new;
      ShownNothing(cells.items.rows, cells.inLayer);
      ShownNothing(faces.items.rows, faces.inLayer);
    }

    ghost function CellsShow(q: Tri): int
      reads cells, cells.items
    {
      Shown(cells.items.rows, cells.inLayer, q)
    }

    ghost function FacesShow(q: Tri): int
      reads faces, faces.items
    {
      Shown(faces.items.rows, faces.inLayer, q)
    }

    /** The faces of the layer's cells, less the layer's boundary faces, plus the front. */
    ghost function Balance(q: Tri): int
      requires AllOk(triangle, |normal|)
      reads this, cells, cells.items, faces, faces.items
    {
      CellsShow(q) - FacesShow(q) + Sum(FrontList(normal, triangle, q))
    }

    /** The three tables with their flags. */
    ghost function State(): Tables
      reads cells, cells.items, faces, faces.items, edges, edges.items
    {
      Tables(cells.State(), faces.State(), edges.State())
    }

    /** A cell of the layer. */
    method AddCell(tet: seq<int>) returns (newCell: nat)
      requires ValidTables() && |tet| == 4 && InRange(tet, grid.nodes.maxnode)
      modifies cells`inLayer, grid.cells, grid.cells.adj
      ensures ValidTables()
      ensures Gains(old(cells.State()), cells.State(), newCell, tet, NO_FACES)
      ensures forall q :: CellsShow(q) == old(CellsShow(q)) + Weight(q)(tet)
    {
      assert OpenTables(0);
      ghost var rows, flags := cells.items.rows, cells.inLayer;
      newCell := cells.AddToLayer(tet, NO_FACES);
      ShownAdded(rows, flags, cells.items.rows, cells.inLayer, newCell, tet);
    }

    /** The macro addTet. */
    method AddTet(tet: seq<int>) returns (negVolume: bool, newCell: nat)
      requires ValidTables() && |tet| == 4 && InRange(tet, grid.nodes.maxnode)
      modifies cells`inLayer, grid.cells, grid.cells.adj
      ensures ValidTables()
      ensures negVolume <==> 0.00000000000001 > GridVolume(grid.nodes.xyz, tet)
      ensures (exists i :: 0 <= i < 4 && !IsValid(grid.nodes.xyz, tet[i])) ==> negVolume
      ensures Gains(old(cells.State()), cells.State(), newCell, tet, NO_FACES)
      ensures forall q :: CellsShow(q) == old(CellsShow(q)) + TetChi(tet, q)
    {
      newCell := AddCell(tet);
      negVolume := VOLUME_LIMIT > GridVolume(grid.nodes.xyz, tet);
      forall q ensures Weight(q)(tet) == TetChi(tet, q) {
      }
    }

    /** A face added on a constrained side. */
    method AddFace(n0: int, n1: int, n2: int, faceId: int) returns (newFace: nat)
      requires ValidTables() && InRange([n0, n1, n2], grid.nodes.maxnode)
      modifies faces`inLayer, grid.faces, grid.faces.adj
      ensures ValidTables()
      ensures Gains(old(faces.State()), faces.State(), newFace, [n0, n1, n2], NewTag(faceId))
      ensures forall q :: FacesShow(q) == old(FacesShow(q)) + Chi(Tri(n0, n1, n2), q)
    {
      newFace := AddLayerFace([n0, n1, n2], faceId);
      forall q ensures Weight(q)([n0, n1, n2]) == Chi(Tri(n0, n1, n2), q) {
      }
    }

    /** A face of the layer, with uv parameters still to be found. */
    method AddLayerFace(nodes: seq<int>, faceId: int) returns (newFace: nat)
      requires ValidTables() && |nodes| == 3 && InRange(nodes, grid.nodes.maxnode)
      modifies faces`inLayer, grid.faces, grid.faces.adj
      ensures ValidTables()
      ensures Gains(old(faces.State()), faces.State(), newFace, nodes, NewTag(faceId))
      ensures forall q :: FacesShow(q) == old(FacesShow(q)) + Weight(q)(nodes)
    {
      assert OpenTables(0);
      ghost var rows, flags := faces.items.rows, faces.inLayer;
      newFace := faces.AddToLayer(nodes, NewTag(faceId));
      ShownAdded(rows, flags, faces.items.rows, faces.inLayer, newFace, nodes);
    }

    /** Roots and tips are nodes of the grid. */
    ghost predicate Placed()
      reads this, grid.nodes
    {
      forall i :: 0 <= i < |normal| ==>
        0 <= normal[i].root < grid.nodes.maxnode && 0 <= normal[i].tip < grid.nodes.maxnode
    }

    /** The faces on a constrained side; n holds roots and tips of its ends, second end first. */
    method AddSide(n: seq<int>, faceId: int)
      requires ValidTables() && |n| == 4 && InRange(n, grid.nodes.maxnode)
      modifies faces`inLayer, grid.faces, grid.faces.adj
      ensures ValidTables()
      ensures Grown(old(faces.State()), faces.State()) && NewOnSide(old(faces.State()), faces.State(), n, faceId)
      ensures forall q :: FacesShow(q) == old(FacesShow(q)) + SideFaces(n, q)
    {
      ghost var faces0 := faces.State();
      NoNewOnSide(faces0, n, faceId);
      if n[0] < n[1] {
        if n[1] != n[3] {
          AddSideFace(n, n[0], n[1], n[3], faceId, faces0);
        }
        if n[0] != n[2] {
          AddSideFace(n, n[0], n[3], n[2], faceId, faces0);
        }
      } else {
        if n[0] != n[2] {
          AddSideFace(n, n[0], n[1], n[2], faceId, faces0);
        }
        if n[1] != n[3] {
          AddSideFace(n, n[2], n[1], n[3], faceId, faces0);
        }
      }
    }

    /** One face on this side. */
    method AddSideFace(ghost n: seq<int>, n0: int, n1: int, n2: int, faceId: int, ghost faces0: Items<FaceTag>)
      requires ValidTables() && InRange([n0, n1, n2], grid.nodes.maxnode)
      requires |n| == 4 && IsSideFace([n0, n1, n2], n)
      requires Grown(faces0, faces.State()) && NewOnSide(faces0, faces.State(), n, faceId)
      modifies faces`inLayer, grid.faces, grid.faces.adj
      ensures ValidTables()
      ensures Grown(faces0, faces.State()) && NewOnSide(faces0, faces.State(), n, faceId)
      ensures forall q :: FacesShow(q) == old(FacesShow(q)) + Chi(Tri(n0, n1, n2), q)
    {
      ghost var before := faces.State();
      var newFace := AddFace(n0, n1, n2, faceId);
      NewOnSideStep(faces0, before, faces.State(), n, faceId, newFace, [n0, n1, n2]);
    }

    /** The faces that have come in since, on the sides before side i of triangle k. */
    ghost predicate FacesSince(faces0: Items<FaceTag>, k: nat, i: nat)
      reads this, faces, faces.items
    {
      && Grown(faces0, faces.State())
      && NewFaces(faces0, faces.State(), AllRoots(normal), AllTips(normal), triangle, k, i)
    }

    /** The part of layerAdvance that adds faces for one triangle. */
    method AddSides(k: nat, ghost faces0: Items<FaceTag>)
      requires ValidTables() && k < |triangle| && TriangleOk(triangle[k], |normal|) && DistinctRoots(normal) && Placed()
      requires FacesSince(faces0, k, 0)
      modifies faces`inLayer, grid.faces, grid.faces.adj
      ensures ValidTables() && FacesSince(faces0, k + 1, 0)
      ensures forall q :: FacesShow(q) == old(FacesShow(q)) + ConstrainedOf(normal, triangle[k], 3, q)
    {
      for i := 0 to 3
        invariant ValidTables() && FacesSince(faces0, k, i)
        invariant forall q :: FacesShow(q) == old(FacesShow(q)) + ConstrainedOf(normal, triangle[k], i, q)
      {
        AddSidesAt(k, i, faces0);
      }
      NewFacesNext(faces0, faces.State(), AllRoots(normal), AllTips(normal), triangle, k);
    }

    /** One side of the triangle. */
    method AddSidesAt(k: nat, i: nat, ghost faces0: Items<FaceTag>)
      requires ValidTables() && k < |triangle| && TriangleOk(triangle[k], |normal|) && DistinctRoots(normal) && Placed()
      requires i < 3 && FacesSince(faces0, k, i)
      modifies faces`inLayer, grid.faces, grid.faces.adj
      ensures ValidTables() && FacesSince(faces0, k, i + 1)
      ensures forall q :: FacesShow(q) == old(FacesShow(q)) + SideShown(normal, triangle[k], i, q)
    {
      var t := triangle[k];
      var faceId := t.constrainedSide[i];
      ghost var before := faces.State();
      GrownSame(before);
      if faceId > 0 {
        var second, first := normal[t.normal[Following(i)]], normal[t.normal[i]];
        var n := [second.root, first.root, second.tip, first.tip];
        AddSide(n, faceId);
        forall q ensures SideFaces(n, q) == SideShown(normal, t, i, q) {
          ConstrainedStep(normal, t, i, n, q);
        }
      } else {
        forall q ensures SideShown(normal, t, i, q) == 0 {
        }
      }
      NewFacesStep(faces0, before, faces.State(), AllRoots(normal), AllTips(normal), triangle, k, i);
    }

    /** One tetrahedron of a prism, unless its normal is terminated. */
    method AddPart(n: seq<int>, part: Part) returns (negVolume: bool)
      requires ValidTables() && |n| == 6 && InRange(n, grid.nodes.maxnode)
      requires |part.tet| == 4 && part.corner < 3 && forall i :: 0 <= i < 4 ==> part.tet[i] < 6
      modifies cells`inLayer, grid.cells, grid.cells.adj
      ensures ValidTables()
      ensures negVolume <==>
        n[part.corner] != n[part.corner + 3] && VOLUME_LIMIT > GridVolume(grid.nodes.xyz, Pick(n, part.tet))
      ensures Grown(old(cells.State()), cells.State())
      ensures forall q :: CellsShow(q) == old(CellsShow(q)) + PartChi(n, part, q)
    {
      negVolume := false;
      GrownSame(cells.State());
      if n[part.corner] != n[part.corner + 3] {
        ghost var before := cells.State();
        var newCell;
        negVolume, newCell := AddTet(Pick(n, part.tet));
        GrownByOne(before, before, cells.State(), newCell, Pick(n, part.tet), NO_FACES);
      }
    }

    /** The tetrahedra of one prism, smallest root first. */
    method AddPrism(n: seq<int>) returns (negVolume: bool)
      requires ValidTables() && |n| == 6 && InRange(n, grid.nodes.maxnode)
      modifies cells`inLayer, grid.cells, grid.cells.adj
      ensures ValidTables()
      ensures negVolume <==> PrismRefused(grid.nodes.xyz, n)
      ensures Grown(old(cells.State()), cells.State())
      ensures forall q :: CellsShow(q) == old(CellsShow(q)) + MadeChi(n, q)
    {
      ghost var parts := PrismParts(n[2] < n[1]);
      var first, second, third;
      if n[2] < n[1] {
        first, second, third := AddParts(n, Part([0, 4, 5, 3], 0), Part([2, 0, 4, 5], 2), Part([2, 0, 1, 4], 1));
      } else {
        first, second, third := AddParts(n, Part([0, 4, 5, 3], 0), Part([0, 1, 5, 4], 1), Part([2, 0, 1, 5], 2));
      }
      negVolume := first || second || third;
    }

    method AddParts(n: seq<int>, a: Part, b: Part, c: Part) returns (first: bool, second: bool, third: bool)
      requires ValidTables() && |n| == 6 && InRange(n, grid.nodes.maxnode)
      requires |a.tet| == 4 && a.corner < 3 && forall i :: 0 <= i < 4 ==> a.tet[i] < 6
      requires |b.tet| == 4 && b.corner < 3 && forall i :: 0 <= i < 4 ==> b.tet[i] < 6
      requires |c.tet| == 4 && c.corner < 3 && forall i :: 0 <= i < 4 ==> c.tet[i] < 6
      modifies cells`inLayer, grid.cells, grid.cells.adj
      ensures ValidTables()
      ensures first == Refused(grid.nodes.xyz, n, a) && second == Refused(grid.nodes.xyz, n, b)
      ensures third == Refused(grid.nodes.xyz, n, c)
      ensures Grown(old(cells.State()), cells.State())
      ensures forall q :: CellsShow(q) == old(CellsShow(q)) + PartChi(n, a, q) + PartChi(n, b, q) + PartChi(n, c, q)
    {
      ghost var cells0 := cells.State();
      first := AddPart(n, a);
      ghost var cells1 := cells.State();
      label B:
      second := AddPart(n, b);
      ghost var cells2 := cells.State();
      label C:
      third := AddPart(n, c);
      GrownTwice(cells0, cells1, cells2);
      GrownTwice(cells0, cells2, cells.State());
      forall q ensures CellsShow(q) == old(CellsShow(q)) + PartChi(n, a, q) + PartChi(n, b, q) + PartChi(n, c, q) {
        ShownStep(CellsShow(q), old@C(CellsShow(q)), PartChi(n, c, q));
        ShownStep(old@C(CellsShow(q)), old@B(CellsShow(q)), PartChi(n, b, q));
        ShownStep(old@B(CellsShow(q)), old(CellsShow(q)), PartChi(n, a, q));
      }
    }

    /** The part of layerAdvance for one front triangle. */
    method AddTriangle(k: nat, ghost lists: Lists, ghost cells0: Items<seq<int>>, ghost faces0: Items<FaceTag>)
      returns (negVolume: bool)
      requires ValidTables() && k < |triangle| && Describes(lists, normal, triangle, grid.nodes.xyz)
      requires DistinctRoots(normal) && Placed() && Grown(cells0, cells.State()) && FacesSince(faces0, k, 0)
      modifies cells`inLayer, grid.cells, grid.cells.adj, faces`inLayer, grid.faces, grid.faces.adj
      ensures ValidTables() && Grown(cells0, cells.State()) && FacesSince(faces0, k + 1, 0)
      ensures negVolume == lists.refused[k]
      ensures forall q :: CellsShow(q) == old(CellsShow(q)) + lists.made(q)[k]
      ensures forall q :: FacesShow(q) == old(FacesShow(q)) + lists.constrained(q)[k]
    {
      var t := triangle[k];
      assert TriangleOk(t, |normal|);
      ghost var before := cells.State();
      AddSides(k, faces0);
      var normals := SortTriangle(t);
      negVolume := AddPrism(Roots(normal, normals) + Tips(normal, normals));
      GrownTwice(cells0, before, cells.State());
      RefusedAt(lists, normal, triangle, grid.nodes.xyz, k);
      forall q
        ensures lists.made(q)[k] == MadeOf(normal, t, q) && lists.constrained(q)[k] == ConstrainedOf(normal, t, 3, q)
      {
        ListsAt(lists, normal, triangle, grid.nodes.xyz, k, q);
      }
    }

    /** The rotation that brings the smallest root to the front. */
    method SortTriangle(t: Triangle) returns (normals: seq<int>)
      requires TriangleOk(t, |normal|)
      ensures normals == SortedNormals(normal, t)
    {
      var nodes := Roots(normal, t.normal);
      normals := t.normal;
      if nodes[1] < nodes[0] && nodes[1] < nodes[2] {
        nodes := [nodes[1], nodes[2], nodes[0]];
        normals := [normals[1], normals[2], normals[0]];
      }
      if nodes[2] < nodes[0] && nodes[2] < nodes[1] {
        nodes := [nodes[2], nodes[0], nodes[1]];
        normals := [normals[2], normals[0], normals[1]];
      }
    }

    /** All front triangles. */
    method AddTriangles(ghost lists: Lists) returns (negVolume: bool)
      requires ValidTables() && Describes(lists, normal, triangle, grid.nodes.xyz) && DistinctRoots(normal) && Placed()
      modifies cells`inLayer, grid.cells, grid.cells.adj, faces`inLayer, grid.faces, grid.faces.adj
      ensures ValidTables() && Grown(old(cells.State()), cells.State())
      ensures FacesSince(old(faces.State()), |triangle|, 0)
      ensures negVolume <==> true in lists.refused
      ensures forall q :: CellsShow(q) == old(CellsShow(q)) + Sum(lists.made(q))
      ensures forall q :: FacesShow(q) == old(FacesShow(q)) + Sum(lists.constrained(q))
    {
      negVolume := false;
      ghost var before := State();
      GrownSame(before.cells);
      NoNewFaces(before.faces, AllRoots(normal), AllTips(normal), triangle);
      for k := 0 to |triangle|
        invariant ValidTables() && Grown(before.cells, cells.State()) && FacesSince(before.faces, k, 0)
        invariant ShownSince(before, State(), lists, k) && (negVolume <==> RefusedUpto(lists, k))
      {
        var neg := AddNext(k, lists, before);
        negVolume := negVolume || neg;
      }
      AllShown(before, State(), lists, |triangle|);
    }

    /** One more of them. */
    method AddNext(k: nat, ghost lists: Lists, ghost before: Tables) returns (negVolume: bool)
      requires ValidTables() && k < |triangle| && Describes(lists, normal, triangle, grid.nodes.xyz)
      requires DistinctRoots(normal) && Placed()
      requires Grown(before.cells, cells.State()) && FacesSince(before.faces, k, 0)
      requires ShownSince(before, State(), lists, k)
      modifies cells`inLayer, grid.cells, grid.cells.adj, faces`inLayer, grid.faces, grid.faces.adj
      ensures ValidTables() && Grown(before.cells, cells.State()) && FacesSince(before.faces, k + 1, 0)
      ensures ShownSince(before, State(), lists, k + 1)
      ensures RefusedUpto(lists, k + 1) <==> RefusedUpto(lists, k) || negVolume
    {
      ghost var between := State();
      negVolume := AddTriangle(k, lists, before.cells, before.faces);
      ShownNext(before, between, State(), lists, |triangle|, k);
    }

    /** A node for a tip; the adjacencies grow with the node table. */
    method NewNode(p: Point) returns (tip: int)
      requires ValidTables() && p.x != DBL_MAX
      modifies grid.nodes, grid.cells.adj, grid.faces.adj, grid.edges.adj
      ensures ValidTables() && NodesKept(old(grid.nodes.xyz), grid.nodes.xyz)
      ensures !IsValid(old(grid.nodes.xyz), tip) && IsValid(grid.nodes.xyz, tip) && grid.nodes.xyz[tip] == p
      ensures forall m :: IsValid(grid.nodes.xyz, m) && m != tip ==> IsValid(old(grid.nodes.xyz), m)
    {
      assert OpenTables(0);
      tip := grid.AddNode(p.x, p.y, p.z);
      assert Point(p.x, p.y, p.z) == p;
    }

    /** gridSetNodeXYZ */
    method PlaceNode(node: int, p: Point)
      requires ValidTables() && IsValid(grid.nodes.xyz, node) && p.x != DBL_MAX
      modifies grid.nodes`xyz
      ensures ValidTables() && grid.nodes.xyz == old(grid.nodes.xyz)[node := p]
    {
      assert OpenTables(0);
      grid.PlaceNode(node, p);
    }

    /** gridRemoveNode, for a node that no table names. */
    method FreeNode(node: int)
      requires ValidTables() && IsValid(grid.nodes.xyz, node)
      modifies grid.nodes
      ensures ValidTables() && !IsValid(grid.nodes.xyz, node) && |grid.nodes.xyz| == |old(grid.nodes.xyz)|
      ensures forall m :: 0 <= m < |grid.nodes.xyz| && m != node ==> grid.nodes.xyz[m] == old(grid.nodes.xyz)[m]
    {
      assert OpenTables(0);
      grid.RemoveNode(node);
    }

    /** The cells outside the layer around a root are moved up to its tip. */
    method ReconnectCells(root: int, tip: int)
      requires ValidTables() && InRange([root, tip], grid.nodes.maxnode)
      modifies grid.cells, grid.cells.adj
      ensures ValidTables()
      ensures Rewired(old(cells.State()), cells.State(), root, tip, AnyCell())
      ensures forall q :: CellsShow(q) == old(CellsShow(q))
    {
      assert OpenTables(0) && [root, tip][0] == root && [root, tip][1] == tip;
      ghost var before := cells.State();
      var _ := cells.ReconnectUnlessInLayer(root, tip, AnyCell());
      RewiredBy(before, cells.State(), root, tip, AnyCell());
      ShownSame(before.rows, cells.inLayer, cells.items.rows);
    }

    /** The edges of one curve outside the layer likewise. */
    method ReconnectEdges(edgeId: int, root: int, tip: int)
      requires ValidTables() && InRange([root, tip], grid.nodes.maxnode)
      modifies grid.edges, grid.edges.adj
      ensures ValidTables()
      ensures Rewired(old(edges.State()), edges.State(), root, tip, WithId(edgeId))
    {
      assert OpenTables(0) && [root, tip][0] == root && [root, tip][1] == tip;
      ghost var before := edges.State();
      var _ := edges.ReconnectUnlessInLayer(root, tip, WithId(edgeId));
      RewiredBy(before, edges.State(), root, tip, WithId(edgeId));
    }

    /** The faces of one surface outside the layer likewise. */
    method ReconnectFaces(faceId: int, root: int, tip: int)
      requires ValidTables() && InRange([root, tip], grid.nodes.maxnode)
      modifies grid.faces, grid.faces.adj
      ensures ValidTables()
      ensures Rewired(old(faces.State()), faces.State(), root, tip, WithId(faceId))
      ensures forall q :: FacesShow(q) == old(FacesShow(q))
    {
      assert OpenTables(0) && [root, tip][0] == root && [root, tip][1] == tip;
      ghost var before := faces.State();
      var _ := faces.ReconnectUnlessInLayer(root, tip, WithId(faceId));
      RewiredBy(before, faces.State(), root, tip, WithId(faceId));
      ShownSame(before.rows, faces.inLayer, faces.items.rows);
    }

    /** An edge along the layer, from the root to the tip of a normal on a curve. */
    method AddEdge(root: int, tip: int, edgeId: int) returns (newEdge: nat)
      requires ValidTables() && InRange([root, tip], grid.nodes.maxnode)
      modifies edges`inLayer, grid.edges, grid.edges.adj
      ensures ValidTables()
      ensures Gains(old(edges.State()), edges.State(), newEdge, [root, tip], Tag(edgeId, [DBL_MAX, DBL_MAX]))
    {
      assert OpenTables(0);
      newEdge := edges.AddToLayer([root, tip], Tag(edgeId, [DBL_MAX, DBL_MAX]));
    }

    /** Cells outside the layer, and edges of the curve a root is constrained to, move up to the tip. */
    method MoveUp(root: int, tip: int, edgeId: int)
      requires ValidTables() && InRange([root, tip], grid.nodes.maxnode)
      modifies grid.cells, grid.cells.adj, grid.edges, grid.edges.adj
      ensures ValidTables()
      ensures Rewired(old(cells.State()), cells.State(), root, tip, AnyCell())
      ensures edgeId > 0 ==> Rewired(old(edges.State()), edges.State(), root, tip, WithId(edgeId))
      ensures edgeId <= 0 ==> edges.State() == old(edges.State())
      ensures forall q :: CellsShow(q) == old(CellsShow(q))
    {
      ReconnectCells(root, tip);
      if edgeId > 0 {
        ReconnectEdges(edgeId, root, tip);
      }
    }

    /** The tip of an active normal, and the items outside the layer moved up to it. */
    method AddTip(i: nat, reconnect: bool)
      requires ValidTables() && i < |normal| && IsValid(grid.nodes.xyz, normal[i].root)
      requires Ahead(grid.nodes.xyz[normal[i].root], normal[i]).x != DBL_MAX
      modifies this`normal, grid.Parts
      ensures ValidTables() && |normal| == |old(normal)| && NodesKept(old(grid.nodes.xyz), grid.nodes.xyz)
      ensures normal == old(normal)[i := WithTip(old(normal)[i], normal[i].tip)]
      ensures !IsValid(old(grid.nodes.xyz), normal[i].tip) && IsValid(grid.nodes.xyz, normal[i].tip)
      ensures grid.nodes.xyz[normal[i].tip] == Ahead(old(grid.nodes.xyz)[old(normal)[i].root], old(normal)[i])
      ensures UpToTip(old(State()), State(), normal[i], reconnect)
      ensures forall q :: CellsShow(q) == old(CellsShow(q))
    {
      var root, edgeId := normal[i].root, -normal[i].constrained;
      var tip := NewNode(Ahead(grid.nodes.xyz[root], normal[i]));
      normal := normal[i := WithTip(normal[i], tip)];
      if reconnect {
        NodesFill();
        MoveUp(root, tip, edgeId);
      }
    }

    /** The tip of normal i. */
    method SetTip(i: nat, reconnect: bool, ghost normals0: seq<Normal>, ghost xyz0: seq<Point>, ghost before: Tables)
      requires ValidTables() && i < |normal| && TipsPlaceable(normals0, xyz0) && RootsValid(normals0, xyz0)
      requires TipsOk(normals0, xyz0, normal, grid.nodes.xyz, i) && DistinctRoots(normals0)
      requires UpWithTips(before, State(), normals0, normal, reconnect, i)
      modifies this`normal, grid.Parts
      ensures ValidTables() && TipsOk(normals0, xyz0, normal, grid.nodes.xyz, i + 1) && |normal| == |old(normal)|
      ensures UpWithTips(before, State(), normals0, normal, reconnect, i + 1)
      ensures forall q :: CellsShow(q) == old(CellsShow(q))
    {
      NextNormal(normals0, xyz0, normal, grid.nodes.xyz, i);
      ghost var normals, xyz, between := normal, grid.nodes.xyz, State();
      if normal[i].terminated {
        TipsStay(normals0, xyz0, normal, grid.nodes.xyz, i);
        normal := normal[i := normal[i].(tip := normal[i].root)];
      } else {
        AddTip(i, reconnect);
        TipsGrow(normals0, xyz0, normals, xyz, i, grid.nodes.xyz, normal[i].tip);
      }
      UpStep(before, between, State(), normals0, xyz0, normals, normal, grid.nodes.xyz, reconnect, i);
    }

    /**
     The first loop of layerAdvance: tips are set, and with reconnect the cells outside the layer move up with all
     normals, and the edges of each curve with the normals on it.
     */
    method SetTips(reconnect: bool)
      requires Valid() && TipsPlaceable(normal, grid.nodes.xyz)
      modifies this`normal, grid.Parts
      ensures ValidTables() && TipsOk(old(normal), old(grid.nodes.xyz), normal, grid.nodes.xyz, |normal|)
      ensures UpWithTips(old(State()), State(), old(normal), normal, reconnect, |normal|)
      ensures forall q :: Balance(q) == old(Balance(q))
    {
      ghost var normals0, xyz0, before := normal, grid.nodes.xyz, State();
      TipsStart(normal, xyz0);
      NothingUp(before, normal, reconnect);
      for i := 0 to |normal|
        invariant ValidTables() && TipsOk(normals0, xyz0, normal, grid.nodes.xyz, i)
        invariant UpWithTips(before, State(), normals0, normal, reconnect, i)
        invariant forall q :: CellsShow(q) == old(CellsShow(q))
      {
        SetTip(i, reconnect, normals0, xyz0, before);
      }
      RootsStay(normals0, xyz0, normal, grid.nodes.xyz);
      forall q ensures FrontList(normal, triangle, q) == FrontList(normals0, triangle, q) {
        SameFront(normals0, normal, triangle, q);
      }
    }

    lemma NodesFill()
      requires ValidTables()
      ensures |grid.nodes.xyz| == grid.nodes.maxnode
    {
      assert OpenTables(0);
    }

    /** The reconnection of faces on constrained sides. */
    method ReconnectSides()
      requires ValidTables() && AllOk(triangle, |normal|) && Placed()
      requires Apart(AllRoots(normal), AllTips(normal), |normal|)
      modifies grid.faces, grid.faces.adj
      ensures ValidTables()
      ensures Followed(old(faces.State()), faces.State(), AllRoots(normal), AllTips(normal),
                       FacesUp(true, triangle, |normal|, |triangle|, 0))
      ensures forall q :: FacesShow(q) == old(FacesShow(q))
    {
      ghost var faces0, from, to := faces.State(), AllRoots(normal), AllTips(normal);
      FollowedByNone(faces0, from, to, FacesUp(true, triangle, |normal|, 0, 0));
      for k := 0 to |triangle|
        invariant ValidTables()
        invariant Followed(faces0, faces.State(), from, to, FacesUp(true, triangle, |normal|, k, 0))
        invariant forall q :: FacesShow(q) == old(FacesShow(q))
      {
        ReconnectTriangle(k, faces0);
      }
    }

    /** The sides of one triangle. */
    method ReconnectTriangle(k: nat, ghost faces0: Items<FaceTag>)
      requires ValidTables() && AllOk(triangle, |normal|) && Placed() && k < |triangle|
      requires Apart(AllRoots(normal), AllTips(normal), |normal|)
      requires Followed(faces0, faces.State(), AllRoots(normal), AllTips(normal),
                        FacesUp(true, triangle, |normal|, k, 0))
      modifies grid.faces, grid.faces.adj
      ensures ValidTables()
      ensures Followed(faces0, faces.State(), AllRoots(normal), AllTips(normal),
                       FacesUp(true, triangle, |normal|, k + 1, 0))
      ensures forall q :: FacesShow(q) == old(FacesShow(q))
    {
      ghost var from, to := AllRoots(normal), AllTips(normal);
      assert TriangleOk(triangle[k], |normal|);
      for i := 0 to 3
        invariant ValidTables()
        invariant Followed(faces0, faces.State(), from, to, FacesUp(true, triangle, |normal|, k, i))
        invariant forall q :: FacesShow(q) == old(FacesShow(q))
      {
        ReconnectSide(k, i, faces0);
      }
      FacesNext(faces0, faces.State(), from, to, triangle, k);
    }

    /** One side, if it is constrained. */
    method ReconnectSide(k: nat, i: nat, ghost faces0: Items<FaceTag>)
      requires ValidTables() && AllOk(triangle, |normal|) && Placed() && k < |triangle| && i < 3
      requires Apart(AllRoots(normal), AllTips(normal), |normal|) && TriangleOk(triangle[k], |normal|)
      requires Followed(faces0, faces.State(), AllRoots(normal), AllTips(normal),
                        FacesUp(true, triangle, |normal|, k, i))
      modifies grid.faces, grid.faces.adj
      ensures ValidTables()
      ensures Followed(faces0, faces.State(), AllRoots(normal), AllTips(normal),
                       FacesUp(true, triangle, |normal|, k, i + 1))
      ensures forall q :: FacesShow(q) == old(FacesShow(q))
    {
      ghost var before, between := faces.State(), faces.State();
      var faceId := triangle[k].constrainedSide[i];
      if faceId > 0 {
        var normal0, normal1 := normal[triangle[k].normal[i]], normal[triangle[k].normal[Following(i)]];
        ReconnectFaces(faceId, normal0.root, normal0.tip);
        between := faces.State();
        ReconnectFaces(faceId, normal1.root, normal1.tip);
      }
      FacesStep(faces0, before, between, faces.State(), AllRoots(normal), AllTips(normal), triangle, k, i);
    }

    /** The edges along the layer, one for each active normal on a curve. */
    method AddEdges()
      requires ValidTables() && Placed()
      modifies edges`inLayer, grid.edges, grid.edges.adj
      ensures ValidTables() && Grown(old(edges.State()), edges.State())
      ensures NewEdges(old(edges.State()), edges.State(), AllRoots(normal), AllTips(normal), AllConstrained(normal),
                       |normal|)
    {
      ghost var edges0 := edges.State();
      ghost var from, to, constrained := AllRoots(normal), AllTips(normal), AllConstrained(normal);
      GrownSame(edges0);
      NoNewEdges(edges0, from, to, constrained);
      for i := 0 to |normal|
        invariant ValidTables() && Grown(edges0, edges.State())
        invariant NewEdges(edges0, edges.State(), from, to, constrained, i)
      {
        ghost var before := edges.State();
        var edgeId, root, tip := -normal[i].constrained, normal[i].root, normal[i].tip;
        var newEdge := 0;
        if edgeId > 0 && root != tip {
          newEdge := AddEdge(root, tip, edgeId);
        }
        NewEdgesStep(edges0, before, edges.State(), from, to, constrained, i, newEdge,
                     Tag(edgeId, [DBL_MAX, DBL_MAX]));
      }
    }

    /** The last loop of layerAdvance. */
    method MoveOn()
      modifies this`normal
      ensures IsMovedOn(old(normal), normal, |normal|)
    {
      for i := 0 to |normal|
        invariant |normal| == |old(normal)| && IsMovedOn(old(normal), normal, i)
      {
        normal := normal[i := normal[i].(root := normal[i].tip, tip := EMPTY)];
      }
    }

    /** layerAdvance once the tips are there, up to the move of the front. */
    method Fill(reconnect: bool, ghost lists: Lists) returns (negVolume: bool)
      requires ValidTables() && Describes(lists, normal, triangle, grid.nodes.xyz) && DistinctRoots(normal) && Placed()
      requires Apart(AllRoots(normal), AllTips(normal), |normal|)
      modifies cells`inLayer, grid.cells, grid.cells.adj, faces`inLayer, grid.faces, grid.faces.adj,
        edges`inLayer, grid.edges, grid.edges.adj
      ensures ValidTables()
      ensures negVolume <==> true in lists.refused
      ensures Filled(old(State()), State(), normal, triangle, reconnect)
      ensures forall q :: CellsShow(q) == old(CellsShow(q)) + Sum(lists.made(q))
      ensures forall q :: FacesShow(q) == old(FacesShow(q)) + Sum(lists.constrained(q))
    {
      ghost var before := State();
      if reconnect {
        ReconnectSides();
      } else {
        FollowedByNone(before.faces, AllRoots(normal), AllTips(normal),
                       FacesUp(false, triangle, |normal|, |triangle|, 0));
      }
      ghost var faces1 := faces.State();
      AddEdges();
      negVolume := AddTriangles(lists);
      IsFilled(before, faces1, State(), normal, triangle, reconnect);
    }

    /** layerAdvance once the tips are there. */
    method FillAndMoveOn(reconnect: bool, ghost normals0: seq<Normal>, ghost xyz0: seq<Point>, ghost before: Tables)
      returns (ok: bool)
      requires ValidTables() && TipsOk(normals0, xyz0, normal, grid.nodes.xyz, |normal|)
      requires RootsValid(normals0, xyz0) && DistinctRoots(normals0) && Closed(triangle, |normal|)
      requires UpWithTips(before, State(), normals0, normal, reconnect, |normal|)
      modifies this`normal, cells`inLayer, grid.cells, grid.cells.adj, faces`inLayer, grid.faces, grid.faces.adj,
        edges`inLayer, grid.edges, grid.edges.adj
      ensures Valid() && |normal| == |old(normal)| && IsAdvanced(normals0, xyz0, normal, grid.nodes.xyz)
      ensures ok <==> AllReady(normals0, triangle, xyz0)
      ensures UpWithFront(before, State(), normals0, normal, triangle, reconnect)
      ensures forall q :: Balance(q) == old(Balance(q))
    {
      ghost var normals, xyz, between := normal, grid.nodes.xyz, State();
      RootsStay(normals0, xyz0, normals, xyz);
      AllInGrid(normals, xyz);
      NodesFill();
      TipsAreApart(normals0, xyz0, normals, xyz);
      ghost var lists := TheLists(normals, triangle, xyz);
      var negVolume := Fill(reconnect, lists);
      MoveOn();
      FrontHasMoved(before, between, State(), normals0, xyz0, normals, xyz, normal, triangle, reconnect);
      RefusedIsNotReady(normals0, xyz0, normals, xyz, triangle, lists);
      BalanceKept(normals, normals, normal, triangle, lists, xyz);
      forall q ensures Balance(q) == old(Balance(q)) {
        assert MadeUp(normals, normal, triangle, lists, q);
      }
      ok := !negVolume;
    }

    /**
     layerAdvance. It fails exactly when there are no normals or some tetrahedron is too small. In any
     case the faces of the layer's cells cancel but for the layer's boundary faces and the front. With reconnect,
     what is outside the layer has moved up from the old roots to the new ones: all cells, the edges of each curve
     with the normals on it, and the faces of each surface with the ends of the sides constrained to it.
     */
    method Advance(reconnect: bool) returns (ok: bool)
      requires Valid() && TipsPlaceable(normal, grid.nodes.xyz)
      modifies this`normal, Parts
      ensures Valid() && triangle == old(triangle) && |normal| == |old(normal)|
      ensures ok <==> |normal| > 0 && AllReady(old(normal), triangle, old(grid.nodes.xyz))
      ensures forall q :: Balance(q) == old(Balance(q))
      ensures IsAdvanced(old(normal), old(grid.nodes.xyz), normal, grid.nodes.xyz)
      ensures UpWithFront(old(State()), State(), old(normal), normal, triangle, reconnect)
    {
      if |normal| == 0 {
        NothingMoves(State(), triangle, reconnect);
        return false;
      }
      ghost var normals0, xyz0, before := normal, grid.nodes.xyz, State();
      SetTips(reconnect);
      ok := FillAndMoveOn(reconnect, normals0, xyz0, before);
    }
  }

  /** The cells outside the layer no longer name the old root of an active normal. */
  ghost predicate RootsLeft(a: Items<seq<int>>, b: Items<seq<int>>, normals: seq<Normal>) {
    forall c, i :: IsItem(a, c) && !a.flags[c] && 0 <= i < |normals| && !normals[i].terminated ==>
      IsItem(b, c) && normals[i].root !in b.rows[c]
  }

  lemma TipsAreApart(normals0: seq<Normal>, xyz0: seq<Point>, normals: seq<Normal>, xyz: seq<Point>)
    requires TipsOk(normals0, xyz0, normals, xyz, |normals|) && RootsValid(normals0, xyz0) && DistinctRoots(normals0)
    ensures |normals| == |normals0| && Apart(AllRoots(normals), AllTips(normals), |normals|)
    ensures AllRoots(normals) == AllRoots(normals0) && AllConstrained(normals) == AllConstrained(normals0)
    ensures forall i :: 0 <= i < |normals| ==> (normals[i].tip == normals0[i].root <==> normals0[i].terminated)
  {
    TipsApart(normals0, xyz0, normals, xyz, |normals|);
    RootsStay(normals0, xyz0, normals, xyz);
    assert Unfold(0);
    forall i | 0 <= i < |normals| ensures normals[i].constrained == normals0[i].constrained {
      assert TipOk(xyz0, xyz, normals0[i], normals[i]);
    }
  }

  /** The three tables of the grid with the flags of the layer. */
  datatype Tables = Tables(cells: Items<seq<int>>, faces: Items<FaceTag>, edges: Items<EdgeTag>)

  /** The tables after the tip of one active normal was set. */
  ghost predicate UpToTip(a: Tables, b: Tables, n: Normal, reconnect: bool) {
    && b.faces == a.faces
    && (if reconnect then Rewired(a.cells, b.cells, n.root, n.tip, AnyCell()) else b.cells == a.cells)
    && if reconnect && n.constrained < 0 then Rewired(a.edges, b.edges, n.root, n.tip, WithId(-n.constrained))
       else b.edges == a.edges
  }

  /** The tables after the tips of the first n normals were set. */
  ghost predicate UpWithTips(a: Tables, b: Tables, normals0: seq<Normal>, normals: seq<Normal>, reconnect: bool,
                             n: nat) {
    && b.faces == a.faces
    && Followed(a.cells, b.cells, AllRoots(normals0), AllTips(normals), CellsUp(reconnect, n))
    && Followed(a.edges, b.edges, AllRoots(normals0), AllTips(normals),
                EdgesUp(reconnect, AllConstrained(normals0), n))
  }

  lemma NothingUp(a: Tables, normals: seq<Normal>, reconnect: bool)
    ensures UpWithTips(a, a, normals, normals, reconnect, 0)
  {
    FollowedByNone(a.cells, AllRoots(normals), AllTips(normals), CellsUp(reconnect, 0));
    FollowedByNone(a.edges, AllRoots(normals), AllTips(normals), EdgesUp(reconnect, AllConstrained(normals), 0));
  }

  lemma UpStep(a: Tables, b: Tables, d: Tables, normals0: seq<Normal>, xyz0: seq<Point>, normals: seq<Normal>,
               normals': seq<Normal>, xyz': seq<Point>, reconnect: bool, n: nat)
    requires UpWithTips(a, b, normals0, normals, reconnect, n) && n < |normals0|
    requires TipsOk(normals0, xyz0, normals', xyz', n + 1) && DistinctRoots(normals0) && OneTipSet(normals, normals', n)
    requires if normals'[n].terminated then d == b else UpToTip(b, d, normals'[n], reconnect)
    ensures UpWithTips(a, d, normals0, normals', reconnect, n + 1)
  {
    assert Unfold(0) && TipOk(xyz0, xyz', normals0[n], normals'[n]);
    CellsStep(a.cells, b.cells, d.cells, normals0, xyz0, normals, normals', xyz', n, reconnect);
    EdgesStep(a.edges, b.edges, d.edges, normals0, xyz0, normals, normals', xyz', n, reconnect);
  }

  /** The tables after the rest of the advance but for the move of the front. */
  ghost predicate Filled(a: Tables, b: Tables, normals: seq<Normal>, triangles: seq<Triangle>, reconnect: bool) {
    var from, to := AllRoots(normals), AllTips(normals);
    && Grown(a.cells, b.cells) && Grown(a.edges, b.edges)
    && NewEdges(a.edges, b.edges, from, to, AllConstrained(normals), |normals|)
    && MovedUp(a.faces, b.faces, from, to, FacesUp(reconnect, triangles, |normals|, |triangles|, 0))
    && NewFaces(a.faces, b.faces, from, to, triangles, |triangles|, 0)
  }

  lemma IsFilled(a: Tables, faces: Items<FaceTag>, b: Tables, normals: seq<Normal>, triangles: seq<Triangle>,
                 reconnect: bool)
    requires Grown(a.cells, b.cells) && Grown(a.edges, b.edges) && Grown(faces, b.faces)
    requires NewEdges(a.edges, b.edges, AllRoots(normals), AllTips(normals), AllConstrained(normals), |normals|)
    requires Followed(a.faces, faces, AllRoots(normals), AllTips(normals),
                      FacesUp(reconnect, triangles, |normals|, |triangles|, 0))
    requires NewFaces(faces, b.faces, AllRoots(normals), AllTips(normals), triangles, |triangles|, 0)
    ensures Filled(a, b, normals, triangles, reconnect)
  {
    var from, to := AllRoots(normals), AllTips(normals);
    FollowedThenGrown(a.faces, faces, b.faces, from, to, FacesUp(reconnect, triangles, |normals|, |triangles|, 0));
    NewFacesSince(a.faces, faces, b.faces, from, to, triangles, |triangles|);
  }

  /**
   The tables after an advance: cells, edges and faces outside the layer have moved up from the old roots to the new,
   the cells there no longer name an old root that has moved, and whatever came in belongs to the layer, an edge
   for each active normal on a curve, and faces on constrained sides only, with the ids of their sides.
   */
  ghost predicate UpWithFront(a: Tables, b: Tables, normals0: seq<Normal>, normals: seq<Normal>,
                              triangles: seq<Triangle>, reconnect: bool) {
    var n, from, to, constrained := |normals0|, AllRoots(normals0), AllRoots(normals), AllConstrained(normals0);
    && MovedUp(a.cells, b.cells, from, to, CellsUp(reconnect, n))
    && MovedUp(a.edges, b.edges, from, to, EdgesUp(reconnect, constrained, n))
    && MovedUp(a.faces, b.faces, from, to, FacesUp(reconnect, triangles, n, |triangles|, 0))
    && NewEdges(a.edges, b.edges, from, to, constrained, n)
    && NewFaces(a.faces, b.faces, from, to, triangles, |triangles|, 0)
    && (reconnect ==> RootsLeft(a.cells, b.cells, normals0))
    && (!reconnect ==> Grown(a.cells, b.cells) && Grown(a.edges, b.edges) && Grown(a.faces, b.faces))
  }

  lemma CellsMovedUp(a: Items<seq<int>>, b: Items<seq<int>>, d: Items<seq<int>>, normals0: seq<Normal>,
                     normals: seq<Normal>, reconnect: bool)
    requires |normals| == |normals0|
    requires Followed(a, b, AllRoots(normals0), AllTips(normals), CellsUp(reconnect, |normals|)) && Grown(b, d)
    requires Apart(AllRoots(normals0), AllTips(normals), |normals|)
    requires forall i :: 0 <= i < |normals| ==> (normals[i].tip == normals0[i].root <==> normals0[i].terminated)
    ensures MovedUp(a, d, AllRoots(normals0), AllTips(normals), CellsUp(reconnect, |normals|))
    ensures reconnect ==> RootsLeft(a, d, normals0)
  {
    var from, to, which := AllRoots(normals0), AllTips(normals), CellsUp(reconnect, |normals|);
    FollowedThenGrown(a, b, d, from, to, which);
    assert OpenItems(0);
    if reconnect {
      forall c, i | IsItem(a, c) && !a.flags[c] && 0 <= i < |normals| && !normals0[i].terminated
        ensures IsItem(d, c) && normals0[i].root !in d.rows[c]
      {
        assert ItemFollows(a, d, from, to, which, c);
        RootLeft(a.rows[c], d.rows[c], from, to, which(a.data[c]), |normals|, i);
      }
    }
  }

  lemma EdgesMovedUp(a: Items<EdgeTag>, b: Items<EdgeTag>, d: Items<EdgeTag>, normals0: seq<Normal>,
                     normals: seq<Normal>, reconnect: bool)
    requires |normals| == |normals0| && Grown(b, d)
    requires Followed(a, b, AllRoots(normals0), AllTips(normals),
                      EdgesUp(reconnect, AllConstrained(normals0), |normals|))
    requires NewEdges(b, d, AllRoots(normals0), AllTips(normals), AllConstrained(normals0), |normals|)
    ensures MovedUp(a, d, AllRoots(normals0), AllTips(normals),
                    EdgesUp(reconnect, AllConstrained(normals0), |normals|))
    ensures NewEdges(a, d, AllRoots(normals0), AllTips(normals), AllConstrained(normals0), |normals|)
  {
    var from, to, constrained := AllRoots(normals0), AllTips(normals), AllConstrained(normals0);
    FollowedThenGrown(a, b, d, from, to, EdgesUp(reconnect, constrained, |normals|));
    NewEdgesSince(a, b, d, from, to, constrained, |normals|);
  }

  /** Without reconnect nothing outside the layer has changed. */
  lemma NothingOutside(a: Tables, b: Tables, normals0: seq<Normal>, normals: seq<Normal>, triangles: seq<Triangle>)
    requires |normals| == |normals0|
    requires var n, from, to := |normals0|, AllRoots(normals0), AllTips(normals);
      && MovedUp(a.cells, b.cells, from, to, CellsUp(false, n))
      && MovedUp(a.edges, b.edges, from, to, EdgesUp(false, AllConstrained(normals0), n))
      && MovedUp(a.faces, b.faces, from, to, FacesUp(false, triangles, n, |triangles|, 0))
    ensures Grown(a.cells, b.cells) && Grown(a.edges, b.edges) && Grown(a.faces, b.faces)
  {
    var n, from, to := |normals0|, AllRoots(normals0), AllTips(normals);
    MovedByNone(a.cells, b.cells, from, to, CellsUp(false, n));
    MovedByNone(a.edges, b.edges, from, to, EdgesUp(false, AllConstrained(normals0), n));
    MovedByNone(a.faces, b.faces, from, to, FacesUp(false, triangles, n, |triangles|, 0));
  }

  lemma FrontHasMoved(a: Tables, b: Tables, d: Tables, normals0: seq<Normal>, xyz0: seq<Point>, normals: seq<Normal>,
                      xyz: seq<Point>, normals': seq<Normal>, triangles: seq<Triangle>, reconnect: bool)
    requires TipsOk(normals0, xyz0, normals, xyz, |normals|) && RootsValid(normals0, xyz0) && DistinctRoots(normals0)
    requires UpWithTips(a, b, normals0, normals, reconnect, |normals|) && Filled(b, d, normals, triangles, reconnect)
    requires IsMovedOn(normals, normals', |normals|)
    ensures RootsValid(normals', xyz) && DistinctRoots(normals') && IsAdvanced(normals0, xyz0, normals', xyz)
    ensures UpWithFront(a, d, normals0, normals', triangles, reconnect)
  {
    NextFrontOk(normals0, xyz0, normals, xyz, normals');
    AdvancedIs(normals0, xyz0, normals, xyz, normals');
    TipsAreApart(normals0, xyz0, normals, xyz);
    assert AllRoots(normals') == AllTips(normals);
    CellsMovedUp(a.cells, b.cells, d.cells, normals0, normals, reconnect);
    EdgesMovedUp(a.edges, b.edges, d.edges, normals0, normals, reconnect);
    if !reconnect {
      NothingOutside(a, d, normals0, normals, triangles);
    }
  }

  lemma NothingMoves(a: Tables, triangles: seq<Triangle>, reconnect: bool)
    ensures UpWithFront(a, a, [], [], triangles, reconnect)
  {
    GrownSame(a.cells);
    GrownSame(a.edges);
    GrownSame(a.faces);
    FollowedByNone(a.cells, [], [], CellsUp(reconnect, 0));
    FollowedByNone(a.edges, [], [], EdgesUp(reconnect, [], 0));
    FollowedByNone(a.faces, [], [], FacesUp(reconnect, triangles, 0, |triangles|, 0));
    FollowedThenGrown(a.cells, a.cells, a.cells, [], [], CellsUp(reconnect, 0));
    FollowedThenGrown(a.edges, a.edges, a.edges, [], [], EdgesUp(reconnect, [], 0));
    FollowedThenGrown(a.faces, a.faces, a.faces, [], [], FacesUp(reconnect, triangles, 0, |triangles|, 0));
  }

  /** No tetrahedron of the next advance will be too small. */
  ghost predicate AllReady(normals: seq<Normal>, triangles: seq<Triangle>, xyz: seq<Point>)
    requires RootsValid(normals, xyz) && AllOk(triangles, |normals|)
  {
    forall k :: 0 <= k < |triangles| ==> Ready(normals, xyz, triangles[k])
  }

  /** The front after an advance: terminated normals stay, active ones are on a fresh node ahead. */
  ghost predicate IsAdvanced(normals0: seq<Normal>, xyz0: seq<Point>, normals: seq<Normal>, xyz: seq<Point>) {
    && |normals| == |normals0|
    && NodesKept(xyz0, xyz)
    && forall i :: 0 <= i < |normals| ==>
         && IsValid(xyz0, normals0[i].root) && IsValid(xyz, normals[i].root)
         && HasAdvanced(normals0[i], xyz0[normals0[i].root], normals[i], xyz[normals[i].root])
  }

  /** From a node at p a normal goes to another node at root + height * direction, or it stays where it is. */
  ghost predicate HasAdvanced(n0: Normal, p0: Point, n: Normal, p: Point) {
    if n0.terminated then n == n0.(tip := EMPTY) && p == p0
    else
      && n == n0.(root := n.root, tip := EMPTY, length := n0.length + n0.height) && n.root != n0.root
      && p.x == p0.x + n0.height * n0.direction.x && p.y == p0.y + n0.height * n0.direction.y
      && p.z == p0.z + n0.height * n0.direction.z
  }

  lemma AdvancedIs(normals0: seq<Normal>, xyz0: seq<Point>, normals: seq<Normal>, xyz: seq<Point>,
                   normals': seq<Normal>)
    requires TipsOk(normals0, xyz0, normals, xyz, |normals|) && IsMovedOn(normals, normals', |normals|)
    ensures IsAdvanced(normals0, xyz0, normals', xyz)
  {
    assert Unfold(0);
    forall i | 0 <= i < |normals'|
      ensures IsValid(xyz0, normals0[i].root) && IsValid(xyz, normals'[i].root)
      ensures HasAdvanced(normals0[i], xyz0[normals0[i].root], normals'[i], xyz[normals'[i].root])
    {
      assert TipOk(xyz0, xyz, normals0[i], normals[i]);
    }
  }

  lemma AllInGrid(normals: seq<Normal>, xyz: seq<Point>)
    requires RootsValid(normals, xyz) && forall i :: 0 <= i < |normals| ==> IsValid(xyz, normals[i].tip)
    ensures forall i :: 0 <= i < |normals| ==> 0 <= normals[i].root < |xyz| && 0 <= normals[i].tip < |xyz|
  {
  }

  ghost function TheLists(normals: seq<Normal>, triangles: seq<Triangle>, xyz: seq<Point>): (lists: Lists)
    requires AllOk(triangles, |normals|)
    ensures Describes(lists, normals, triangles, xyz)
  {
    Lists(q => MadeList(normals, triangles, q), q => ConstrainedList(normals, triangles, q),
          seq(|triangles|, k requires 0 <= k < |triangles| => TriangleRefused(normals, triangles, xyz, k)))
  }

  lemma TriangleRefusedIs(normals0: seq<Normal>, xyz0: seq<Point>, normals: seq<Normal>, xyz: seq<Point>,
                          triangles: seq<Triangle>, k: nat)
    requires TipsOk(normals0, xyz0, normals, xyz, |normals|) && RootsValid(normals0, xyz0)
    requires AllOk(triangles, |normals|) && k < |triangles|
    ensures TriangleRefused(normals, triangles, xyz, k) <==> !Ready(normals0, xyz0, triangles[k])
  {
    var t := triangles[k];
    assert TriangleOk(t, |normals|);
    TipsInPlace(normals0, xyz0, normals, xyz);
    var ns := SortedNormals(normals, t);
    var parts := PrismParts(normals[ns[2]].root < normals[ns[1]].root);
    PartRefused(normals, xyz0, xyz, ns, parts[0]);
    PartRefused(normals, xyz0, xyz, ns, parts[1]);
    PartRefused(normals, xyz0, xyz, ns, parts[2]);
    ReadySame(normals0, normals, xyz0, t);
  }

  lemma TipsInPlace(normals0: seq<Normal>, xyz0: seq<Point>, normals: seq<Normal>, xyz: seq<Point>)
    requires TipsOk(normals0, xyz0, normals, xyz, |normals|) && RootsValid(normals0, xyz0)
    ensures RootsValid(normals, xyz0)
    ensures forall i :: 0 <= i < |normals| ==> InPlace(normals[i], xyz0, xyz) && SameAim(normals0[i], normals[i])
  {
    assert Unfold(0);
    forall i | 0 <= i < |normals| ensures InPlace(normals[i], xyz0, xyz) && SameAim(normals0[i], normals[i]) {
      assert IsValid(xyz0, normals0[i].root);
      assert TipOk(xyz0, xyz, normals0[i], normals[i]);
      SameTipPoint(normals0[i], normals[i], xyz0);
    }
  }

  lemma RefusedIsNotReady(normals0: seq<Normal>, xyz0: seq<Point>, normals: seq<Normal>, xyz: seq<Point>,
                          triangles: seq<Triangle>, lists: Lists)
    requires TipsOk(normals0, xyz0, normals, xyz, |normals|) && RootsValid(normals0, xyz0)
    requires Describes(lists, normals, triangles, xyz)
    ensures true !in lists.refused <==> AllReady(normals0, triangles, xyz0)
  {
    forall k | 0 <= k < |triangles| ensures lists.refused[k] <==> !Ready(normals0, xyz0, triangles[k]) {
      RefusedAt(lists, normals, triangles, xyz, k);
      TriangleRefusedIs(normals0, xyz0, normals, xyz, triangles, k);
    }
  }

  ghost predicate MadeUp(normals0: seq<Normal>, normals': seq<Normal>, triangles: seq<Triangle>, lists: Lists, q: Tri)
    requires AllOk(triangles, |normals0|) && |normals'| == |normals0|
  {
    Sum(lists.made(q)) - Sum(lists.constrained(q)) + Sum(FrontList(normals', triangles, q)) ==
      Sum(FrontList(normals0, triangles, q))
  }

  /** What the new cells and faces show makes up for the move of the front. */
  lemma BalanceKept(normals0: seq<Normal>, normals: seq<Normal>, normals': seq<Normal>, triangles: seq<Triangle>,
                    lists: Lists,
                    xyz: seq<Point>)
    requires Closed(triangles, |normals|) && DistinctRoots(normals) && Describes(lists, normals, triangles, xyz)
    requires |normals0| == |normals| && forall i :: 0 <= i < |normals| ==> normals[i].root == normals0[i].root
    requires IsMovedOn(normals, normals', |normals|)
    ensures forall q :: MadeUp(normals0, normals', triangles, lists, q)
  {
    assert Unfold(0);
    forall q ensures MadeUp(normals0, normals', triangles, lists, q) {
      AdvanceBoundary(normals, triangles, q);
      FrontsAre(normals0, normals, normals', triangles, q);
      assert lists.made(q) == MadeList(normals, triangles, q);
    }
  }

  lemma SameFront(normals0: seq<Normal>, normals: seq<Normal>, triangles: seq<Triangle>, q: Tri)
    requires AllOk(triangles, |normals|) && |normals0| == |normals|
    requires forall i :: 0 <= i < |normals| ==> normals[i].root == normals0[i].root
    ensures FrontList(normals, triangles, q) == FrontList(normals0, triangles, q)
  {
    forall k | 0 <= k < |triangles|
      ensures FrontList(normals, triangles, q)[k] == FrontList(normals0, triangles, q)[k]
    {
      assert TriangleOk(triangles[k], |normals|);
      assert Roots(normals, triangles[k].normal) == Roots(normals0, triangles[k].normal);
    }
  }

  lemma FrontsAre(normals0: seq<Normal>, normals: seq<Normal>, normals': seq<Normal>, triangles: seq<Triangle>, q: Tri)
    requires AllOk(triangles, |normals|)
    requires |normals0| == |normals| && forall i :: 0 <= i < |normals| ==> normals[i].root == normals0[i].root
    requires IsMovedOn(normals, normals', |normals|)
    ensures FrontList(normals0, triangles, q) == FrontList(normals, triangles, q)
    ensures FrontList(normals', triangles, q) == TopList(normals, triangles, q)
  {
    forall k | 0 <= k < |triangles|
      ensures FrontList(normals0, triangles, q)[k] == FrontList(normals, triangles, q)[k]
      ensures FrontList(normals', triangles, q)[k] == TopList(normals, triangles, q)[k]
    {
      assert TriangleOk(triangles[k], |normals|);
      var ns := triangles[k].normal;
      assert Roots(normals0, ns) == Roots(normals, ns) && Roots(normals', ns) == Tips(normals, ns);
    }
  }

  /** An equality of sums, to be named. */
  lemma ShownStep(now: int, before: int, more: int)
    requires now == before + more
    ensures now - before == more
  {
  }

  predicate PrismRefused(xyz: seq<Point>, n: seq<int>)
    requires |n| == 6
  {
    var parts := PrismParts(n[2] < n[1]);
    Refused(xyz, n, parts[0]) || Refused(xyz, n, parts[1]) || Refused(xyz, n, parts[2])
  }

  lemma ConstrainedStep(normals: seq<Normal>, t: Triangle, i: nat, n: seq<int>, q: Tri)
    requires TriangleOk(t, |normals|) && DistinctRoots(normals) && i < 3 && t.constrainedSide[i] > 0
    requires var a, b := normals[t.normal[i]], normals[t.normal[Following(i)]]; n == [b.root, a.root, b.tip, a.tip]
    ensures ConstrainedOf(normals, t, i + 1, q) == ConstrainedOf(normals, t, i, q) + SideFaces(n, q)
  {
    SideFacesShow(n, q);
  }
}
