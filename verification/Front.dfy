/**
 The advancing front of mesherx/layer.c: normals at the nodes of front triangles, the prisms the
 triangles will grow, and how a prism is cut into tetrahedra.
 */
module Front {
  import opened Common
  import opened Geometry
  import opened NodeStore
  import opened Chains

  datatype Normal = Normal(root: int, tip: int, terminated: bool, constrained: int, height: real, length: real,
    direction: Point)

  /**
   Three normals, and for the side from each of them to the next the id of a constraining face, or no positive
   number.
   */
  datatype Triangle = Triangle(normal: seq<int>, constrainedSide: seq<int>)

  ghost predicate TriangleOk(t: Triangle, n: nat) {
    && |t.normal| == |t.constrainedSide| == 3
    && (forall i :: 0 <= i < 3 ==> 0 <= t.normal[i] < n)
    && t.normal[0] != t.normal[1] && t.normal[1] != t.normal[2] && t.normal[2] != t.normal[0]
  }

  function Following(i: nat): nat {
    if i >= 2 then 0 else i + 1
  }

  /** By how much a triangle is rotated to bring its smallest root to the front. */
  function Rotation(roots: seq<int>): (k: nat)
    requires |roots| == 3
    ensures k < 3
  {
    if roots[1] < roots[0] && roots[1] < roots[2] then 1
    else if roots[2] < roots[0] && roots[2] < roots[1] then 2
    else 0
  }

  function Rotated<T>(s: seq<T>, k: nat): (r: seq<T>)
    requires |s| == 3 && k < 3
    ensures |r| == 3
  {
    [s[k], s[Following(k)], s[Following(Following(k))]]
  }

  function Roots(normals: seq<Normal>, ns: seq<int>): (r: seq<int>)
    requires |ns| == 3 && forall i :: 0 <= i < 3 ==> 0 <= ns[i] < |normals|
    ensures |r| == 3
  {
    [normals[ns[0]].root, normals[ns[1]].root, normals[ns[2]].root]
  }

  function Tips(normals: seq<Normal>, ns: seq<int>): (r: seq<int>)
    requires |ns| == 3 && forall i :: 0 <= i < 3 ==> 0 <= ns[i] < |normals|
    ensures |r| == 3
  {
    [normals[ns[0]].tip, normals[ns[1]].tip, normals[ns[2]].tip]
  }

  /** The normals of a triangle, smallest root first. */
  function SortedNormals(normals: seq<Normal>, t: Triangle): (ns: seq<int>)
    requires TriangleOk(t, |normals|)
    ensures |ns| == 3 && forall i :: 0 <= i < 3 ==> 0 <= ns[i] < |normals|
  {
    Rotated(t.normal, Rotation(Roots(normals, t.normal)))
  }

  /** The rule picks the smallest root, without changing the orientation of the triangle. */
  lemma SmallestFirst(normals: seq<Normal>, t: Triangle)
    requires TriangleOk(t, |normals|)
    requires normals[t.normal[0]].root != normals[t.normal[1]].root
    requires normals[t.normal[1]].root != normals[t.normal[2]].root
    requires normals[t.normal[2]].root != normals[t.normal[0]].root
    ensures var r := Roots(normals, SortedNormals(normals, t)); r[0] < r[1] && r[0] < r[2] && r[1] != r[2]
    ensures var n := t.normal;
            SortedNormals(normals, t) in {[n[0], n[1], n[2]], [n[1], n[2], n[0]], [n[2], n[0], n[1]]}
  {
    assert t.normal == [t.normal[0], t.normal[1], t.normal[2]];
  }

  /**
   A tetrahedron of a prism, by prism corners: 0 to 2 are roots, 3 to 5 tips. It needs the given normal to be
   active.
   */
  datatype Part = Part(tet: seq<nat>, corner: nat)

  /** The cut of a prism whose smallest root is corner 0; `down` when corner 2 has a smaller root than corner 1. */
  function PrismParts(down: bool): (parts: seq<Part>)
    ensures |parts| == 3
    ensures forall k :: 0 <= k < 3 ==>
      |parts[k].tet| == 4 && parts[k].corner < 3 && forall i :: 0 <= i < 4 ==> parts[k].tet[i] < 6
  {
    if down then [Part([0, 4, 5, 3], 0), Part([2, 0, 4, 5], 2), Part([2, 0, 1, 4], 1)]
    else [Part([0, 4, 5, 3], 0), Part([0, 1, 5, 4], 1), Part([2, 0, 1, 5], 2)]
  }

  function Pick<T>(n: seq<T>, tet: seq<nat>): (r: seq<T>)
    requires |n| == 6 && |tet| == 4 && forall i :: 0 <= i < 4 ==> tet[i] < 6
    ensures |r| == 4
  {
    [n[tet[0]], n[tet[1]], n[tet[2]], n[tet[3]]]
  }

  /** What one tetrahedron of the cut adds, if it is made at all. */
  ghost function PartChi(n: seq<int>, part: Part, q: Tri): int
    requires |n| == 6 && |part.tet| == 4 && part.corner < 3 && forall i :: 0 <= i < 4 ==> part.tet[i] < 6
  {
    if n[part.corner] != n[part.corner + 3] then TetChi(Pick(n, part.tet), q) else 0
  }

  /** What the tetrahedra made in one prism add. */
  ghost function MadeChi(n: seq<int>, q: Tri): int
    requires |n| == 6
  {
    var parts := PrismParts(n[2] < n[1]);
    PartChi(n, parts[0], q) + PartChi(n, parts[1], q) + PartChi(n, parts[2], q)
  }

  /** A tetrahedron that is left out would have been degenerate. */
  lemma LeftOutIsDegenerate(n: seq<int>, down: bool, k: nat, q: Tri)
    requires |n| == 6 && k < 3
    ensures PartChi(n, PrismParts(down)[k], q) == TetChi(Pick(n, PrismParts(down)[k].tet), q)
  {
    var part := PrismParts(down)[k];
    if n[part.corner] == n[part.corner + 3] {
      DegenerateTet(Pick(n, part.tet), q);
    }
  }

  /**
   Whatever normals are terminated, the tetrahedra made leave the bottom, the reversed top and the sides of
   the prism.
   */
  lemma MadeIsPrism(n: seq<int>, q: Tri)
    requires |n| == 6 && n[0] < n[1] && n[0] < n[2] && n[1] != n[2]
    ensures MadeChi(n, q) == PrismChi(n, q)
  {
    var down := n[2] < n[1];
    LeftOutIsDegenerate(n, down, 0, q);
    LeftOutIsDegenerate(n, down, 1, q);
    LeftOutIsDegenerate(n, down, 2, q);
    if down {
      PrismBoundaryDown(n, q);
    } else {
      PrismBoundaryUp(n, q);
    }
  }

  /** The prism of a triangle in the triangle's own order. */
  ghost function PrismOf(normals: seq<Normal>, t: Triangle, q: Tri): int
    requires TriangleOk(t, |normals|)
  {
    PrismChi(Roots(normals, t.normal) + Tips(normals, t.normal), q)
  }

  /** The tetrahedra of a triangle. */
  ghost function MadeOf(normals: seq<Normal>, t: Triangle, q: Tri): int
    requires TriangleOk(t, |normals|)
  {
    var ns := SortedNormals(normals, t);
    MadeChi(Roots(normals, ns) + Tips(normals, ns), q)
  }

  lemma MadeOfTriangle(normals: seq<Normal>, t: Triangle, q: Tri)
    requires TriangleOk(t, |normals|)
    requires normals[t.normal[0]].root != normals[t.normal[1]].root
    requires normals[t.normal[1]].root != normals[t.normal[2]].root
    requires normals[t.normal[2]].root != normals[t.normal[0]].root
    ensures MadeOf(normals, t, q) == PrismOf(normals, t, q)
  {
    SmallestFirst(normals, t);
    var ns := SortedNormals(normals, t);
    MadeIsPrism(Roots(normals, ns) + Tips(normals, ns), q);
    var n := Roots(normals, t.normal) + Tips(normals, t.normal);
    PrismRotated(n, q);
    var k := Rotation(Roots(normals, t.normal));
    assert Roots(normals, ns) + Tips(normals, ns) ==
      if k == 0 then n else if k == 1 then [n[1], n[2], n[0], n[4], n[5], n[3]]
        else [n[2], n[0], n[1], n[5], n[3], n[4]];
  }

  /** The side between two normals, as seen from the triangle that runs from the first to the second. */
  ghost function SideOf(normals: seq<Normal>, i: int, j: int, q: Tri): int {
    if 0 <= i < |normals| && 0 <= j < |normals| then
      Side(normals[i].root, normals[j].root, normals[i].tip, normals[j].tip, q)
    else 0
  }

  ghost function SideWeight(normals: seq<Normal>, q: Tri): ((int, int)) -> int {
    (e: (int, int)) => SideOf(normals, e.0, e.1, q)
  }

  function EdgeOf(t: Triangle, i: nat): (int, int)
    requires |t.normal| == 3 && i < 3
  {
    (t.normal[i], t.normal[Following(i)])
  }

  /** The sides of a triangle that are not constrained, as directed edges. */
  ghost function FreeOf(t: Triangle, i: nat): seq<(int, int)>
    requires |t.normal| == |t.constrainedSide| == 3 && i <= 3
  {
    if i == 0 then [] else FreeOf(t, i - 1) + if t.constrainedSide[i - 1] > 0 then [] else [EdgeOf(t, i - 1)]
  }

  /** What the constrained sides among the first i show. */
  ghost function ConstrainedOf(normals: seq<Normal>, t: Triangle, i: nat, q: Tri): int
    requires |t.normal| == |t.constrainedSide| == 3 && i <= 3
  {
    if i == 0 then 0
    else ConstrainedOf(normals, t, i - 1, q) +
         if t.constrainedSide[i - 1] > 0 then SideWeight(normals, q)(EdgeOf(t, i - 1)) else 0
  }

  lemma {:induction false} EdgeSumOfConcat(a: seq<(int, int)>, b: seq<(int, int)>, w: ((int, int)) -> int)
    ensures EdgeSum(a + b, w) == EdgeSum(a, w) + EdgeSum(b, w)
  {
    if b == [] {
      assert a + b == a;
    } else {
      assert (a + b)[..|a + b| - 1] == a + b[..|b| - 1];
      EdgeSumOfConcat(a, b[..|b| - 1], w);
    }
  }

  lemma SidesOf(normals: seq<Normal>, t: Triangle, i: nat, q: Tri)
    requires |t.normal| == |t.constrainedSide| == 3 && i < 3
    ensures ConstrainedOf(normals, t, i + 1, q) + EdgeSum(FreeOf(t, i + 1), SideWeight(normals, q))
      == ConstrainedOf(normals, t, i, q) + EdgeSum(FreeOf(t, i), SideWeight(normals, q)) +
        SideWeight(normals, q)(EdgeOf(t, i))
  {
    var w := SideWeight(normals, q);
    if t.constrainedSide[i] <= 0 {
      EdgeSumOfConcat(FreeOf(t, i), [EdgeOf(t, i)], w);
      assert EdgeSum([EdgeOf(t, i)], w) == w(EdgeOf(t, i));
    } else {
      assert FreeOf(t, i + 1) == FreeOf(t, i);
    }
  }

  function TriChi(n: seq<int>, q: Tri): int
    requires |n| == 3
  {
    Chi(Tri(n[0], n[1], n[2]), q)
  }

  /** A prism leaves bottom, reversed top, and its sides, constrained or not. */
  lemma {:induction false} PrismSides(normals: seq<Normal>, t: Triangle, q: Tri)
    requires TriangleOk(t, |normals|)
    ensures PrismOf(normals, t, q) == TriChi(Roots(normals, t.normal), q) - TriChi(Tips(normals, t.normal), q)
        + ConstrainedOf(normals, t, 3, q) + EdgeSum(FreeOf(t, 3), SideWeight(normals, q))
  {
    var w := SideWeight(normals, q);
    SidesOf(normals, t, 0, q);
    SidesOf(normals, t, 1, q);
    SidesOf(normals, t, 2, q);
    assert EdgeSum(FreeOf(t, 0), w) == 0;
  }

  ghost predicate AllOk(triangles: seq<Triangle>, n: nat) {
    forall t :: 0 <= t < |triangles| ==> TriangleOk(triangles[t], n)
  }

  ghost function Sum(s: seq<int>): int {
    if s == [] then 0 else Sum(s[..|s| - 1]) + s[|s| - 1]
  }

  lemma {:induction false} SumsAgree(made: seq<int>, front: seq<int>, top: seq<int>, constrained: seq<int>,
                                     free: seq<int>)
    requires |made| == |front| == |top| == |constrained| == |free|
    requires forall k :: 0 <= k < |made| ==> made[k] == front[k] - top[k] + constrained[k] + free[k]
    ensures Sum(made) == Sum(front) - Sum(top) + Sum(constrained) + Sum(free)
  {
    if made != [] {
      var m := |made| - 1;
      SumsAgree(made[..m], front[..m], top[..m], constrained[..m], free[..m]);
    }
  }

  /** For each triangle, the oriented triangle of its roots. */
  ghost function FrontList(normals: seq<Normal>, triangles: seq<Triangle>, q: Tri): (s: seq<int>)
    requires AllOk(triangles, |normals|)
    ensures |s| == |triangles|
  {
    seq(|triangles|, k requires 0 <= k < |triangles| && TriangleOk(triangles[k], |normals|) =>
      TriChi(Roots(normals, triangles[k].normal), q))
  }

  /** For each triangle, the oriented triangle of its tips. */
  ghost function TopList(normals: seq<Normal>, triangles: seq<Triangle>, q: Tri): (s: seq<int>)
    requires AllOk(triangles, |normals|)
    ensures |s| == |triangles|
  {
    seq(|triangles|, k requires 0 <= k < |triangles| && TriangleOk(triangles[k], |normals|) =>
      TriChi(Tips(normals, triangles[k].normal), q))
  }

  /** For each triangle, the tetrahedra made. */
  ghost function MadeList(normals: seq<Normal>, triangles: seq<Triangle>, q: Tri): (s: seq<int>)
    requires AllOk(triangles, |normals|)
    ensures |s| == |triangles|
  {
    seq(|triangles|, k requires 0 <= k < |triangles| && TriangleOk(triangles[k], |normals|) =>
          MadeOf(normals, triangles[k], q))
  }

  /** For each triangle, its constrained sides. */
  ghost function ConstrainedList(normals: seq<Normal>, triangles: seq<Triangle>, q: Tri): (s: seq<int>)
    requires AllOk(triangles, |normals|)
    ensures |s| == |triangles|
  {
    seq(|triangles|, k requires 0 <= k < |triangles| && TriangleOk(triangles[k], |normals|) =>
      ConstrainedOf(normals, triangles[k], 3, q))
  }

  /** For each triangle, its sides that are not constrained. */
  ghost function FreeList(normals: seq<Normal>, triangles: seq<Triangle>, q: Tri): (s: seq<int>)
    requires AllOk(triangles, |normals|)
    ensures |s| == |triangles|
  {
    seq(|triangles|, k requires 0 <= k < |triangles| && TriangleOk(triangles[k], |normals|) =>
      EdgeSum(FreeOf(triangles[k], 3), SideWeight(normals, q)))
  }

  /** The directed edges of the first k triangles that are not constrained. */
  ghost function FreeEdges(triangles: seq<Triangle>, k: nat, n: nat): seq<(int, int)>
    requires AllOk(triangles, n) && k <= |triangles|
  {
    if k == 0 then [] else FreeEdges(triangles, k - 1, n) + FreeOf(triangles[k - 1], 3)
  }

  ghost predicate DistinctRoots(normals: seq<Normal>) {
    forall i, j :: 0 <= i < j < |normals| ==> normals[i].root != normals[j].root
  }

  /** The value of the free sides of triangle i under a weight. */
  ghost predicate IsFreeValue(triangles: seq<Triangle>, n: nat, w: ((int, int)) -> int, s: seq<int>, i: nat)
    requires AllOk(triangles, n) && i < |triangles| == |s|
  {
    TriangleOk(triangles[i], n) && s[i] == EdgeSum(FreeOf(triangles[i], 3), w)
  }

  lemma {:induction false} SumPrefix(s: seq<int>, k: nat)
    requires 0 < k <= |s|
    ensures Sum(s[..k]) == Sum(s[..k - 1]) + s[k - 1]
  {
    assert s[..k][..k - 1] == s[..k - 1];
  }

  lemma {:induction false} FreeEdgesStep(triangles: seq<Triangle>, k: nat, n: nat, w: ((int, int)) -> int, s: seq<int>)
    requires AllOk(triangles, n) && k < |triangles| == |s| && IsFreeValue(triangles, n, w, s, k)
    ensures EdgeSum(FreeEdges(triangles, k + 1, n), w) == EdgeSum(FreeEdges(triangles, k, n), w) + s[k]
  {
    EdgeSumOfConcat(FreeEdges(triangles, k, n), FreeOf(triangles[k], 3), w);
  }

  lemma {:induction false} FreeEdgesTotal(triangles: seq<Triangle>, k: nat, n: nat, w: ((int, int)) -> int, s: seq<int>)
    requires AllOk(triangles, n) && k <= |triangles| == |s|
    requires forall i :: 0 <= i < |s| ==> IsFreeValue(triangles, n, w, s, i)
    ensures EdgeSum(FreeEdges(triangles, k, n), w) == Sum(s[..k])
  {
    if k > 0 {
      FreeEdgesTotal(triangles, k - 1, n, w, s);
      FreeEdgesStep(triangles, k - 1, n, w, s);
      SumPrefix(s, k);
    }
  }

  lemma {:induction false} FreeEdgesSum(normals: seq<Normal>, triangles: seq<Triangle>, k: nat, q: Tri)
    requires AllOk(triangles, |normals|) && k <= |triangles|
    ensures EdgeSum(FreeEdges(triangles, k, |normals|), SideWeight(normals, q)) ==
      Sum(FreeList(normals, triangles, q)[..k])
  {
    var s, w := FreeList(normals, triangles, q), SideWeight(normals, q);
    forall i | 0 <= i < |s| ensures IsFreeValue(triangles, |normals|, w, s, i) {
      assert TriangleOk(triangles[i], |normals|);
    }
    FreeEdgesTotal(triangles, k, |normals|, w, s);
  }

  lemma {:induction false} TriangleShows(normals: seq<Normal>, triangles: seq<Triangle>, k: nat, q: Tri)
    requires AllOk(triangles, |normals|) && k < |triangles| && DistinctRoots(normals)
    ensures var t := triangles[k];
      MadeOf(normals, t, q) == TriChi(Roots(normals, t.normal), q) - TriChi(Tips(normals, t.normal), q)
        + ConstrainedOf(normals, t, 3, q) + EdgeSum(FreeOf(t, 3), SideWeight(normals, q))
  {
    var t := triangles[k];
    assert TriangleOk(t, |normals|);
    MadeOfTriangle(normals, t, q);
    PrismSides(normals, t, q);
  }

  lemma MadeIsShown(normals: seq<Normal>, triangles: seq<Triangle>, q: Tri)
    requires AllOk(triangles, |normals|) && DistinctRoots(normals)
    ensures Sum(MadeList(normals, triangles, q)) ==
      Sum(FrontList(normals, triangles, q)) - Sum(TopList(normals, triangles, q))
      + Sum(ConstrainedList(normals, triangles, q)) + Sum(FreeList(normals, triangles, q))
  {
    var made, front, top := MadeList(normals, triangles, q), FrontList(normals, triangles, q), TopList(normals,
                                     triangles, q);
    var constrained, free := ConstrainedList(normals, triangles, q), FreeList(normals, triangles, q);
    forall k | 0 <= k < |made| ensures made[k] == front[k] - top[k] + constrained[k] + free[k] {
      TriangleShows(normals, triangles, k, q);
    }
    SumsAgree(made, front, top, constrained, free);
  }

  lemma {:induction false} FreeOfInRange(t: Triangle, i: nat, n: nat)
    requires TriangleOk(t, n) && i <= 3
    ensures forall e :: e in FreeOf(t, i) ==> 0 <= e.0 < n && 0 <= e.1 < n
  {
    if i > 0 {
      FreeOfInRange(t, i - 1, n);
    }
  }

  lemma {:induction false} FreeEdgesInRange(triangles: seq<Triangle>, k: nat, n: nat)
    requires AllOk(triangles, n) && k <= |triangles|
    ensures forall e :: e in FreeEdges(triangles, k, n) ==> 0 <= e.0 < n && 0 <= e.1 < n
  {
    if k > 0 {
      FreeEdgesInRange(triangles, k - 1, n);
      FreeOfInRange(triangles[k - 1], 3, n);
    }
  }

  /** Every side that is not constrained is shared with the reverse side of another triangle. */
  ghost predicate Closed(triangles: seq<Triangle>, n: nat) {
    AllOk(triangles, n) && Balanced(FreeEdges(triangles, |triangles|, n))
  }

  /**
   The faces of all tetrahedra made by one advance cancel, but for the front, the reversed new front
   and the constrained sides.
   */
  lemma AdvanceBoundary(normals: seq<Normal>, triangles: seq<Triangle>, q: Tri)
    requires Closed(triangles, |normals|) && DistinctRoots(normals)
    ensures Sum(MadeList(normals, triangles, q)) ==
      Sum(FrontList(normals, triangles, q)) - Sum(TopList(normals, triangles, q)) +
        Sum(ConstrainedList(normals, triangles, q))
  {
    var k, w := |triangles|, SideWeight(normals, q);
    var edges := FreeEdges(triangles, k, |normals|);
    MadeIsShown(normals, triangles, q);
    FreeEdgesSum(normals, triangles, k, q);
    assert FreeList(normals, triangles, q)[..k] == FreeList(normals, triangles, q);
    FreeEdgesInRange(triangles, k, |normals|);
    SidesOpposite(normals, edges, q);
    BalancedCancels(edges, w);
  }

  lemma SidesOpposite(normals: seq<Normal>, edges: seq<(int, int)>, q: Tri)
    requires DistinctRoots(normals) && Balanced(edges)
    requires forall e :: e in edges ==> 0 <= e.0 < |normals| && 0 <= e.1 < |normals|
    ensures Antisymmetric(edges, SideWeight(normals, q))
  {
    var w := SideWeight(normals, q);
    forall i | 0 <= i < |edges| ensures w(edges[i]) == -w((edges[i].1, edges[i].0)) {
      assert edges[i] in edges;
      var a, b := normals[edges[i].0], normals[edges[i].1];
      SideReversed(a.root, b.root, a.tip, b.tip, q);
    }
  }

  /** Tetrahedra smaller than this, or turned inside out, are refused. */
  const VOLUME_LIMIT: real := 0.00000000000001

  function TetVolume(a: Point, b: Point, c: Point, d: Point): real {
    Dot(Cross(Minus(b, a), Minus(c, a)), Minus(d, a)) / 6.0
  }

  lemma Products(x: real, y: real)
    ensures x == 0.0 || y == 0.0 ==> x * y == 0.0
    ensures x == 1.0 ==> x * y == y
  {
  }

  lemma CrossOfUnits(u: Point, v: Point)
    requires u == Point(1.0, 0.0, 0.0) && v == Point(0.0, 1.0, 0.0)
    ensures Cross(u, v) == Point(0.0, 0.0, 1.0)
  {
    Products(u.y, v.z);
    Products(u.z, v.y);
    Products(u.z, v.x);
    Products(u.x, v.z);
    Products(u.x, v.y);
    Products(u.y, v.x);
  }

  /** Unit legs along the axes, in this order, span one sixth of the unit cube, from whatever corner. */
  lemma UnitVolume(a: Point, b: Point, c: Point, d: Point)
    requires Minus(b, a) == Point(1.0, 0.0, 0.0) && Minus(c, a) == Point(0.0, 1.0, 0.0)
    requires Minus(d, a) == Point(0.0, 0.0, 1.0)
    ensures TetVolume(a, b, c, d) == 1.0 / 6.0
  {
    var n, w := Cross(Minus(b, a), Minus(c, a)), Minus(d, a);
    CrossOfUnits(Minus(b, a), Minus(c, a));
    Products(n.x, w.x);
    Products(n.y, w.y);
    Products(n.z, w.z);
  }

  /** Such as this one. */
  lemma UnitTetrahedron()
    ensures TetVolume(Point(0.0, 0.0, 0.0), Point(1.0, 0.0, 0.0), Point(0.0, 1.0, 0.0), Point(0.0, 0.0, 1.0)) ==
      1.0 / 6.0
  {
    UnitVolume(Point(0.0, 0.0, 0.0), Point(1.0, 0.0, 0.0), Point(0.0, 1.0, 0.0), Point(0.0, 0.0, 1.0));
  }

  /** Two corners exchanged turn the tetrahedron inside out. */
  lemma VolumeTurns(a: Point, b: Point, c: Point, d: Point)
    ensures TetVolume(b, a, c, d) == -TetVolume(a, b, c, d)
    ensures TetVolume(a, c, b, d) == -TetVolume(a, b, c, d)
    ensures TetVolume(a, b, d, c) == -TetVolume(a, b, c, d)
  {
  }

  /** The volume does not depend on where the tetrahedron is. */
  lemma VolumeMoves(a: Point, b: Point, c: Point, d: Point, v: Point)
    ensures TetVolume(Point(a.x + v.x, a.y + v.y, a.z + v.z), Point(b.x + v.x, b.y + v.y, b.z + v.z),
      Point(c.x + v.x, c.y + v.y, c.z + v.z), Point(d.x + v.x, d.y + v.y, d.z + v.z)) ==
      TetVolume(a, b, c, d)
  {
  }

  /** It is linear in the way from the first corner to the last. */
  lemma VolumeScales(a: Point, b: Point, c: Point, d: Point, e: Point, f: Point, s: real, t: real)
    requires f.x - a.x == s * (d.x - a.x) + t * (e.x - a.x) && f.y - a.y == s * (d.y - a.y) + t * (e.y - a.y)
    requires f.z - a.z == s * (d.z - a.z) + t * (e.z - a.z)
    ensures TetVolume(a, b, c, f) == s * TetVolume(a, b, c, d) + t * TetVolume(a, b, c, e)
  {
    var n, u, v, w := Cross(Minus(b, a), Minus(c, a)), Minus(d, a), Minus(e, a), Minus(f, a);
    DotScales(n, u, v, w, s, t);
  }

  lemma DotScales(n: Point, u: Point, v: Point, w: Point, s: real, t: real)
    requires w.x == s * u.x + t * v.x && w.y == s * u.y + t * v.y && w.z == s * u.z + t * v.z
    ensures Dot(n, w) == s * Dot(n, u) + t * Dot(n, v)
  {
    ProductScales(n.x, u.x, v.x, s, t);
    ProductScales(n.y, u.y, v.y, s, t);
    ProductScales(n.z, u.z, v.z, s, t);
  }

  lemma ProductScales(n: real, u: real, v: real, s: real, t: real)
    ensures n * (s * u + t * v) == s * (n * u) + t * (n * v)
  {
  }

  /** gridVolume */
  function GridVolume(xyz: seq<Point>, tet: seq<int>): real
    requires |tet| == 4
  {
    if IsValid(xyz, tet[0]) && IsValid(xyz, tet[1]) && IsValid(xyz, tet[2]) && IsValid(xyz, tet[3])
    then TetVolume(xyz[tet[0]], xyz[tet[1]], xyz[tet[2]], xyz[tet[3]])
    else -1.0
  }

  /** Where an active normal puts its tip. */
  function Ahead(p: Point, n: Normal): Point {
    MovedBy(p, n.height, n.direction)
  }

  function MovedBy(p: Point, height: real, direction: Point): Point {
    Point(p.x + height * direction.x, p.y + height * direction.y, p.z + height * direction.z)
  }

  /** Where the tip of a normal will be. */
  function TipPoint(xyz: seq<Point>, n: Normal): Point
    requires IsValid(xyz, n.root)
  {
    if n.terminated then xyz[n.root] else Ahead(xyz[n.root], n)
  }

  /** No tip falls on the mark of a free node. */
  predicate TipsPlaceable(normals: seq<Normal>, xyz: seq<Point>) {
    forall i :: 0 <= i < |normals| && IsValid(xyz, normals[i].root) ==> TipPoint(xyz, normals[i]).x != DBL_MAX
  }

  ghost predicate RootsValid(normals: seq<Normal>, xyz: seq<Point>) {
    forall i :: 0 <= i < |normals| ==> IsValid(xyz, normals[i].root)
  }

  /** The corners of the prism on three normals. */
  ghost function PrismPoints(normals: seq<Normal>, xyz: seq<Point>, ns: seq<int>): (points: seq<Point>)
    requires RootsValid(normals, xyz) && |ns| == 3 && forall i :: 0 <= i < 3 ==> 0 <= ns[i] < |normals|
    ensures |points| == 6
  {
    [xyz[normals[ns[0]].root], xyz[normals[ns[1]].root], xyz[normals[ns[2]].root],
     TipPoint(xyz, normals[ns[0]]), TipPoint(xyz, normals[ns[1]]), TipPoint(xyz, normals[ns[2]])]
  }

  ghost function PartVolume(points: seq<Point>, part: Part): real
    requires |points| == 6 && |part.tet| == 4 && forall i :: 0 <= i < 4 ==> part.tet[i] < 6
  {
    TetVolume(points[part.tet[0]], points[part.tet[1]], points[part.tet[2]], points[part.tet[3]])
  }

  /** The tetrahedron will be large enough, or will not be made. */
  ghost predicate PartReady(normals: seq<Normal>, xyz: seq<Point>, ns: seq<int>, part: Part)
    requires RootsValid(normals, xyz) && |ns| == 3 && forall i :: 0 <= i < 3 ==> 0 <= ns[i] < |normals|
    requires |part.tet| == 4 && part.corner < 3 && forall i :: 0 <= i < 4 ==> part.tet[i] < 6
  {
    normals[ns[part.corner]].terminated || PartVolume(PrismPoints(normals, xyz, ns), part) >= VOLUME_LIMIT
  }

  /** All tetrahedra of a triangle will be large enough. */
  ghost predicate Ready(normals: seq<Normal>, xyz: seq<Point>, t: Triangle)
    requires RootsValid(normals, xyz) && TriangleOk(t, |normals|)
  {
    var ns := SortedNormals(normals, t);
    var parts := PrismParts(normals[ns[2]].root < normals[ns[1]].root);
    PartReady(normals, xyz, ns, parts[0]) && PartReady(normals, xyz, ns, parts[1]) &&
      PartReady(normals, xyz, ns, parts[2])
  }

  /** The tip of a normal is in place. */
  ghost predicate TipOk(xyz0: seq<Point>, xyz: seq<Point>, n0: Normal, n: Normal) {
    && n == n0.(tip := n.tip, length := n0.length + if n0.terminated then 0.0 else n0.height)
    && IsValid(xyz0, n0.root) && IsValid(xyz, n.tip) && xyz[n.tip] == TipPoint(xyz0, n0)
    && (n.tip == n.root <==> n.terminated)
  }

  /** The nodes there were are still there. */
  ghost predicate NodesKept(xyz0: seq<Point>, xyz: seq<Point>) {
    forall m :: IsValid(xyz0, m) ==> IsValid(xyz, m) && xyz[m] == xyz0[m]
  }

  /** Tips of the first `upto` normals are in place, fresh and apart; kept folded. */
  ghost predicate TipsOk(normals0: seq<Normal>, xyz0: seq<Point>, normals: seq<Normal>, xyz: seq<Point>, upto: nat) {
    && upto <= |normals| == |normals0|
    && forall u :: Unfold(u) ==>
         && NodesKept(xyz0, xyz)
         && (forall i :: 0 <= i < upto ==> TipOk(xyz0, xyz, normals0[i], normals[i]))
         && (forall i :: upto <= i < |normals| ==> normals[i] == normals0[i])
         && (forall i, j :: 0 <= i < j < upto ==> normals[i].tip != normals[j].tip)
         && (forall i, j :: 0 <= i < upto && 0 <= j < |normals| && !normals[i].terminated ==>
           normals[i].tip != normals0[j].root)
  }

  lemma TipsStart(normals: seq<Normal>, xyz: seq<Point>)
    ensures TipsOk(normals, xyz, normals, xyz, 0)
  {
  }

  lemma NextNormal(normals0: seq<Normal>, xyz0: seq<Point>, normals: seq<Normal>, xyz: seq<Point>, i: nat)
    requires TipsOk(normals0, xyz0, normals, xyz, i) && i < |normals| && IsValid(xyz0, normals0[i].root)
    ensures normals[i] == normals0[i] && IsValid(xyz, normals[i].root) && xyz[normals[i].root] == xyz0[normals0[i].root]
  {
    assert Unfold(0);
  }

  /** A terminated normal keeps its root as tip. */
  lemma TipsStay(normals0: seq<Normal>, xyz0: seq<Point>, normals: seq<Normal>, xyz: seq<Point>, i: nat)
    requires TipsOk(normals0, xyz0, normals, xyz, i) && i < |normals| && RootsValid(normals0, xyz0)
    requires DistinctRoots(normals0)
    requires normals[i].terminated
    ensures TipsOk(normals0, xyz0, normals[i := normals[i].(tip := normals[i].root)], xyz, i + 1)
  {
    assert Unfold(0);
    var normals' := normals[i := normals[i].(tip := normals[i].root)];
    assert normals[i] == normals0[i] && IsValid(xyz0, normals0[i].root);
    forall j | 0 <= j < i ensures normals'[j].tip != normals'[i].tip {
      assert TipOk(xyz0, xyz, normals0[j], normals[j]);
      assert normals0[j].root != normals0[i].root;
    }
    forall j | 0 <= j < i + 1 ensures TipOk(xyz0, xyz, normals0[j], normals'[j]) {
      if j < i {
        assert TipOk(xyz0, xyz, normals0[j], normals[j]);
      }
    }
  }

  /** A tip is set, and the way from the surface grows by the height. */
  function WithTip(n: Normal, tip: int): Normal {
    n.(tip := tip, length := n.length + n.height)
  }

  /** An active normal gets a fresh node as tip. */
  lemma TipsGrow(normals0: seq<Normal>, xyz0: seq<Point>, normals: seq<Normal>, xyz: seq<Point>, i: nat,
                 xyz': seq<Point>, tip: int)
    requires TipsOk(normals0, xyz0, normals, xyz, i) && i < |normals| && RootsValid(normals0, xyz0)
    requires !normals[i].terminated && !IsValid(xyz, tip) && IsValid(xyz', tip) && NodesKept(xyz, xyz')
    requires IsValid(xyz, normals[i].root) && xyz'[tip] == Ahead(xyz[normals[i].root], normals[i])
    ensures TipsOk(normals0, xyz0, normals[i := WithTip(normals[i], tip)], xyz', i + 1)
  {
    assert Unfold(0);
    var normals' := normals[i := WithTip(normals[i], tip)];
    assert normals[i] == normals0[i] && IsValid(xyz0, normals0[i].root);
    forall j | 0 <= j < i + 1
      ensures TipOk(xyz0, xyz', normals0[j], normals'[j]) && (j < i ==> normals'[j].tip != tip)
    {
      if j < i {
        assert TipOk(xyz0, xyz, normals0[j], normals[j]);
      }
    }
    forall j | 0 <= j < |normals| ensures tip != normals0[j].root {
      assert IsValid(xyz0, normals0[j].root);
    }
  }

  /** The normals with their tips made roots, as layerAdvance leaves them. */
  ghost predicate IsMovedOn(normals: seq<Normal>, normals': seq<Normal>, upto: nat) {
    && upto <= |normals'| == |normals|
    && forall i :: 0 <= i < |normals| ==>
         normals'[i] == if i < upto then normals[i].(root := normals[i].tip, tip := EMPTY) else normals[i]
  }

  /** The next front is as good as the last: new roots are valid and distinct. */
  lemma NextFrontOk(normals0: seq<Normal>, xyz0: seq<Point>, normals: seq<Normal>, xyz: seq<Point>,
                    normals': seq<Normal>)
    requires TipsOk(normals0, xyz0, normals, xyz, |normals|) && IsMovedOn(normals, normals', |normals|)
    ensures RootsValid(normals', xyz) && DistinctRoots(normals')
  {
    assert Unfold(0);
    forall i | 0 <= i < |normals'| ensures IsValid(xyz, normals'[i].root) {
      assert TipOk(xyz0, xyz, normals0[i], normals[i]);
    }
  }

  /** With the tips in place, roots are as before. */
  lemma RootsStay(normals0: seq<Normal>, xyz0: seq<Point>, normals: seq<Normal>, xyz: seq<Point>)
    requires TipsOk(normals0, xyz0, normals, xyz, |normals|) && RootsValid(normals0, xyz0) && DistinctRoots(normals0)
    ensures RootsValid(normals, xyz) && DistinctRoots(normals)
    ensures forall i :: 0 <= i < |normals| ==> normals[i].root == normals0[i].root && IsValid(xyz, normals[i].tip)
    ensures forall i :: 0 <= i < |normals| ==> (normals[i].tip == normals[i].root <==> normals0[i].terminated)
  {
    assert Unfold(0);
    forall i | 0 <= i < |normals|
      ensures normals[i].root == normals0[i].root && IsValid(xyz, normals[i].tip) && IsValid(xyz, normals[i].root)
      ensures normals[i].tip == normals[i].root <==> normals0[i].terminated
    {
      assert TipOk(xyz0, xyz, normals0[i], normals[i]);
    }
  }

  /** Root and tip of a normal are in the grid, where the normal puts them. */
  ghost predicate InPlace(n: Normal, xyz0: seq<Point>, xyz: seq<Point>) {
    && IsValid(xyz0, n.root) && IsValid(xyz, n.root) && xyz[n.root] == xyz0[n.root]
    && IsValid(xyz, n.tip) && xyz[n.tip] == TipPoint(xyz0, n)
    && (n.tip == n.root <==> n.terminated)
  }

  ghost predicate AllInPlace(normals: seq<Normal>, ns: seq<int>, xyz0: seq<Point>, xyz: seq<Point>) {
    |ns| == 3 && forall i :: 0 <= i < 3 ==> 0 <= ns[i] < |normals| && InPlace(normals[ns[i]], xyz0, xyz)
  }

  /** The prism corners in the grid are where they were expected. */
  lemma PointsArrive(normals: seq<Normal>, xyz0: seq<Point>, xyz: seq<Point>, ns: seq<int>, k: nat)
    requires AllInPlace(normals, ns, xyz0, xyz) && RootsValid(normals, xyz0) && k < 6
    ensures var n := Roots(normals, ns) + Tips(normals, ns);
            IsValid(xyz, n[k]) && xyz[n[k]] == PrismPoints(normals, xyz0, ns)[k]
  {
    assert InPlace(normals[ns[if k < 3 then k else k - 3]], xyz0, xyz);
  }

  lemma VolumeArrives(normals: seq<Normal>, xyz0: seq<Point>, xyz: seq<Point>, ns: seq<int>, part: Part)
    requires AllInPlace(normals, ns, xyz0, xyz) && RootsValid(normals, xyz0)
    requires |part.tet| == 4 && part.corner < 3 && forall i :: 0 <= i < 4 ==> part.tet[i] < 6
    ensures GridVolume(xyz, Pick(Roots(normals, ns) + Tips(normals, ns), part.tet)) ==
      PartVolume(PrismPoints(normals, xyz0, ns), part)
  {
    PointsArrive(normals, xyz0, xyz, ns, part.tet[0]);
    PointsArrive(normals, xyz0, xyz, ns, part.tet[1]);
    PointsArrive(normals, xyz0, xyz, ns, part.tet[2]);
    PointsArrive(normals, xyz0, xyz, ns, part.tet[3]);
  }

  /** A tetrahedron that is made and is too small. */
  predicate Refused(xyz: seq<Point>, n: seq<int>, part: Part)
    requires |n| == 6 && |part.tet| == 4 && part.corner < 3 && forall i :: 0 <= i < 4 ==> part.tet[i] < 6
  {
    n[part.corner] != n[part.corner + 3] && VOLUME_LIMIT > GridVolume(xyz, Pick(n, part.tet))
  }

  /** A tetrahedron is refused exactly when it was foreseen to be too small. */
  lemma PartRefused(normals: seq<Normal>, xyz0: seq<Point>, xyz: seq<Point>, ns: seq<int>, part: Part)
    requires AllInPlace(normals, ns, xyz0, xyz) && RootsValid(normals, xyz0)
    requires |part.tet| == 4 && part.corner < 3 && forall i :: 0 <= i < 4 ==> part.tet[i] < 6
    ensures Refused(xyz, Roots(normals, ns) + Tips(normals, ns), part) <==> !PartReady(normals, xyz0, ns, part)
  {
    VolumeArrives(normals, xyz0, xyz, ns, part);
    var i, n := ns[part.corner], Roots(normals, ns) + Tips(normals, ns);
    assert InPlace(normals[i], xyz0, xyz);
    assert n[part.corner] == normals[i].root && n[part.corner + 3] == normals[i].tip;
  }

  /** Normals that put their tips at the same places. */
  ghost predicate SameAim(n: Normal, n': Normal) {
    n' == n.(tip := n'.tip, length := n'.length)
  }

  lemma SameTipPoint(n: Normal, n': Normal, xyz: seq<Point>)
    requires SameAim(n, n') && IsValid(xyz, n.root)
    ensures TipPoint(xyz, n') == TipPoint(xyz, n)
  {
    assert n'.height == n.height && n'.direction == n.direction && n'.root == n.root && n'.terminated == n.terminated;
  }

  /** What will be made does not depend on tips set before. */
  lemma PartReadySame(normals: seq<Normal>, normals': seq<Normal>, xyz: seq<Point>, ns: seq<int>, part: Part)
    requires RootsValid(normals, xyz) && RootsValid(normals', xyz) && |normals| == |normals'|
    requires |ns| == 3 && forall i :: 0 <= i < 3 ==> 0 <= ns[i] < |normals| && SameAim(normals[ns[i]], normals'[ns[i]])
    requires |part.tet| == 4 && part.corner < 3 && forall i :: 0 <= i < 4 ==> part.tet[i] < 6
    ensures PartReady(normals', xyz, ns, part) <==> PartReady(normals, xyz, ns, part)
  {
    SameTipPoint(normals[ns[0]], normals'[ns[0]], xyz);
    SameTipPoint(normals[ns[1]], normals'[ns[1]], xyz);
    SameTipPoint(normals[ns[2]], normals'[ns[2]], xyz);
    assert SameAim(normals[ns[part.corner]], normals'[ns[part.corner]]);
    assert PrismPoints(normals', xyz, ns) == PrismPoints(normals, xyz, ns);
  }

  lemma ReadySame(normals: seq<Normal>, normals': seq<Normal>, xyz: seq<Point>, t: Triangle)
    requires RootsValid(normals, xyz) && RootsValid(normals', xyz) && |normals| == |normals'|
    requires TriangleOk(t, |normals|)
    requires forall i :: 0 <= i < 3 ==> SameAim(normals[t.normal[i]], normals'[t.normal[i]])
    ensures Ready(normals', xyz, t) <==> Ready(normals, xyz, t)
  {
    var ns := SortedNormals(normals, t);
    assert SortedNormals(normals', t) == ns;
    var parts := PrismParts(normals[ns[2]].root < normals[ns[1]].root);
    PartReadySame(normals, normals', xyz, ns, parts[0]);
    PartReadySame(normals, normals', xyz, ns, parts[1]);
    PartReadySame(normals, normals', xyz, ns, parts[2]);
  }

  /** The number of active normals. */
  ghost function Active(normals: seq<Normal>): nat {
    if normals == [] then 0 else Active(normals[..|normals| - 1]) + if normals[|normals| - 1].terminated then 0 else 1
  }

  lemma {:induction false} ActiveUpdate(normals: seq<Normal>, i: nat, n: Normal)
    requires i < |normals|
    ensures Active(normals[i := n]) ==
      Active(normals) - (if normals[i].terminated then 0 else 1) + (if n.terminated then 0 else 1)
  {
    var m := |normals| - 1;
    if i == m {
      assert normals[i := n][..m] == normals[..m];
    } else {
      assert normals[i := n][..m] == normals[..m][i := n];
      ActiveUpdate(normals[..m], i, n);
    }
  }

  lemma {:induction false} ActiveSame(normals: seq<Normal>, normals': seq<Normal>)
    requires |normals| == |normals'|
    requires forall i :: 0 <= i < |normals| ==> normals'[i].terminated == normals[i].terminated
    ensures Active(normals') == Active(normals)
  {
    if normals != [] {
      ActiveSame(normals[..|normals| - 1], normals'[..|normals| - 1]);
    }
  }

  /** What will be made depends on the roots only, as far as coordinates go. */
  lemma ReadyKept(normals: seq<Normal>, xyz0: seq<Point>, xyz: seq<Point>, t: Triangle)
    requires RootsValid(normals, xyz0) && NodesKept(xyz0, xyz) && TriangleOk(t, |normals|)
    ensures RootsValid(normals, xyz) && (Ready(normals, xyz, t) <==> Ready(normals, xyz0, t))
  {
    forall i | 0 <= i < |normals|
      ensures IsValid(xyz, normals[i].root) && xyz[normals[i].root] == xyz0[normals[i].root]
    {
      assert IsValid(xyz0, normals[i].root);
    }
    var ns := SortedNormals(normals, t);
    assert PrismPoints(normals, xyz, ns) == PrismPoints(normals, xyz0, ns);
  }

  /** Some tetrahedron that normal i allows on triangle t would be too small. */
  ghost predicate TooSmall(normals: seq<Normal>, xyz: seq<Point>, t: Triangle, i: int)
    requires RootsValid(normals, xyz) && TriangleOk(t, |normals|)
  {
    var ns := SortedNormals(normals, t);
    var parts := PrismParts(normals[ns[2]].root < normals[ns[1]].root);
    || (ns[parts[0].corner] == i && !PartReady(normals, xyz, ns, parts[0]))
    || (ns[parts[1].corner] == i && !PartReady(normals, xyz, ns, parts[1]))
    || (ns[parts[2].corner] == i && !PartReady(normals, xyz, ns, parts[2]))
  }

  /** Nothing but tip and termination of a normal has changed, and no termination was undone. */
  ghost predicate Tightened(n: Normal, n': Normal) {
    n' == n.(tip := n'.tip, terminated := n'.terminated) && (n.terminated ==> n'.terminated)
  }

  function Stop(normals: seq<Normal>, i: int, hit: bool): (r: seq<Normal>)
    requires 0 <= i < |normals|
    ensures |r| == |normals|
  {
    if hit then normals[i := normals[i].(terminated := true)] else normals
  }

  lemma {:induction false} StopActive(normals: seq<Normal>, i: int, hit: bool)
    requires 0 <= i < |normals| && (hit ==> !normals[i].terminated)
    ensures Active(Stop(normals, i, hit)) == Active(normals) - if hit then 1 else 0
  {
    if hit {
      ActiveUpdate(normals, i, normals[i].(terminated := true));
    }
  }
}
