/**
 Oriented triangles counted with sign. A tetrahedron counts its four faces, oriented into the cell;
 a set of cells "leaves" the triangles whose count is not zero.
 */
module Chains {
  import opened Common

  datatype Tri = Tri(a: int, b: int, c: int)

  function One(p: bool): int {
    if p then 1 else 0
  }

  /** 1 if t is the oriented triangle q, -1 if it is q reversed, 0 if it is another or degenerate. */
  function Chi(t: Tri, q: Tri): int {
    One(t == q) + One(t == Tri(q.b, q.c, q.a)) + One(t == Tri(q.c, q.a, q.b))
    - One(t == Tri(q.b, q.a, q.c)) - One(t == Tri(q.a, q.c, q.b)) - One(t == Tri(q.c, q.b, q.a))
  }

  /** On a triangle with different nodes it tells its three readings from their reverses and from all else. */
  lemma ChiTells(t: Tri, q: Tri)
    ensures q.a != q.b && q.b != q.c && q.c != q.a ==>
      (Chi(t, q) == 1 <==> t in {Tri(q.a, q.b, q.c), Tri(q.b, q.c, q.a), Tri(q.c, q.a, q.b)}) &&
      (Chi(t, q) == -1 <==> t in {Tri(q.b, q.a, q.c), Tri(q.a, q.c, q.b), Tri(q.c, q.b, q.a)}) &&
      -1 <= Chi(t, q) <= 1
    ensures q.a == q.b || q.b == q.c || q.c == q.a ==> Chi(t, q) == 0
  {
  }

  /** Chi is alternating in the nodes of the triangle. */
  lemma Alternating(a: int, b: int, c: int, q: Tri)
    ensures Chi(Tri(a, b, c), q) == Chi(Tri(b, c, a), q) == Chi(Tri(c, a, b), q)
    ensures Chi(Tri(b, a, c), q) == Chi(Tri(a, c, b), q) == Chi(Tri(c, b, a), q) == -Chi(Tri(a, b, c), q)
    ensures a == b || b == c || c == a ==> Chi(Tri(a, b, c), q) == 0
  {
  }

  /** The faces of a cell, as listed in one/grid.c. */
  function TetChi(t: seq<int>, q: Tri): int
    requires |t| == 4
  {
    Chi(Tri(t[1], t[3], t[2]), q) + Chi(Tri(t[0], t[2], t[3]), q) + Chi(Tri(t[0], t[3], t[1]), q) +
      Chi(Tri(t[0], t[1], t[2]), q)
  }

  /** A cell on four different nodes. */
  predicate FourNodes(c: seq<int>) {
    |c| == 4 && c[0] != c[1] && c[0] != c[2] && c[0] != c[3] && c[1] != c[2] && c[1] != c[3] && c[2] != c[3]
  }

  /** A cell counts each of its faces once, oriented into it, and no triangle that has another node. */
  lemma TetShowsFaces(t: seq<int>, q: Tri)
    requires FourNodes(t) && q.a != q.b && q.b != q.c && q.c != q.a
    ensures q in {Tri(t[1], t[3], t[2]), Tri(t[0], t[2], t[3]), Tri(t[0], t[3], t[1]), Tri(t[0], t[1], t[2])} ==>
      TetChi(t, q) == 1
    ensures q.a !in t || q.b !in t || q.c !in t ==> TetChi(t, q) == 0
  {
    assert t[0] in t && t[1] in t && t[2] in t && t[3] in t;
    ChiTells(Tri(t[1], t[3], t[2]), q);
    ChiTells(Tri(t[0], t[2], t[3]), q);
    ChiTells(Tri(t[0], t[3], t[1]), q);
    ChiTells(Tri(t[0], t[1], t[2]), q);
  }

  /** Two exchanges at once, and a turn around one node, keep the orientation of a cell. */
  lemma TetTurns(a: int, b: int, c: int, d: int, q: Tri)
    ensures TetChi([b, a, d, c], q) == TetChi([a, b, c, d], q)
    ensures TetChi([a, c, d, b], q) == TetChi([a, b, c, d], q)
  {
    Alternating(b, d, c, q);
    Alternating(a, c, d, q);
    Alternating(a, d, b, q);
    Alternating(a, b, c, q);
  }

  /** The twelve ways to read a cell in the same orientation. */
  ghost predicate IsTurned(c: seq<int>, t: seq<int>)
    requires |c| == 4
  {
    || t == [c[0], c[1], c[2], c[3]] || t == [c[0], c[2], c[3], c[1]] || t == [c[0], c[3], c[1], c[2]]
    || t == [c[1], c[0], c[3], c[2]] || t == [c[2], c[0], c[1], c[3]] || t == [c[3], c[0], c[2], c[1]]
    || t == [c[2], c[3], c[0], c[1]] || t == [c[3], c[1], c[0], c[2]] || t == [c[1], c[2], c[0], c[3]]
    || t == [c[3], c[2], c[1], c[0]] || t == [c[1], c[3], c[2], c[0]] || t == [c[2], c[1], c[3], c[0]]
  }

  /** All of them have the same oriented faces. */
  lemma TurnedTet(c: seq<int>, t: seq<int>, q: Tri)
    requires |c| == 4 && IsTurned(c, t)
    ensures |t| == 4 && TetChi(t, q) == TetChi(c, q)
  {
    assert c == [c[0], c[1], c[2], c[3]];
    TetTurns(c[0], c[1], c[2], c[3], q);
    TetTurns(c[0], c[2], c[3], c[1], q);
    TetTurns(c[0], c[3], c[1], c[2], q);
    TetTurns(c[1], c[0], c[3], c[2], q);
    TetTurns(c[2], c[0], c[1], c[3], q);
    TetTurns(c[3], c[0], c[2], c[1], q);
    TetTurns(c[1], c[3], c[2], c[0], q);
    TetTurns(c[2], c[1], c[3], c[0], q);
    TetTurns(c[3], c[2], c[1], c[0], q);
    TetTurns(c[1], c[2], c[0], c[3], q);
    TetTurns(c[2], c[3], c[0], c[1], q);
    TetTurns(c[3], c[1], c[0], c[2], q);
  }

  /** A cell with a repeated node leaves nothing. */
  lemma DegenerateTet(t: seq<int>, q: Tri)
    requires |t| == 4 && (t[0] == t[1] || t[0] == t[2] || t[0] == t[3] || t[1] == t[2] || t[1] == t[3] || t[2] == t[3])
    ensures TetChi(t, q) == 0
  {
    Alternating(t[1], t[3], t[2], q);
    Alternating(t[0], t[2], t[3], q);
    Alternating(t[0], t[3], t[1], q);
    Alternating(t[0], t[1], t[2], q);
  }

  /**
   What the prism over a front triangle shows at the edge from root a to root b, with tips A and B:
   two triangles that share the diagonal from the smaller root.
   */
  function Side(a: int, b: int, A: int, B: int, q: Tri): int {
    if a < b then Chi(Tri(a, A, B), q) + Chi(Tri(a, B, b), q)
    else Chi(Tri(b, A, B), q) + Chi(Tri(b, a, A), q)
  }

  /** The prisms on both sides of an edge show opposite sides. */
  lemma SideReversed(a: int, b: int, A: int, B: int, q: Tri)
    requires a != b
    ensures Side(a, b, A, B, q) == -Side(b, a, B, A, q)
  {
    Alternating(a, A, B, q);
    Alternating(a, B, b, q);
    Alternating(b, A, B, q);
    Alternating(b, a, A, q);
  }

  /** The faces added on a constrained side, with roots n[0], n[1] and tips n[2], n[3] of its two ends. */
  function SideFaces(n: seq<int>, q: Tri): int
    requires |n| == 4
  {
    if n[0] < n[1] then
      (if n[1] != n[3] then Chi(Tri(n[0], n[1], n[3]), q) else 0) +
        (if n[0] != n[2] then Chi(Tri(n[0], n[3], n[2]), q) else 0)
    else
      (if n[0] != n[2] then Chi(Tri(n[0], n[1], n[2]), q) else 0) +
        (if n[1] != n[3] then Chi(Tri(n[2], n[1], n[3]), q) else 0)
  }

  /** They are what the prism shows there; a face left out would have been degenerate. */
  lemma SideFacesShow(n: seq<int>, q: Tri)
    requires |n| == 4 && n[0] != n[1]
    ensures SideFaces(n, q) == Side(n[1], n[0], n[3], n[2], q)
  {
    Alternating(n[0], n[1], n[3], q);
    Alternating(n[0], n[3], n[2], q);
    Alternating(n[0], n[1], n[2], q);
    Alternating(n[2], n[1], n[3], q);
  }

  /** What a prism leaves: bottom, reversed top and three sides. */
  function PrismChi(n: seq<int>, q: Tri): int
    requires |n| == 6
  {
    Chi(Tri(n[0], n[1], n[2]), q) - Chi(Tri(n[3], n[4], n[5]), q)
    + Side(n[0], n[1], n[3], n[4], q) + Side(n[1], n[2], n[4], n[5], q) + Side(n[2], n[0], n[5], n[3], q)
  }

  lemma PrismBoundaryDown(n: seq<int>, q: Tri)
    requires |n| == 6 && n[0] < n[2] < n[1]
    ensures TetChi([n[0], n[4], n[5], n[3]], q) + TetChi([n[2], n[0], n[4], n[5]], q) +
      TetChi([n[2], n[0], n[1], n[4]], q)
      == PrismChi(n, q)
  {
    Alternating(n[3], n[4], n[5], q);
    Alternating(n[0], n[1], n[2], q);
    Alternating(n[0], n[4], n[5], q);
    Alternating(n[2], n[0], n[4], q);
    Alternating(n[0], n[4], n[1], q);
    Alternating(n[2], n[5], n[0], q);
    Alternating(n[2], n[1], n[4], q);
    Alternating(n[2], n[4], n[5], q);
  }

  lemma PrismBoundaryUp(n: seq<int>, q: Tri)
    requires |n| == 6 && n[0] < n[1] < n[2]
    ensures TetChi([n[0], n[4], n[5], n[3]], q) + TetChi([n[0], n[1], n[5], n[4]], q) +
      TetChi([n[2], n[0], n[1], n[5]], q)
      == PrismChi(n, q)
  {
    Alternating(n[3], n[4], n[5], q);
    Alternating(n[0], n[1], n[2], q);
    Alternating(n[0], n[4], n[5], q);
    Alternating(n[0], n[1], n[5], q);
    Alternating(n[1], n[4], n[5], q);
    Alternating(n[0], n[4], n[1], q);
    Alternating(n[2], n[5], n[0], q);
    Alternating(n[2], n[1], n[5], q);
  }

  /** Rotating a prism changes nothing it leaves. */
  lemma PrismRotated(n: seq<int>, q: Tri)
    requires |n| == 6
    ensures PrismChi([n[1], n[2], n[0], n[4], n[5], n[3]], q) == PrismChi(n, q)
    ensures PrismChi([n[2], n[0], n[1], n[5], n[3], n[4]], q) == PrismChi(n, q)
  {
    Alternating(n[0], n[1], n[2], q);
    Alternating(n[3], n[4], n[5], q);
  }

  /** A sum over directed edges. */
  ghost function EdgeSum(edges: seq<(int, int)>, w: ((int, int)) -> int): int {
    if edges == [] then 0 else EdgeSum(edges[..|edges| - 1], w) + w(edges[|edges| - 1])
  }

  ghost predicate Even(all: multiset<(int, int)>) {
    forall u :: Unfold(u) ==> forall a, b :: all[(a, b)] == all[(b, a)]
  }

  lemma EvenAt(all: multiset<(int, int)>, a: int, b: int)
    requires Even(all)
    ensures all[(a, b)] == all[(b, a)]
  {
    assert Unfold(0);
  }

  /** Every directed edge is there as often as its reverse, and joins two different ends. */
  ghost predicate Balanced(edges: seq<(int, int)>) {
    && Even(multiset(edges))
    && (forall k :: 0 <= k < |edges| ==> edges[k].0 != edges[k].1)
  }

  ghost predicate Antisymmetric(edges: seq<(int, int)>, w: ((int, int)) -> int) {
    forall k :: 0 <= k < |edges| ==> w(edges[k]) == -w((edges[k].1, edges[k].0))
  }

  lemma {:induction false} EdgeSumWithout(edges: seq<(int, int)>, k: nat, w: ((int, int)) -> int)
    requires k < |edges|
    ensures EdgeSum(edges[..k] + edges[k + 1..], w) == EdgeSum(edges, w) - w(edges[k])
  {
    var m := |edges| - 1;
    var rest := edges[..k] + edges[k + 1..];
    if k == m {
      assert rest == edges[..m];
    } else {
      assert rest[..|rest| - 1] == edges[..m][..k] + edges[..m][k + 1..];
      EdgeSumWithout(edges[..m], k, w);
    }
  }

  /** Taking an edge and its reverse out of a balanced multiset. */
  lemma StillBalanced(all: multiset<(int, int)>, rest: multiset<(int, int)>, a: int, b: int)
    requires Even(all) && a != b && all == rest + multiset{(b, a)} + multiset{(a, b)}
    ensures Even(rest)
  {
    forall i, j ensures rest[(i, j)] == rest[(j, i)] {
      EvenAt(all, i, j);
    }
  }

  lemma WithoutMembers(edges: seq<(int, int)>, k: nat, j: nat)
    requires edges != [] && k < |edges| - 1
    ensures j < |edges| - 2 ==>
      var init := edges[..|edges| - 1]; (init[..k] + init[k + 1..])[j] == edges[if j < k then j else j + 1]
  {
  }

  lemma WithoutTwo(edges: seq<(int, int)>, k: nat)
    requires edges != [] && k < |edges| - 1
    ensures var init := edges[..|edges| - 1];
      multiset(edges) == multiset(init[..k] + init[k + 1..]) + multiset{edges[k]} + multiset{edges[|edges| - 1]}
  {
    var m := |edges| - 1;
    assert edges == edges[..m] + [edges[m]];
    MultisetRemoveAt(edges[..m], k);
  }

  lemma BalancedWithout(edges: seq<(int, int)>, k: nat) returns (rest: seq<(int, int)>)
    requires Balanced(edges) && edges != [] && k < |edges| - 1
    requires edges[k] == (edges[|edges| - 1].1, edges[|edges| - 1].0)
    ensures rest == edges[..|edges| - 1][..k] + edges[..|edges| - 1][k + 1..] && Balanced(rest)
    ensures forall j :: 0 <= j < |rest| ==> rest[j] in edges
  {
    var m := |edges| - 1;
    rest := edges[..m][..k] + edges[..m][k + 1..];
    WithoutTwo(edges, k);
    StillBalanced(multiset(edges), multiset(rest), edges[m].0, edges[m].1);
    forall j | 0 <= j < |rest| ensures rest[j] in edges {
      WithoutMembers(edges, k, j);
    }
  }

  /** Over a balanced set of edges, opposite contributions cancel. */
  lemma {:induction false} BalancedCancels(edges: seq<(int, int)>, w: ((int, int)) -> int)
    requires Balanced(edges) && Antisymmetric(edges, w)
    ensures EdgeSum(edges, w) == 0
    decreases |edges|
  {
    if edges != [] {
      var m := |edges| - 1;
      var e := edges[m];
      assert e in multiset(edges);
      EvenAt(multiset(edges), e.0, e.1);
      assert (e.1, e.0) in multiset(edges) && (e.1, e.0) in edges;
      var k :| 0 <= k < |edges| && edges[k] == (e.1, e.0);
      var rest := BalancedWithout(edges, k);
      forall j | 0 <= j < |rest| ensures w(rest[j]) == -w((rest[j].1, rest[j].0)) {
        var i :| 0 <= i < |edges| && edges[i] == rest[j];
      }
      BalancedCancels(rest, w);
      EdgeSumWithout(edges[..m], k, w);
    }
  }
}
