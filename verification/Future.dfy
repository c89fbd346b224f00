/**
 layerTerminateFutureNegativeCellNormals of mesherx/layer.c: normals are terminated until the next
 advance can make only tetrahedra that are large enough.
 */
module FutureCells {
  import opened Common
  import opened Geometry
  import opened NodeStore
  import opened Chains
  import opened Front
  import opened AdvancingLayer

  /** Three nodes of their own, for the tips tried out. */
  ghost predicate SavedOk(saved: seq<int>, xyz0: seq<Point>, xyz: seq<Point>) {
    && |saved| == 3 && saved[0] != saved[1] && saved[1] != saved[2] && saved[2] != saved[0]
    && forall k :: 0 <= k < 3 ==> IsValid(xyz, saved[k]) && !IsValid(xyz0, saved[k])
  }

  /** The tip tried out for a normal. */
  ghost predicate TriedOut(n: Normal, node: int, xyz0: seq<Point>, xyz: seq<Point>) {
    InPlace(n, xyz0, xyz) && n.tip == if n.terminated then n.root else node
  }

  /** While a triangle is looked at, normals keep all but their tips. */
  ghost predicate SameButTips(normals: seq<Normal>, normals': seq<Normal>) {
    |normals'| == |normals| && forall i :: 0 <= i < |normals| ==> normals'[i] == normals[i].(tip := normals'[i].tip)
  }

  ghost predicate OneTip(normals: seq<Normal>, normals': seq<Normal>, i: nat) {
    i < |normals| == |normals'| && normals' == normals[i := normals[i].(tip := normals'[i].tip)]
  }

  ghost predicate OneMoved(xyz: seq<Point>, xyz': seq<Point>, node: int) {
    && |xyz'| == |xyz| && IsValid(xyz, node) && IsValid(xyz', node)
    && forall m :: 0 <= m < |xyz| && m != node ==> xyz'[m] == xyz[m]
  }

  /** The handle for what becomes of tips. */
  ghost predicate OpenTips(u: int) {
    true
  }

  /** The tips of the normals of a triangle, and no others, are cleared. Kept folded. */
  ghost predicate TipsCleared(normals: seq<Normal>, normals': seq<Normal>, ns: seq<int>) {
    |normals'| == |normals| && forall u :: OpenTips(u) ==>
      forall i :: 0 <= i < |normals| ==> normals'[i].tip == if i in ns then EMPTY else normals[i].tip
  }

  /** The tips of all other normals are as they were. Kept folded. */
  ghost predicate TipsKeptBut(normals: seq<Normal>, normals': seq<Normal>, ns: seq<int>) {
    |normals'| == |normals| && forall u :: OpenTips(u) ==>
      forall i :: 0 <= i < |normals| && i !in ns ==> normals'[i].tip == normals[i].tip
  }

  /** Tips are as they were or cleared. Kept folded. */
  ghost predicate TipsKeptOrCleared(normals: seq<Normal>, normals': seq<Normal>) {
    |normals'| == |normals| && forall u :: OpenTips(u) ==>
      forall i :: 0 <= i < |normals| ==> normals'[i].tip == normals[i].tip || normals'[i].tip == EMPTY
  }

  lemma ClearedOrKept(a: seq<Normal>, b: seq<Normal>, d: seq<Normal>, ns: seq<int>)
    requires TipsKeptOrCleared(a, b) && TipsCleared(b, d, ns)
    ensures TipsKeptOrCleared(a, d)
  {
    assert OpenTips(0);
  }

  lemma KeptOrClearedTwice(a: seq<Normal>, b: seq<Normal>, d: seq<Normal>)
    requires TipsKeptOrCleared(a, b) && TipsKeptOrCleared(b, d)
    ensures TipsKeptOrCleared(a, d)
  {
    assert OpenTips(0);
  }

  lemma ThreeTipsOnly(n0: seq<Normal>, n1: seq<Normal>, n2: seq<Normal>, n3: seq<Normal>, ns: seq<int>)
    requires |ns| == 3 && ns[0] >= 0 && ns[1] >= 0 && ns[2] >= 0 && OneTip(n0, n1, ns[0]) && OneTip(n1, n2, ns[1]) &&
      OneTip(n2, n3, ns[2])
    ensures TipsKeptBut(n0, n3, ns)
  {
    assert ns[0] in ns && ns[1] in ns && ns[2] in ns;
  }

  lemma ThreeTips(n0: seq<Normal>, n1: seq<Normal>, n2: seq<Normal>, n3: seq<Normal>, ns: seq<int>)
    requires |ns| == 3 && (forall i :: 0 <= i < 3 ==> 0 <= ns[i] < |n0|) && ns[0] != ns[1] && ns[1] != ns[2]
    requires ns[2] != ns[0]
    requires OneTip(n0, n1, ns[0]) && OneTip(n1, n2, ns[1]) && OneTip(n2, n3, ns[2])
    ensures SameButTips(n0, n3) && n3[ns[0]] == n1[ns[0]] && n3[ns[1]] == n2[ns[1]]
  {
  }

  lemma ThreeMoved(saved: seq<int>, xyz0: seq<Point>, x0: seq<Point>, x1: seq<Point>, x2: seq<Point>, x3: seq<Point>)
    requires SavedOk(saved, xyz0, x0) && NodesKept(xyz0, x0)
    requires OneMoved(x0, x1, saved[0]) && OneMoved(x1, x2, saved[1]) && OneMoved(x2, x3, saved[2])
    ensures SavedOk(saved, xyz0, x3) && NodesKept(xyz0, x3) && SameNodes(x0, x3)
  {
  }

  /** The same places of the node table are valid. */
  ghost predicate SameNodes(xyz: seq<Point>, xyz': seq<Point>) {
    |xyz'| == |xyz| && forall m :: IsValid(xyz', m) <==> IsValid(xyz, m)
  }

  /** The nodes while tips are tried out: one more is moved. */
  lemma StillKept(saved: seq<int>, xyz0: seq<Point>, xyz: seq<Point>, xyz': seq<Point>, k: nat)
    requires SavedOk(saved, xyz0, xyz) && NodesKept(xyz0, xyz) && k < 3 && OneMoved(xyz, xyz', saved[k])
    ensures SavedOk(saved, xyz0, xyz') && NodesKept(xyz0, xyz')
  {
  }

  lemma CanTry(normals: seq<Normal>, xyz0: seq<Point>, t: Triangle, k: nat)
    requires RootsValid(normals, xyz0) && TipsPlaceable(normals, xyz0) && TriangleOk(t, |normals|) && k < 3
    ensures var n := normals[t.normal[k]]; IsValid(xyz0, n.root) && TipPoint(xyz0, n).x != DBL_MAX
  {
    assert IsValid(xyz0, normals[t.normal[k]].root);
  }

  /** The tip of one normal of a triangle. */
  method TryTip(l: Layer, i: nat, node: int, ghost xyz0: seq<Point>)
    requires l.ValidTables() && i < |l.normal| && IsValid(xyz0, l.normal[i].root) && NodesKept(xyz0, l.grid.nodes.xyz)
    requires TipPoint(xyz0, l.normal[i]).x != DBL_MAX
    requires IsValid(l.grid.nodes.xyz, node) && !IsValid(xyz0, node)
    modifies l`normal, l.grid.nodes`xyz
    ensures l.ValidTables() && OneTip(old(l.normal), l.normal, i)
    ensures TriedOut(l.normal[i], node, xyz0, l.grid.nodes.xyz)
    ensures OneMoved(old(l.grid.nodes.xyz), l.grid.nodes.xyz, node)
  {
    var root := l.normal[i].root;
    assert IsValid(l.grid.nodes.xyz, root) && l.grid.nodes.xyz[root] == xyz0[root];
    if l.normal[i].terminated {
      l.normal := l.normal[i := l.normal[i].(tip := root)];
    } else {
      l.PlaceNode(node, Ahead(l.grid.nodes.xyz[root], l.normal[i]));
      l.normal := l.normal[i := l.normal[i].(tip := node)];
    }
  }

  lemma StillTriedOut(n: Normal, node: int, xyz0: seq<Point>, xyz: seq<Point>, xyz': seq<Point>, moved: int)
    requires TriedOut(n, node, xyz0, xyz) && moved != node && !IsValid(xyz0, moved) && |xyz'| == |xyz|
    requires forall m :: 0 <= m < |xyz| && m != moved ==> xyz'[m] == xyz[m]
    ensures TriedOut(n, node, xyz0, xyz')
  {
  }

  lemma AllTried(t: Triangle, saved: seq<int>, xyz0: seq<Point>, n0: seq<Normal>, n1: seq<Normal>, n2: seq<Normal>,
                 n3: seq<Normal>,
                 x0: seq<Point>, x1: seq<Point>, x2: seq<Point>, x3: seq<Point>)
    requires TriangleOk(t, |n0|) && SavedOk(saved, xyz0, x0) && NodesKept(xyz0, x0)
    requires OneTip(n0, n1, t.normal[0]) && OneTip(n1, n2, t.normal[1]) && OneTip(n2, n3, t.normal[2])
    requires OneMoved(x0, x1, saved[0]) && OneMoved(x1, x2, saved[1]) && OneMoved(x2, x3, saved[2])
    requires TriedOut(n1[t.normal[0]], saved[0], xyz0, x1) && TriedOut(n2[t.normal[1]], saved[1], xyz0, x2)
    requires TriedOut(n3[t.normal[2]], saved[2], xyz0, x3)
    ensures SameButTips(n0, n3) && AllInPlace(n3, t.normal, xyz0, x3)
    ensures SavedOk(saved, xyz0, x3) && NodesKept(xyz0, x3) && SameNodes(x0, x3)
  {
    ThreeTips(n0, n1, n2, n3, t.normal);
    ThreeMoved(saved, xyz0, x0, x1, x2, x3);
    StillTriedOut(n1[t.normal[0]], saved[0], xyz0, x1, x2, saved[1]);
    StillTriedOut(n1[t.normal[0]], saved[0], xyz0, x2, x3, saved[2]);
    StillTriedOut(n2[t.normal[1]], saved[1], xyz0, x2, x3, saved[2]);
  }

  /** The tips of the three normals of a triangle. */
  method TryTips(l: Layer, t: Triangle, saved: seq<int>, ghost xyz0: seq<Point>)
    requires l.ValidTables() && TriangleOk(t, |l.normal|) && RootsValid(l.normal, xyz0) && TipsPlaceable(l.normal, xyz0)
    requires SavedOk(saved, xyz0, l.grid.nodes.xyz) && NodesKept(xyz0, l.grid.nodes.xyz)
    modifies l`normal, l.grid.nodes`xyz
    ensures l.ValidTables() && SameButTips(old(l.normal), l.normal)
    ensures SavedOk(saved, xyz0, l.grid.nodes.xyz) && NodesKept(xyz0, l.grid.nodes.xyz)
    ensures SameNodes(old(l.grid.nodes.xyz), l.grid.nodes.xyz)
    ensures AllInPlace(l.normal, t.normal, xyz0, l.grid.nodes.xyz)
    ensures TipsKeptBut(old(l.normal), l.normal, t.normal)
  {
    CanTry(l.normal, xyz0, t, 0);
    CanTry(l.normal, xyz0, t, 1);
    CanTry(l.normal, xyz0, t, 2);
    ghost var n0, x0 := l.normal, l.grid.nodes.xyz;
    TryTip(l, t.normal[0], saved[0], xyz0);
    ghost var n1, x1 := l.normal, l.grid.nodes.xyz;
    StillKept(saved, xyz0, x0, x1, 0);
    TryTip(l, t.normal[1], saved[1], xyz0);
    ghost var n2, x2 := l.normal, l.grid.nodes.xyz;
    StillKept(saved, xyz0, x1, x2, 1);
    TryTip(l, t.normal[2], saved[2], xyz0);
    AllTried(t, saved, xyz0, n0, n1, n2, l.normal, x0, x1, x2, l.grid.nodes.xyz);
    ThreeTipsOnly(n0, n1, n2, l.normal, t.normal);
  }

  /** A normal is terminated if its tetrahedron is too small. */
  method TerminateIfSmall(l: Layer, n: seq<int>, ns: seq<int>, part: Part) returns (hit: bool)
    requires |n| == 6 && |part.tet| == 4 && part.corner < 3 && forall i :: 0 <= i < 4 ==> part.tet[i] < 6
    requires |ns| == 3 && forall i :: 0 <= i < 3 ==> 0 <= ns[i] < |l.normal|
    modifies l`normal
    ensures hit == Refused(l.grid.nodes.xyz, n, part) && l.normal == Stop(old(l.normal), ns[part.corner], hit)
  {
    hit := n[part.corner] != n[part.corner + 3] && VOLUME_LIMIT > GridVolume(l.grid.nodes.xyz, Pick(n, part.tet));
    if hit {
      var i := ns[part.corner];
      l.normal := l.normal[i := l.normal[i].(terminated := true)];
    }
  }

  ghost function Stopped(normals: seq<Normal>, ns: seq<int>, parts: seq<Part>, hits: seq<bool>): (r: seq<Normal>)
    requires |ns| == |parts| == |hits| == 3
    requires (forall i :: 0 <= i < 3 ==> 0 <= ns[i] < |normals| && parts[i].corner < 3)
    ensures |r| == |normals|
  {
    Stop(Stop(Stop(normals, ns[parts[0].corner], hits[0]), ns[parts[1].corner], hits[1]), ns[parts[2].corner], hits[2])
  }

  ghost function Hits(xyz: seq<Point>, n: seq<int>, down: bool): (hits: seq<bool>)
    requires |n| == 6
    ensures |hits| == 3
  {
    var parts := PrismParts(down);
    [Refused(xyz, n, parts[0]), Refused(xyz, n, parts[1]), Refused(xyz, n, parts[2])]
  }

  /** The three tests of a triangle; n and ns have the smallest root first. */
  method TestParts(l: Layer, n: seq<int>, ns: seq<int>) returns (newTerminated: nat)
    requires |n| == 6 && |ns| == 3 && forall i :: 0 <= i < 3 ==> 0 <= ns[i] < |l.normal|
    modifies l`normal
    ensures var hits := Hits(l.grid.nodes.xyz, n, n[2] < n[1]);
      && newTerminated == One(hits[0]) + One(hits[1]) + One(hits[2])
      && l.normal == Stopped(old(l.normal), ns, PrismParts(n[2] < n[1]), hits)
  {
    var first, second, third;
    if n[2] < n[1] {
      first := TerminateIfSmall(l, n, ns, Part([0, 4, 5, 3], 0));
      second := TerminateIfSmall(l, n, ns, Part([2, 0, 4, 5], 2));
      third := TerminateIfSmall(l, n, ns, Part([2, 0, 1, 4], 1));
    } else {
      first := TerminateIfSmall(l, n, ns, Part([0, 4, 5, 3], 0));
      second := TerminateIfSmall(l, n, ns, Part([0, 1, 5, 4], 1));
      third := TerminateIfSmall(l, n, ns, Part([2, 0, 1, 5], 2));
    }
    newTerminated := One(first) + One(second) + One(third);
  }

  lemma ClearStep(a: seq<Normal>, b: seq<Normal>, d: seq<Normal>, ns: seq<int>, norm: nat)
    requires |ns| == 3 && norm < 3 && TipsCleared(a, b, ns[..norm]) && 0 <= ns[norm] < |b|
    requires d == b[ns[norm] := b[ns[norm]].(tip := EMPTY)]
    ensures TipsCleared(a, d, ns[..norm + 1])
  {
    assert OpenTips(0);
    assert ns[..norm + 1] == ns[..norm] + [ns[norm]];
  }

  /** The tips are cleared again. */
  method ClearTips(l: Layer, ns: seq<int>)
    requires |ns| == 3 && forall i :: 0 <= i < 3 ==> 0 <= ns[i] < |l.normal|
    modifies l`normal
    ensures SameButTips(old(l.normal), l.normal) && TipsCleared(old(l.normal), l.normal, ns)
  {
    for norm := 0 to 3
      invariant SameButTips(old(l.normal), l.normal) && TipsCleared(old(l.normal), l.normal, ns[..norm])
    {
      ghost var before := l.normal;
      l.normal := l.normal[ns[norm] := l.normal[ns[norm]].(tip := EMPTY)];
      ClearStep(old(l.normal), before, l.normal, ns, norm);
    }
    assert ns[..3] == ns;
  }

  /**
   The verdict on one triangle, kept folded: exactly the normals of tetrahedra that would be too small are
   terminated.
   */
  ghost predicate Judged(normals: seq<Normal>, xyz0: seq<Point>, t: Triangle, normals': seq<Normal>, newTerminated: int)
    requires RootsValid(normals, xyz0) && TriangleOk(t, |normals|)
  {
    && |normals'| == |normals|
    && forall u :: Unfold(u) ==>
         && (forall i :: 0 <= i < |normals| ==> Tightened(normals[i], normals'[i]))
         && (forall i :: 0 <= i < |normals| ==>
           (normals'[i].terminated <==> normals[i].terminated || TooSmall(normals, xyz0, t, i)))
         && newTerminated == Active(normals) - Active(normals')
         && (newTerminated == 0 <==> Ready(normals, xyz0, t))
  }

  /** Three different normals are terminated where they are hit. */
  ghost predicate CanStop(normals: seq<Normal>, ns: seq<int>, parts: seq<Part>, hits: seq<bool>) {
    && |ns| == |parts| == |hits| == 3 && (forall i :: 0 <= i < 3 ==> 0 <= ns[i] < |normals| && parts[i].corner < 3)
    && var a, b, c := ns[parts[0].corner], ns[parts[1].corner], ns[parts[2].corner];
    && a != b && b != c && c != a
    && (hits[0] ==> !normals[a].terminated)
    && (hits[1] ==> !normals[b].terminated)
    && (hits[2] ==> !normals[c].terminated)
  }

  lemma {:induction false} StoppedActive(normals: seq<Normal>, ns: seq<int>, parts: seq<Part>, hits: seq<bool>)
    requires CanStop(normals, ns, parts, hits)
    ensures Active(Stopped(normals, ns, parts, hits)) == Active(normals) - One(hits[0]) - One(hits[1]) - One(hits[2])
  {
    var a, b, c := ns[parts[0].corner], ns[parts[1].corner], ns[parts[2].corner];
    var one := Stop(normals, a, hits[0]);
    var two := Stop(one, b, hits[1]);
    StopActive(normals, a, hits[0]);
    assert one[b] == normals[b];
    StopActive(one, b, hits[1]);
    assert two[c] == normals[c];
    StopActive(two, c, hits[2]);
  }

  lemma StoppedAt(normals: seq<Normal>, ns: seq<int>, parts: seq<Part>, hits: seq<bool>, i: nat)
    requires CanStop(normals, ns, parts, hits) && i < |normals|
    ensures Stopped(normals, ns, parts, hits)[i] ==
      normals[i].(terminated := normals[i].terminated || IsHit(ns, parts, hits, i))
  {
  }

  ghost predicate IsHit(ns: seq<int>, parts: seq<Part>, hits: seq<bool>, i: int)
    requires |ns| == |parts| == |hits| == 3 && forall i :: 0 <= i < 3 ==> parts[i].corner < 3
  {
    || (hits[0] && ns[parts[0].corner] == i)
    || (hits[1] && ns[parts[1].corner] == i)
    || (hits[2] && ns[parts[2].corner] == i)
  }

  /** The parts of a prism are tested against different normals. */
  lemma CornersDiffer(down: bool)
    ensures var p := PrismParts(down);
            p[0].corner != p[1].corner && p[1].corner != p[2].corner && p[2].corner != p[0].corner
  {
  }

  /** The tests a triangle will fail. */
  ghost function Foreseen(normals: seq<Normal>, xyz0: seq<Point>, ns: seq<int>, down: bool): (hits: seq<bool>)
    requires RootsValid(normals, xyz0) && |ns| == 3 && forall i :: 0 <= i < 3 ==> 0 <= ns[i] < |normals|
    ensures |hits| == 3
  {
    var parts := PrismParts(down);
    [!PartReady(normals, xyz0, ns, parts[0]), !PartReady(normals, xyz0, ns, parts[1]),
      !PartReady(normals, xyz0, ns, parts[2])]
  }

  lemma ForeseenIsTooSmall(normals: seq<Normal>, xyz0: seq<Point>, t: Triangle)
    requires RootsValid(normals, xyz0) && TriangleOk(t, |normals|)
    ensures var ns := SortedNormals(normals, t); var down := normals[ns[2]].root < normals[ns[1]].root;
      var hits := Foreseen(normals, xyz0, ns, down);
      && (forall i :: IsHit(ns, PrismParts(down), hits, i) <==> TooSmall(normals, xyz0, t, i))
      && (!hits[0] && !hits[1] && !hits[2] <==> Ready(normals, xyz0, t))
      && forall k :: 0 <= k < 3 && hits[k] ==> !normals[ns[PrismParts(down)[k].corner]].terminated
  {
  }

  lemma Verdict(normals: seq<Normal>, xyz0: seq<Point>, t: Triangle, tried: seq<Normal>, xyz: seq<Point>,
                cleared: seq<Normal>)
    requires RootsValid(normals, xyz0) && TriangleOk(t, |normals|) && SameButTips(normals, tried)
    requires AllInPlace(tried, t.normal, xyz0, xyz)
    requires var ns := SortedNormals(tried, t); var n := Roots(tried, ns) + Tips(tried, ns);
      SameButTips(Stopped(tried, ns, PrismParts(n[2] < n[1]), Hits(xyz, n, n[2] < n[1])), cleared)
    ensures var ns := SortedNormals(tried, t); var n := Roots(tried, ns) + Tips(tried, ns); var hits := Hits(xyz, n,
                                    n[2] < n[1]);
      Judged(normals, xyz0, t, cleared, One(hits[0]) + One(hits[1]) + One(hits[2]))
  {
    HitsAre(normals, xyz0, t, tried, xyz);
    var ns := SortedNormals(normals, t);
    var down := normals[ns[2]].root < normals[ns[1]].root;
    var parts, hits := PrismParts(down), Foreseen(normals, xyz0, ns, down);
    ForeseenHolds(normals, xyz0, t, ns, down, parts, hits);
    JudgedBy(normals, xyz0, t, tried, ns, parts, hits, cleared);
  }

  /** The tests of a triangle and what they will say; kept folded. */
  ghost predicate IsForeseen(normals: seq<Normal>, xyz0: seq<Point>, t: Triangle, ns: seq<int>, parts: seq<Part>,
                             hits: seq<bool>)
    requires RootsValid(normals, xyz0) && TriangleOk(t, |normals|)
  {
    && |ns| == |parts| == |hits| == 3 && (forall i :: 0 <= i < 3 ==> 0 <= ns[i] < |normals| && parts[i].corner < 3)
    && forall u :: Unfold(u) ==>
         && ns[parts[0].corner] != ns[parts[1].corner] && ns[parts[1].corner] != ns[parts[2].corner]
         && ns[parts[2].corner] != ns[parts[0].corner]
         && (forall k :: 0 <= k < 3 && hits[k] ==> !normals[ns[parts[k].corner]].terminated)
         && (forall i :: IsHit(ns, parts, hits, i) <==> TooSmall(normals, xyz0, t, i))
         && (!hits[0] && !hits[1] && !hits[2] <==> Ready(normals, xyz0, t))
  }

  lemma ForeseenHolds(normals: seq<Normal>, xyz0: seq<Point>, t: Triangle, ns: seq<int>, down: bool, parts: seq<Part>,
                      hits: seq<bool>)
    requires RootsValid(normals, xyz0) && TriangleOk(t, |normals|) && ns == SortedNormals(normals, t)
    requires down == (normals[ns[2]].root < normals[ns[1]].root)
    requires parts == PrismParts(down) && hits == Foreseen(normals, xyz0, ns, down)
    ensures IsForeseen(normals, xyz0, t, ns, parts, hits)
  {
    ForeseenIsTooSmall(normals, xyz0, t);
    CornersDiffer(down);
  }

  lemma JudgedBy(normals: seq<Normal>, xyz0: seq<Point>, t: Triangle, tried: seq<Normal>, ns: seq<int>,
                 parts: seq<Part>,
                 hits: seq<bool>, cleared: seq<Normal>)
    requires RootsValid(normals, xyz0) && TriangleOk(t, |normals|) && SameButTips(normals, tried)
    requires IsForeseen(normals, xyz0, t, ns, parts, hits) && SameButTips(Stopped(tried, ns, parts, hits), cleared)
    ensures Judged(normals, xyz0, t, cleared, One(hits[0]) + One(hits[1]) + One(hits[2]))
  {
    assert Unfold(0);
    assert CanStop(tried, ns, parts, hits);
    StoppedActive(tried, ns, parts, hits);
    ActiveSame(Stopped(tried, ns, parts, hits), cleared);
    ActiveSame(normals, tried);
    forall i | 0 <= i < |normals|
      ensures Tightened(normals[i], cleared[i])
      ensures cleared[i].terminated <==> normals[i].terminated || TooSmall(normals, xyz0, t, i)
    {
      StoppedAt(tried, ns, parts, hits, i);
      assert cleared[i] == Stopped(tried, ns, parts, hits)[i].(tip := cleared[i].tip);
      assert tried[i] == normals[i].(tip := tried[i].tip);
    }
  }

  /** The tests of a triangle find what was foreseen. */
  lemma HitsAre(normals: seq<Normal>, xyz0: seq<Point>, t: Triangle, tried: seq<Normal>, xyz: seq<Point>)
    requires RootsValid(normals, xyz0) && TriangleOk(t, |normals|) && SameButTips(normals, tried)
    requires AllInPlace(tried, t.normal, xyz0, xyz)
    ensures var ns := SortedNormals(normals, t); var n := Roots(tried, ns) + Tips(tried, ns);
      && SortedNormals(tried, t) == ns
      && (n[2] < n[1] <==> normals[ns[2]].root < normals[ns[1]].root)
      && Hits(xyz, n, n[2] < n[1]) == Foreseen(normals, xyz0, ns, n[2] < n[1])
  {
    var ns := SortedNormals(normals, t);
    assert SortedNormals(tried, t) == ns;
    var n := Roots(tried, ns) + Tips(tried, ns);
    var parts := PrismParts(n[2] < n[1]);
    assert RootsValid(tried, xyz0);
    assert AllInPlace(tried, ns, xyz0, xyz);
    HitIs(normals, xyz0, tried, xyz, ns, parts[0]);
    HitIs(normals, xyz0, tried, xyz, ns, parts[1]);
    HitIs(normals, xyz0, tried, xyz, ns, parts[2]);
  }

  lemma HitIs(normals: seq<Normal>, xyz0: seq<Point>, tried: seq<Normal>, xyz: seq<Point>, ns: seq<int>, part: Part)
    requires RootsValid(normals, xyz0) && RootsValid(tried, xyz0) && SameButTips(normals, tried)
    requires AllInPlace(tried, ns, xyz0, xyz)
    requires |part.tet| == 4 && part.corner < 3 && forall i :: 0 <= i < 4 ==> part.tet[i] < 6
    ensures Refused(xyz, Roots(tried, ns) + Tips(tried, ns), part) == !PartReady(normals, xyz0, ns, part)
  {
    PartRefused(tried, xyz0, xyz, ns, part);
    PartReadySame(normals, tried, xyz0, ns, part);
  }

  /** The normals of a triangle tried out and tested. */
  ghost predicate Tested(normals: seq<Normal>, xyz0: seq<Point>, t: Triangle, tried: seq<Normal>, xyz: seq<Point>,
                         ns: seq<int>,
                         normals': seq<Normal>, newTerminated: int)
    requires TriangleOk(t, |normals|)
  {
    && SameButTips(normals, tried) && AllInPlace(tried, t.normal, xyz0, xyz) && ns == SortedNormals(tried, t)
    && var n := Roots(tried, ns) + Tips(tried, ns);
    && var hits := Hits(xyz, n, n[2] < n[1]);
    && newTerminated == One(hits[0]) + One(hits[1]) + One(hits[2])
    && normals' == Stopped(tried, ns, PrismParts(n[2] < n[1]), hits)
  }

  /** The prism of a triangle whose tips have been tried out. */
  method TestTried(l: Layer, t: Triangle, ghost normals: seq<Normal>, ghost xyz0: seq<Point>)
    returns (ns: seq<int>, newTerminated: nat)
    requires l.ValidTables() && TriangleOk(t, |normals|) && SameButTips(normals, l.normal)
    requires AllInPlace(l.normal, t.normal, xyz0, l.grid.nodes.xyz)
    modifies l`normal
    ensures l.ValidTables()
    ensures Tested(normals, xyz0, t, old(l.normal), l.grid.nodes.xyz, ns, l.normal, newTerminated)
  {
    ns := l.SortTriangle(t);
    newTerminated := TestParts(l, Roots(l.normal, ns) + Tips(l.normal, ns), ns);
  }

  method TryAndTest(l: Layer, t: Triangle, saved: seq<int>, ghost xyz0: seq<Point>)
    returns (ns: seq<int>, newTerminated: nat, ghost tried: seq<Normal>)
    requires l.ValidTables() && TriangleOk(t, |l.normal|) && RootsValid(l.normal, xyz0) && TipsPlaceable(l.normal, xyz0)
    requires SavedOk(saved, xyz0, l.grid.nodes.xyz) && NodesKept(xyz0, l.grid.nodes.xyz)
    modifies l`normal, l.grid.nodes`xyz
    ensures l.ValidTables() && SavedOk(saved, xyz0, l.grid.nodes.xyz) && NodesKept(xyz0, l.grid.nodes.xyz)
    ensures SameNodes(old(l.grid.nodes.xyz), l.grid.nodes.xyz)
    ensures Tested(old(l.normal), xyz0, t, tried, l.grid.nodes.xyz, ns, l.normal, newTerminated)
    ensures TipsKeptBut(old(l.normal), tried, t.normal)
  {
    ghost var normals := l.normal;
    TryTips(l, t, saved, xyz0);
    tried := l.normal;
    ns, newTerminated := TestTried(l, t, normals, xyz0);
  }

  lemma TestedIsJudged(normals: seq<Normal>, xyz0: seq<Point>, t: Triangle, tried: seq<Normal>, xyz: seq<Point>,
                       ns: seq<int>,
                       normals': seq<Normal>, newTerminated: int, cleared: seq<Normal>)
    requires RootsValid(normals, xyz0) && TriangleOk(t, |normals|)
    requires Tested(normals, xyz0, t, tried, xyz, ns, normals', newTerminated) && SameButTips(normals', cleared)
    ensures Judged(normals, xyz0, t, cleared, newTerminated)
  {
    Verdict(normals, xyz0, t, tried, xyz, cleared);
  }

  lemma SortedMembers(normals: seq<Normal>, t: Triangle)
    requires TriangleOk(t, |normals|)
    ensures forall i :: i in SortedNormals(normals, t) <==> i in t.normal
  {
    var n, ns := t.normal, SortedNormals(normals, t);
    assert n == [n[0], n[1], n[2]] && ns == [ns[0], ns[1], ns[2]];
  }

  lemma StoppedTips(normals: seq<Normal>, ns: seq<int>, parts: seq<Part>, hits: seq<bool>)
    requires |ns| == |parts| == |hits| == 3
    requires (forall i :: 0 <= i < 3 ==> 0 <= ns[i] < |normals| && parts[i].corner < 3)
    ensures forall i :: 0 <= i < |normals| ==> Stopped(normals, ns, parts, hits)[i].tip == normals[i].tip
  {
  }

  lemma ClearedAre(normals: seq<Normal>, xyz0: seq<Point>, t: Triangle, tried: seq<Normal>, xyz: seq<Point>,
                   ns: seq<int>, tested: seq<Normal>, newTerminated: int, cleared: seq<Normal>)
    requires TriangleOk(t, |normals|) && Tested(normals, xyz0, t, tried, xyz, ns, tested, newTerminated)
    requires TipsKeptBut(normals, tried, t.normal) && TipsCleared(tested, cleared, ns)
    ensures TipsCleared(normals, cleared, t.normal)
  {
    var n := Roots(tried, ns) + Tips(tried, ns);
    StoppedTips(tried, ns, PrismParts(n[2] < n[1]), Hits(xyz, n, n[2] < n[1]));
    SortedMembers(tried, t);
    assert OpenTips(0);
  }

  /** One triangle of a pass. */
  method CheckTriangle(l: Layer, k: nat, saved: seq<int>, ghost xyz0: seq<Point>) returns (newTerminated: nat)
    requires l.ValidTables() && k < |l.triangle| && TriangleOk(l.triangle[k], |l.normal|)
    requires RootsValid(l.normal, xyz0) && TipsPlaceable(l.normal, xyz0)
    requires SavedOk(saved, xyz0, l.grid.nodes.xyz) && NodesKept(xyz0, l.grid.nodes.xyz)
    modifies l`normal, l.grid.nodes`xyz
    ensures l.ValidTables() && SavedOk(saved, xyz0, l.grid.nodes.xyz) && NodesKept(xyz0, l.grid.nodes.xyz)
    ensures SameNodes(old(l.grid.nodes.xyz), l.grid.nodes.xyz)
    ensures Judged(old(l.normal), xyz0, l.triangle[k], l.normal, newTerminated)
    ensures TipsCleared(old(l.normal), l.normal, l.triangle[k].normal)
  {
    var t := l.triangle[k];
    ghost var normals := l.normal;
    var ns;
    ghost var tried;
    ns, newTerminated, tried := TryAndTest(l, t, saved, xyz0);
    ghost var tested := l.normal;
    ClearTips(l, ns);
    assert t == l.triangle[k];
    TestedIsJudged(normals, xyz0, t, tried, l.grid.nodes.xyz, ns, tested, newTerminated, l.normal);
    ClearedAre(normals, xyz0, t, tried, l.grid.nodes.xyz, ns, tested, newTerminated, l.normal);
  }

  /** On some front that only lacks terminations of this one, normal i would make a tetrahedron too small. */
  ghost predicate IsJustified(normals: seq<Normal>, xyz0: seq<Point>, triangles: seq<Triangle>, i: int) {
    exists front: seq<Normal>, k: nat :: IsToBlame(normals, xyz0, triangles, front, k, i)
  }

  ghost predicate IsToBlame(normals: seq<Normal>, xyz0: seq<Point>, triangles: seq<Triangle>, front: seq<Normal>,
                            k: nat, i: int) {
    && |front| == |normals| && (forall j :: 0 <= j < |normals| ==> Tightened(normals[j], front[j]))
    && k < |triangles| && TriangleOk(triangles[k], |front|) && RootsValid(front, xyz0)
    && 0 <= i < |front| && !front[i].terminated && TooSmall(front, xyz0, triangles[k], i)
  }

  /** No normal is terminated without such a reason. Kept folded. */
  ghost predicate AllJustified(normals: seq<Normal>, normals': seq<Normal>, xyz0: seq<Point>,
                               triangles: seq<Triangle>) {
    |normals'| == |normals| && forall u :: Unfold(u) ==>
      forall i :: 0 <= i < |normals| && normals'[i].terminated && !normals[i].terminated ==>
        IsJustified(normals, xyz0, triangles, i)
  }

  lemma JustifiedStep(normals0: seq<Normal>, normals: seq<Normal>, normals': seq<Normal>, xyz0: seq<Point>,
                      triangles: seq<Triangle>, k: nat, more: int)
    requires AllJustified(normals0, normals, xyz0, triangles) && k < |triangles|
    requires RootsValid(normals, xyz0) && TriangleOk(triangles[k], |normals|)
    requires forall j :: 0 <= j < |normals| ==> Tightened(normals0[j], normals[j])
    requires Judged(normals, xyz0, triangles[k], normals', more)
    ensures AllJustified(normals0, normals', xyz0, triangles)
  {
    assert Unfold(0);
    forall i | 0 <= i < |normals| && normals'[i].terminated && !normals0[i].terminated
      ensures IsJustified(normals0, xyz0, triangles, i)
    {
      if !normals[i].terminated {
        assert IsToBlame(normals0, xyz0, triangles, normals, k, i);
      }
    }
  }

  /** What is justified after some terminations is justified before them. */
  lemma JustifiedBefore(a: seq<Normal>, b: seq<Normal>, d: seq<Normal>, xyz0: seq<Point>, triangles: seq<Triangle>)
    requires AllJustified(a, b, xyz0, triangles) && AllJustified(b, d, xyz0, triangles)
    requires forall i :: 0 <= i < |a| ==> Tightened(a[i], b[i])
    ensures AllJustified(a, d, xyz0, triangles)
  {
    assert Unfold(0);
    forall i | 0 <= i < |a| && d[i].terminated && !a[i].terminated ensures IsJustified(a, xyz0, triangles, i) {
      if !b[i].terminated {
        assert IsJustified(b, xyz0, triangles, i);
        var front: seq<Normal>, k: nat :| IsToBlame(b, xyz0, triangles, front, k, i);
        TightenedTwice(a, b, front);
        assert IsToBlame(a, xyz0, triangles, front, k, i);
      }
    }
  }

  /** A pass so far: nothing terminated means everything looked at is ready. */
  ghost predicate PassOk(normals0: seq<Normal>, xyz0: seq<Point>, triangles: seq<Triangle>, normals: seq<Normal>,
                         k: nat, newTerminated: int) {
    && RootsValid(normals0, xyz0) && RootsValid(normals, xyz0) && |normals| == |normals0|
    && AllOk(triangles, |normals|) && k <= |triangles|
    && (forall i :: 0 <= i < |normals| ==> Tightened(normals0[i], normals[i]))
    && newTerminated == Active(normals0) - Active(normals) >= 0
    && AllJustified(normals0, normals, xyz0, triangles)
    && (newTerminated == 0 ==> forall j :: 0 <= j < k ==> Ready(normals, xyz0, triangles[j]))
  }

  lemma PassStep(normals0: seq<Normal>, xyz0: seq<Point>, triangles: seq<Triangle>, normals: seq<Normal>, k: nat,
                 newTerminated: int,
                 normals': seq<Normal>, more: nat)
    requires PassOk(normals0, xyz0, triangles, normals, k, newTerminated) && k < |triangles|
    requires TriangleOk(triangles[k], |normals|)
    requires Judged(normals, xyz0, triangles[k], normals', more)
    ensures PassOk(normals0, xyz0, triangles, normals', k + 1, newTerminated + more)
  {
    JustifiedStep(normals0, normals, normals', xyz0, triangles, k, more);
    assert Unfold(0);
    forall i | 0 <= i < |normals'| ensures Tightened(normals0[i], normals'[i]) && IsValid(xyz0, normals'[i].root) {
      assert Tightened(normals[i], normals'[i]) && Tightened(normals0[i], normals[i]) && IsValid(xyz0, normals[i].root);
    }
    if newTerminated + more == 0 {
      NothingTerminated(normals, xyz0, triangles[k], normals');
      StillReady(normals, xyz0, triangles, k, normals');
    }
  }

  lemma StillReady(normals: seq<Normal>, xyz0: seq<Point>, triangles: seq<Triangle>, k: nat, normals': seq<Normal>)
    requires RootsValid(normals, xyz0) && RootsValid(normals', xyz0) && |normals| == |normals'|
    requires AllOk(triangles, |normals|) && k < |triangles| && TriangleOk(triangles[k], |normals|)
    requires Ready(normals, xyz0, triangles[k])
    requires forall j :: 0 <= j < k ==> Ready(normals, xyz0, triangles[j])
    requires forall i :: 0 <= i < |normals| ==> SameAim(normals[i], normals'[i])
    ensures forall j :: 0 <= j <= k ==> Ready(normals', xyz0, triangles[j])
  {
    forall j | 0 <= j <= k ensures Ready(normals', xyz0, triangles[j]) {
      assert TriangleOk(triangles[j], |normals|);
      ReadySame(normals, normals', xyz0, triangles[j]);
    }
  }

  lemma NothingTerminated(normals: seq<Normal>, xyz0: seq<Point>, t: Triangle, normals': seq<Normal>)
    requires RootsValid(normals, xyz0) && TriangleOk(t, |normals|) && Judged(normals, xyz0, t, normals', 0)
    ensures forall i :: 0 <= i < |normals| ==> SameAim(normals[i], normals'[i])
  {
    assert Unfold(0);
    forall i | 0 <= i < |normals| ensures SameAim(normals[i], normals'[i]) {
      assert Tightened(normals[i], normals'[i]);
      ForeseenIsTooSmall(normals, xyz0, t);
      assert !TooSmall(normals, xyz0, t, i);
    }
  }

  /** One pass over the front. */
  method Pass(l: Layer, saved: seq<int>, ghost xyz0: seq<Point>) returns (newTerminated: nat)
    requires l.ValidTables() && AllOk(l.triangle, |l.normal|) && RootsValid(l.normal, xyz0)
    requires TipsPlaceable(l.normal, xyz0)
    requires SavedOk(saved, xyz0, l.grid.nodes.xyz) && NodesKept(xyz0, l.grid.nodes.xyz)
    modifies l`normal, l.grid.nodes`xyz
    ensures l.ValidTables()
    ensures SavedOk(saved, xyz0, l.grid.nodes.xyz) && NodesKept(xyz0, l.grid.nodes.xyz)
    ensures SameNodes(old(l.grid.nodes.xyz), l.grid.nodes.xyz)
    ensures PassOk(old(l.normal), xyz0, l.triangle, l.normal, |l.triangle|, newTerminated)
    ensures TipsKeptOrCleared(old(l.normal), l.normal)
    ensures TipsPlaceable(l.normal, xyz0)
  {
    newTerminated := 0;
    ghost var normals0 := l.normal;
    for k := 0 to |l.triangle|
      invariant l.ValidTables()
      invariant SavedOk(saved, xyz0, l.grid.nodes.xyz) && NodesKept(xyz0, l.grid.nodes.xyz)
      invariant SameNodes(old(l.grid.nodes.xyz), l.grid.nodes.xyz)
      invariant PassOk(normals0, xyz0, l.triangle, l.normal, k, newTerminated) && TipsPlaceable(l.normal, xyz0)
      invariant TipsKeptOrCleared(normals0, l.normal)
    {
      assert TriangleOk(l.triangle[k], |l.normal|);
      ghost var normals := l.normal;
      var more := CheckTriangle(l, k, saved, xyz0);
      PassStep(normals0, xyz0, l.triangle, normals, k, newTerminated, l.normal, more);
      StillPlaceable(normals0, l.normal, xyz0);
      ClearedOrKept(normals0, normals, l.normal, l.triangle[k].normal);
      newTerminated := newTerminated + more;
    }
  }

  /** Terminating normals makes tips fall on roots only. */
  lemma StillPlaceable(normals0: seq<Normal>, normals: seq<Normal>, xyz0: seq<Point>)
    requires TipsPlaceable(normals0, xyz0) && |normals| == |normals0| && RootsValid(normals0, xyz0)
    requires forall i :: 0 <= i < |normals| ==> Tightened(normals0[i], normals[i])
    ensures TipsPlaceable(normals, xyz0)
  {
    forall i | 0 <= i < |normals| && IsValid(xyz0, normals[i].root) ensures TipPoint(xyz0, normals[i]).x != DBL_MAX {
      assert Tightened(normals0[i], normals[i]) && IsValid(xyz0, normals0[i].root);
      if !normals[i].terminated {
        SameTipPoint(normals0[i], normals[i], xyz0);
      }
    }
  }

  /** The front after terminations: all that was there is there, and no node has come or gone. */
  ghost predicate OnlyTerminated(normals0: seq<Normal>, xyz0: seq<Point>, normals: seq<Normal>, xyz: seq<Point>) {
    && |normals| == |normals0|
    && (forall i :: 0 <= i < |normals| ==> Tightened(normals0[i], normals[i]))
    && NodesKept(xyz0, xyz)
    && forall m :: IsValid(xyz, m) ==> IsValid(xyz0, m)
  }

  /** The repeated passes: each but the last leaves fewer active normals. */
  method Passes(l: Layer, saved: seq<int>, ghost xyz0: seq<Point>)
    requires l.ValidTables() && AllOk(l.triangle, |l.normal|) && RootsValid(l.normal, xyz0)
    requires TipsPlaceable(l.normal, xyz0)
    requires SavedOk(saved, xyz0, l.grid.nodes.xyz) && NodesKept(xyz0, l.grid.nodes.xyz)
    modifies l`normal, l.grid.nodes`xyz
    ensures l.ValidTables()
    ensures SavedOk(saved, xyz0, l.grid.nodes.xyz) && NodesKept(xyz0, l.grid.nodes.xyz)
    ensures forall m :: IsValid(l.grid.nodes.xyz, m) <==> IsValid(old(l.grid.nodes.xyz), m)
    ensures |l.normal| == |old(l.normal)| && RootsValid(l.normal, xyz0) && TipsPlaceable(l.normal, xyz0)
    ensures forall i :: 0 <= i < |l.normal| ==> Tightened(old(l.normal)[i], l.normal[i])
    ensures AllJustified(old(l.normal), l.normal, xyz0, l.triangle) && TipsKeptOrCleared(old(l.normal), l.normal)
    ensures AllReady(l.normal, l.triangle, xyz0)
  {
    var newTerminated := Pass(l, saved, xyz0);
    while newTerminated > 0
      invariant l.ValidTables()
      invariant SavedOk(saved, xyz0, l.grid.nodes.xyz) && NodesKept(xyz0, l.grid.nodes.xyz)
      invariant forall m :: IsValid(l.grid.nodes.xyz, m) <==> IsValid(old(l.grid.nodes.xyz), m)
      invariant |l.normal| == |old(l.normal)| && RootsValid(l.normal, xyz0) && TipsPlaceable(l.normal, xyz0)
      invariant forall i :: 0 <= i < |l.normal| ==> Tightened(old(l.normal)[i], l.normal[i])
      invariant AllJustified(old(l.normal), l.normal, xyz0, l.triangle) && TipsKeptOrCleared(old(l.normal), l.normal)
      invariant newTerminated == 0 ==> AllReady(l.normal, l.triangle, xyz0)
      decreases Active(l.normal) + One(newTerminated > 0)
    {
      ghost var normals := l.normal;
      newTerminated := Pass(l, saved, xyz0);
      TightenedTwice(old(l.normal), normals, l.normal);
      JustifiedBefore(old(l.normal), normals, l.normal, xyz0, l.triangle);
      KeptOrClearedTwice(old(l.normal), normals, l.normal);
    }
  }

  lemma TightenedTwice(a: seq<Normal>, b: seq<Normal>, c: seq<Normal>)
    requires |a| == |b| == |c|
    requires forall i :: 0 <= i < |a| ==> Tightened(a[i], b[i])
    requires forall i :: 0 <= i < |a| ==> Tightened(b[i], c[i])
    ensures forall i :: 0 <= i < |a| ==> Tightened(a[i], c[i])
  {
    forall i | 0 <= i < |a| ensures Tightened(a[i], c[i]) {
      assert Tightened(a[i], b[i]) && Tightened(b[i], c[i]);
    }
  }

  /** The three saved nodes, one after the other. */
  method SaveNodes(l: Layer, ghost xyz0: seq<Point>) returns (saved: seq<int>)
    requires l.ValidTables() && xyz0 == l.grid.nodes.xyz
    modifies l.grid.nodes, l.grid.cells.adj, l.grid.faces.adj, l.grid.edges.adj
    ensures l.ValidTables() && SavedOk(saved, xyz0, l.grid.nodes.xyz) && NodesKept(xyz0, l.grid.nodes.xyz)
    ensures forall m :: IsValid(l.grid.nodes.xyz, m) ==> IsValid(xyz0, m) || m in saved
  {
    var first := l.NewNode(Point(0.0, 0.0, 0.0));
    ghost var xyz1 := l.grid.nodes.xyz;
    var second := l.NewNode(Point(0.0, 0.0, 0.0));
    ghost var xyz2 := l.grid.nodes.xyz;
    var third := l.NewNode(Point(0.0, 0.0, 0.0));
    saved := [first, second, third];
    assert IsValid(xyz1, first) && IsValid(xyz2, first) && IsValid(xyz2, second);
    assert IsValid(l.grid.nodes.xyz, first) && IsValid(l.grid.nodes.xyz, second);
  }

  method FreeSaved(l: Layer, saved: seq<int>, ghost xyz0: seq<Point>)
    requires l.ValidTables() && SavedOk(saved, xyz0, l.grid.nodes.xyz) && NodesKept(xyz0, l.grid.nodes.xyz)
    requires forall m :: IsValid(l.grid.nodes.xyz, m) ==> IsValid(xyz0, m) || m in saved
    modifies l.grid.nodes
    ensures l.ValidTables() && NodesKept(xyz0, l.grid.nodes.xyz)
    ensures forall m :: IsValid(l.grid.nodes.xyz, m) ==> IsValid(xyz0, m)
  {
    l.FreeNode(saved[0]);
    l.FreeNode(saved[1]);
    l.FreeNode(saved[2]);
  }

  /**
   layerTerminateFutureNegativeCellNormals. It always ends, terminates normals only, each because it would make a
   tetrahedron too small on a front on the way, and leaves a front from which the next advance makes tetrahedra
   of at least the volume limit only.
   */
  method TerminateFutureNegative(l: Layer) returns (ok: bool)
    requires l.Valid() && TipsPlaceable(l.normal, l.grid.nodes.xyz)
    modifies l`normal, l.grid.nodes, l.grid.cells.adj, l.grid.faces.adj, l.grid.edges.adj
    ensures l.Valid() && TipsPlaceable(l.normal, l.grid.nodes.xyz)
    ensures ok <==> |l.normal| > 0
    ensures ok ==> AllReady(l.normal, l.triangle, l.grid.nodes.xyz)
    ensures OnlyTerminated(old(l.normal), old(l.grid.nodes.xyz), l.normal, l.grid.nodes.xyz)
    ensures AllJustified(old(l.normal), l.normal, old(l.grid.nodes.xyz), l.triangle)
    ensures TipsKeptOrCleared(old(l.normal), l.normal)
    ensures forall q :: l.Balance(q) == old(l.Balance(q))
  {
    ghost var normals0, xyz0 := l.normal, l.grid.nodes.xyz;
    if |l.normal| == 0 {
      return false;
    }
    var saved := SaveNodes(l, xyz0);
    Passes(l, saved, xyz0);
    FreeSaved(l, saved, xyz0);
    FrontSettled(normals0, xyz0, l.normal, l.grid.nodes.xyz, l.triangle);
    ok := true;
  }

  lemma FrontSettled(normals0: seq<Normal>, xyz0: seq<Point>, normals: seq<Normal>, xyz: seq<Point>,
                     triangles: seq<Triangle>)
    requires |normals| == |normals0| && RootsValid(normals, xyz0) && TipsPlaceable(normals, xyz0)
    requires NodesKept(xyz0, xyz)
    requires forall i :: 0 <= i < |normals| ==> Tightened(normals0[i], normals[i])
    requires DistinctRoots(normals0) && AllOk(triangles, |normals|) && AllReady(normals, triangles, xyz0)
    ensures RootsValid(normals, xyz) && DistinctRoots(normals) && TipsPlaceable(normals, xyz)
    ensures AllReady(normals, triangles, xyz)
    ensures forall q :: FrontList(normals, triangles, q) == FrontList(normals0, triangles, q)
  {
    forall i | 0 <= i < |normals| ensures normals[i].root == normals0[i].root && IsValid(xyz, normals[i].root)
      ensures TipPoint(xyz0, normals[i]).x != DBL_MAX && TipPoint(xyz, normals[i]) == TipPoint(xyz0, normals[i])
    {
      assert Tightened(normals0[i], normals[i]) && IsValid(xyz0, normals[i].root);
    }
    forall k | 0 <= k < |triangles| ensures Ready(normals, xyz, triangles[k]) {
      assert TriangleOk(triangles[k], |normals|);
      ReadyKept(normals, xyz0, xyz, triangles[k]);
    }
    forall q ensures FrontList(normals, triangles, q) == FrontList(normals0, triangles, q) {
      SameFront(normals0, normals, triangles, q);
    }
  }

  /** An advance after the pass never makes a tetrahedron that is too small; it starts from the front in between. */
  method AdvanceSafely(l: Layer, reconnect: bool)
    returns (ok: bool, ghost normals: seq<Normal>, ghost xyz: seq<Point>)
    requires l.Valid() && TipsPlaceable(l.normal, l.grid.nodes.xyz)
    modifies l`normal, l.Parts
    ensures l.Valid() && (ok <==> |l.normal| > 0)
    ensures OnlyTerminated(old(l.normal), old(l.grid.nodes.xyz), normals, xyz)
    ensures ok ==> AllOk(l.triangle, |normals|) && RootsValid(normals, xyz) && AllReady(normals, l.triangle, xyz)
    ensures ok ==> IsAdvanced(normals, xyz, l.normal, l.grid.nodes.xyz)
    ensures forall q :: l.Balance(q) == old(l.Balance(q))
  {
    ok := TerminateFutureNegative(l);
    normals, xyz := l.normal, l.grid.nodes.xyz;
    if ok {
      ok := l.Advance(reconnect);
    }
  }

  datatype LayerOp = Terminate(normal: nat) | Foresee | AdvanceAll(reconnect: bool)

  /** The front and the nodes of a layer. */
  datatype FrontState = FrontState(normals: seq<Normal>, xyz: seq<Point>)

  ghost function FrontOf(l: Layer): FrontState
    reads l, l.grid.nodes
  {
    FrontState(l.normal, l.grid.nodes.xyz)
  }

  /** What an operation does to the front. */
  ghost predicate Does(op: LayerOp, triangles: seq<Triangle>, a: FrontState, b: FrontState) {
    match op
    case Terminate(i) =>
      b.xyz == a.xyz &&
      b.normals == if i < |a.normals| then a.normals[i := a.normals[i].(terminated := true)] else a.normals
    case Foresee =>
      && OnlyTerminated(a.normals, a.xyz, b.normals, b.xyz) && AllJustified(a.normals, b.normals, a.xyz, triangles)
      && RootsValid(b.normals, b.xyz) && AllOk(triangles, |b.normals|)
      && (|a.normals| > 0 ==> AllReady(b.normals, triangles, b.xyz))
    case AdvanceAll(_) => IsAdvanced(a.normals, a.xyz, b.normals, b.xyz)
  }

  /** An operation for which a tip would fall on the mark of a free node is skipped. Kept folded. */
  ghost predicate DoesOrSkips(op: LayerOp, triangles: seq<Triangle>, a: FrontState, b: FrontState) {
    forall u :: Unfold(u) ==> if TipsPlaceable(a.normals, a.xyz) then Does(op, triangles, a, b) else b == a
  }

  /** The fronts along a run. */
  ghost predicate IsTrace(ops: seq<LayerOp>, triangles: seq<Triangle>, trace: seq<FrontState>, n: nat) {
    && n <= |ops| && |trace| == n + 1
    && forall i :: 0 <= i < n ==> DoesOrSkips(ops[i], triangles, trace[i], trace[i + 1])
  }

  lemma TraceGrows(ops: seq<LayerOp>, triangles: seq<Triangle>, trace: seq<FrontState>, n: nat, next: FrontState)
    requires IsTrace(ops, triangles, trace, n) && n < |ops|
    requires DoesOrSkips(ops[n], triangles, trace[n], next)
    ensures IsTrace(ops, triangles, trace + [next], n + 1)
  {
  }

  /** Any run of terminations, passes and advances keeps the balance of cells, boundary faces and front. */
  method Run(l: Layer, ops: seq<LayerOp>) returns (ghost trace: seq<FrontState>)
    requires l.Valid()
    modifies l`normal, l.Parts
    ensures l.Valid()
    ensures forall q :: l.Balance(q) == old(l.Balance(q))
    ensures IsTrace(ops, l.triangle, trace, |ops|) && trace[0] == old(FrontOf(l)) && trace[|ops|] == FrontOf(l)
  {
    trace := [FrontOf(l)];
    for k := 0 to |ops|
      invariant l.Valid()
      invariant forall q :: l.Balance(q) == old(l.Balance(q))
      invariant IsTrace(ops, l.triangle, trace, k) && trace[0] == old(FrontOf(l)) && trace[k] == FrontOf(l)
    {
      StepOrSkip(l, ops[k]);
      TraceGrows(ops, l.triangle, trace, k, FrontOf(l));
      trace := trace + [FrontOf(l)];
    }
  }

  method StepOrSkip(l: Layer, op: LayerOp)
    requires l.Valid()
    modifies l`normal, l.Parts
    ensures l.Valid() && DoesOrSkips(op, l.triangle, old(FrontOf(l)), FrontOf(l))
    ensures forall q :: l.Balance(q) == old(l.Balance(q))
  {
    if TipsPlaceable(l.normal, l.grid.nodes.xyz) {
      Step(l, op);
    }
  }

  method Step(l: Layer, op: LayerOp)
    requires l.Valid() && TipsPlaceable(l.normal, l.grid.nodes.xyz)
    modifies l`normal, l.Parts
    ensures l.Valid() && Does(op, l.triangle, old(FrontOf(l)), FrontOf(l))
    ensures forall q :: l.Balance(q) == old(l.Balance(q))
  {
    match op
    case Terminate(i) =>
      if i < |l.normal| {
        ghost var normals0 := l.normal;
        l.normal := l.normal[i := l.normal[i].(terminated := true)];
        forall q ensures FrontList(l.normal, l.triangle, q) == FrontList(normals0, l.triangle, q) {
          SameFront(normals0, l.normal, l.triangle, q);
        }
      }
    case Foresee =>
      var _ := TerminateFutureNegative(l);
    case AdvanceAll(reconnect) =>
      var _ := l.Advance(reconnect);
  }
}
