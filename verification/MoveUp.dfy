/**
 What an advance of the layer does outside the layer (layerAdvance in mesherx/layer.c): cells, faces and
 edges that named the root of a normal name its tip.
 */
module MovingUp {
  import opened Common
  import opened ItemStore
  import opened Geometry
  import opened FacePacking
  import opened NodeStore
  import opened MeshGrid
  import opened LayerStore
  import opened Chains
  import opened Front

  /** Some normal of a set has its root at a node. */
  ghost predicate IsRootOf(from: seq<int>, which: set<int>, node: int) {
    exists i :: i in which && 0 <= i < |from| && from[i] == node
  }

  /** A node that is the root of a normal of the set has become its tip, and any other node is as before. */
  ghost predicate NodeFollows(node: int, node': int, from: seq<int>, to: seq<int>, which: set<int>)
    requires |from| == |to|
  {
    && (forall i :: i in which && 0 <= i < |from| && from[i] == node ==> node' == to[i])
    && (!IsRootOf(from, which, node) ==> node' == node)
  }

  ghost predicate RowFollows(row: seq<int>, row': seq<int>, from: seq<int>, to: seq<int>, which: set<int>)
    requires |from| == |to|
  {
    |row'| == |row| && forall k :: 0 <= k < |row| ==> NodeFollows(row[k], row'[k], from, to, which)
  }

  /** Different roots, and the tips of the first n normals are none of them but for those that stay. */
  ghost predicate Apart(from: seq<int>, to: seq<int>, n: nat) {
    && n <= |from| == |to|
    && (forall i, j :: 0 <= i < j < |from| ==> from[i] != from[j])
    && (forall i, j :: 0 <= i < n && 0 <= j < |from| && to[i] == from[j] ==> i == j)
    && (forall i :: 0 <= i < n ==> to[i] != EMPTY)
  }

  /** One normal more. */
  lemma RowStep(row: seq<int>, now: seq<int>, from: seq<int>, to: seq<int>, which: set<int>, n: nat, i: nat)
    requires Apart(from, to, n) && i < |from| && RowFollows(row, now, from, to, which)
    requires forall j :: j in which ==> 0 <= j < n
    ensures RowFollows(row, Replaced(now, from[i], to[i]), from, to, which + {i})
  {
    var next := Replaced(now, from[i], to[i]);
    forall k | 0 <= k < |row| ensures NodeFollows(row[k], next[k], from, to, which + {i}) {
      assert NodeFollows(row[k], now[k], from, to, which);
      if j :| j in which && 0 <= j < |from| && from[j] == row[k] {
        assert now[k] == to[j];
      } else {
        assert now[k] == row[k];
        assert row[k] == from[i] ==> IsRootOf(from, which + {i}, row[k]);
      }
    }
  }

  /** Where the row of an item is that belongs to the layer or not. */
  ghost predicate ItemFollows<P>(a: Items<P>, b: Items<P>, from: seq<int>, to: seq<int>, which: P -> set<int>, c: int)
    requires |from| == |to| && IsItem(a, c) && IsItem(b, c)
  {
    && b.flags[c] == a.flags[c] && b.data[c] == a.data[c]
    && if a.flags[c] then b.rows[c] == a.rows[c] else RowFollows(a.rows[c], b.rows[c], from, to, which(a.data[c]))
  }

  /** The same items, moved up with the normals meant for them unless they belong to the layer. Kept folded. */
  ghost predicate Followed<P>(a: Items<P>, b: Items<P>, from: seq<int>, to: seq<int>, which: P -> set<int>) {
    |from| == |to| && forall u :: OpenItems(u) ==>
      && (forall c :: IsItem(a, c) <==> IsItem(b, c))
      && forall c :: IsItem(a, c) ==> IsItem(b, c) && ItemFollows(a, b, from, to, which, c)
  }

  /** The same, and items of the layer may have come in. Kept folded. */
  ghost predicate MovedUp<P>(a: Items<P>, b: Items<P>, from: seq<int>, to: seq<int>, which: P -> set<int>) {
    |from| == |to| && forall u :: OpenItems(u) ==>
      && (forall c :: IsItem(a, c) ==> IsItem(b, c) && ItemFollows(a, b, from, to, which, c))
      && forall c :: IsNewItem(a, b, c) ==> b.flags[c]
  }

  lemma FollowedThenGrown<P>(a: Items<P>, b: Items<P>, d: Items<P>, from: seq<int>, to: seq<int>, which: P -> set<int>)
    requires Followed(a, b, from, to, which) && Grown(b, d)
    ensures MovedUp(a, d, from, to, which)
    ensures forall c :: IsNewItem(a, d, c) <==> IsNewItem(b, d, c)
  {
    assert OpenItems(0);
    forall c | IsItem(a, c) ensures IsItem(d, c) && ItemFollows(a, d, from, to, which, c) {
      assert IsItem(b, c) && SameItem(b, d, c) && ItemFollows(a, b, from, to, which, c);
    }
  }

  /** Nothing has to move yet. */
  lemma FollowedByNone<P>(a: Items<P>, from: seq<int>, to: seq<int>, which: P -> set<int>)
    requires |from| == |to| && forall p :: which(p) == {}
    ensures Followed(a, a, from, to, which)
  {
    forall c | IsItem(a, c) ensures ItemFollows(a, a, from, to, which, c) {
      assert forall k :: 0 <= k < |a.rows[c]| ==> NodeFollows(a.rows[c][k], a.rows[c][k], from, to, which(a.data[c]));
    }
  }

  /** If none is to move, none has. */
  lemma MovedByNone<P>(a: Items<P>, b: Items<P>, from: seq<int>, to: seq<int>, which: P -> set<int>)
    requires MovedUp(a, b, from, to, which) && forall p :: which(p) == {}
    ensures Grown(a, b)
  {
    assert OpenItems(0);
    forall c | IsItem(a, c) ensures IsItem(b, c) && SameItem(a, b, c) {
      assert ItemFollows(a, b, from, to, which, c);
      if !a.flags[c] {
        forall k | 0 <= k < |a.rows[c]| ensures b.rows[c][k] == a.rows[c][k] {
          assert NodeFollows(a.rows[c][k], b.rows[c][k], from, to, {});
        }
      }
    }
  }

  /** Tips set later do not matter to the normals that have moved, nor does how the set is written. */
  lemma FollowedAlike<P>(a: Items<P>, b: Items<P>, from: seq<int>, to: seq<int>, which: P -> set<int>, to': seq<int>,
                         which': P -> set<int>)
    requires Followed(a, b, from, to, which) && |to'| == |to|
    requires forall p :: which'(p) == which(p)
    requires forall p, i :: i in which(p) && 0 <= i < |to| ==> to'[i] == to[i]
    ensures Followed(a, b, from, to', which')
  {
    assert OpenItems(0);
    forall c | IsItem(a, c) ensures ItemFollows(a, b, from, to', which', c) {
      assert ItemFollows(a, b, from, to, which, c);
      if !a.flags[c] {
        forall k | 0 <= k < |a.rows[c]|
          ensures NodeFollows(a.rows[c][k], b.rows[c][k], from, to', which'(a.data[c]))
        {
          assert NodeFollows(a.rows[c][k], b.rows[c][k], from, to, which(a.data[c]));
        }
      }
    }
  }

  /** A table after one reconnect: items outside the layer that are meant name the tip. Kept folded. */
  ghost predicate Rewired<P>(b: Items<P>, d: Items<P>, root: int, tip: int, mine: P -> bool) {
    forall u :: OpenItems(u) ==>
      && (forall c :: IsItem(b, c) <==> IsItem(d, c))
      && forall c :: IsItem(b, c) ==> IsItem(d, c) && ItemRewired(b, d, root, tip, mine, c)
  }

  ghost predicate ItemRewired<P>(b: Items<P>, d: Items<P>, root: int, tip: int, mine: P -> bool, c: int)
    requires IsItem(b, c) && IsItem(d, c)
  {
    && d.flags[c] == b.flags[c] && d.data[c] == b.data[c]
    && d.rows[c] == if b.flags[c] || !mine(b.data[c]) then b.rows[c] else Replaced(b.rows[c], root, tip)
  }

  lemma RewiredBy<P>(b: Items<P>, d: Items<P>, root: int, tip: int, mine: P -> bool)
    requires |b.rows| == |b.flags| == |b.data| == |d.rows| && d.flags == b.flags && d.data == b.data && tip != EMPTY
    requires forall c :: 0 <= c < |b.rows| ==> |b.rows[c]| >= 2
    requires forall c :: 0 <= c < |b.rows| ==>
      d.rows[c] == if Stays(b.flags, b.data, mine, c) then b.rows[c] else Reconnected(b.rows[c], root, tip)
    ensures Rewired(b, d, root, tip, mine)
  {
    forall c | IsItem(b, c) ensures IsItem(d, c) && ItemRewired(b, d, root, tip, mine, c) {
      assert Flagged(b.flags, c) <==> b.flags[c];
    }
    forall c | IsItem(d, c) ensures IsItem(b, c) {
    }
  }

  /** A tip that is its root changes nothing. */
  lemma RewiredToItself<P>(b: Items<P>, root: int, mine: P -> bool)
    ensures Rewired(b, b, root, root, mine)
  {
    forall c | IsItem(b, c) ensures ItemRewired(b, b, root, root, mine, c) {
      assert Replaced(b.rows[c], root, root) == b.rows[c];
    }
  }

  /** The set of normals grows by i for the items that are meant. */
  ghost predicate IsJoined<P(!new)>(which: P -> set<int>, which': P -> set<int>, mine: P -> bool, i: int) {
    forall p :: which'(p) == which(p) + if mine(p) then {i} else {}
  }

  lemma FollowedStep<P(!new)>(a: Items<P>, b: Items<P>, d: Items<P>, from: seq<int>, to: seq<int>, which: P -> set<int>,
                        which': P -> set<int>, mine: P -> bool, n: nat, i: nat)
    requires Followed(a, b, from, to, which) && Apart(from, to, n) && i < |from| && to[i] != EMPTY
    requires forall p, j :: j in which(p) ==> 0 <= j < n
    requires Rewired(b, d, from[i], to[i], mine) && IsJoined(which, which', mine, i)
    ensures Followed(a, d, from, to, which')
  {
    assert OpenItems(0);
    forall c | IsItem(a, c) ensures IsItem(d, c) && ItemFollows(a, d, from, to, which', c) {
      assert IsItem(b, c) && ItemFollows(a, b, from, to, which, c) && ItemRewired(b, d, from[i], to[i], mine, c);
      if !a.flags[c] && mine(a.data[c]) {
        RowStep(a.rows[c], b.rows[c], from, to, which(a.data[c]), n, i);
      }
    }
  }

  /** The set with normal i joined. */
  ghost function JoinedBy<P(!new)>(which: P -> set<int>, mine: P -> bool, i: int): (r: P -> set<int>)
    ensures IsJoined(which, r, mine, i)
  {
    p => which(p) + if mine(p) then {i} else {}
  }

  /** The next tip is set, and the items meant for its normal have moved up; none is meant for a tip that stays. */
  lemma TipStep<P(!new)>(a: Items<P>, b: Items<P>, d: Items<P>, from: seq<int>, to: seq<int>, to': seq<int>,
                         which: P -> set<int>, which': P -> set<int>, mine: P -> bool, n: nat)
    requires Followed(a, b, from, to, which) && |to'| == |to| && n < |from| && Apart(from, to', n + 1)
    requires (forall i :: 0 <= i < n ==> to'[i] == to[i]) && forall p, j :: j in which(p) ==> 0 <= j < n
    requires IsJoined(which, which', mine, n)
    requires Rewired(b, d, from[n], to'[n], mine) || (d == b && (to'[n] == from[n] || forall p :: !mine(p)))
    ensures Followed(a, d, from, to', which')
  {
    FollowedAlike(a, b, from, to, which, to', which);
    if d == b && to'[n] == from[n] {
      RewiredToItself(b, from[n], mine);
    }
    if Rewired(b, d, from[n], to'[n], mine) {
      FollowedStep(a, b, d, from, to', which, which', mine, n, n);
    } else {
      FollowedAlike(a, b, from, to', which, to', which');
    }
  }

  /** An item outside the layer no longer names the root of a normal that has moved. */
  lemma RootLeft(row: seq<int>, row': seq<int>, from: seq<int>, to: seq<int>, which: set<int>, n: nat, i: nat)
    requires Apart(from, to, n) && RowFollows(row, row', from, to, which) && i in which && i < n && to[i] != from[i]
    requires forall j :: j in which ==> 0 <= j < n
    ensures from[i] !in row'
  {
    forall k | 0 <= k < |row'| ensures row'[k] != from[i] {
      assert NodeFollows(row[k], row'[k], from, to, which);
      if IsRootOf(from, which, row[k]) {
        var j :| j in which && 0 <= j < |from| && from[j] == row[k];
        assert row'[k] == to[j];
      } else {
        assert row'[k] == row[k];
      }
    }
  }

  function AllRoots(normals: seq<Normal>): (r: seq<int>)
    ensures |r| == |normals| && forall i :: 0 <= i < |normals| ==> r[i] == normals[i].root
  {
    seq(|normals|, i requires 0 <= i < |normals| => normals[i].root)
  }

  function AllTips(normals: seq<Normal>): (r: seq<int>)
    ensures |r| == |normals| && forall i :: 0 <= i < |normals| ==> r[i] == normals[i].tip
  {
    seq(|normals|, i requires 0 <= i < |normals| => normals[i].tip)
  }

  function AllConstrained(normals: seq<Normal>): (r: seq<int>)
    ensures |r| == |normals| && forall i :: 0 <= i < |normals| ==> r[i] == normals[i].constrained
  {
    seq(|normals|, i requires 0 <= i < |normals| => normals[i].constrained)
  }

  /** A cell no boundary face is known of yet. */
  const NO_FACES: seq<int> := [EMPTY, EMPTY, EMPTY, EMPTY, EMPTY, EMPTY]

  /** Every cell is meant by a reconnect. */
  function AnyCell(): seq<int> -> bool {
    (p: seq<int>) => true
  }

  /** Faces of one surface, or edges of one curve. */
  function WithId<V>(id: int): Tag<V> -> bool {
    (tag: Tag<V>) => tag.id == id
  }

  /** Cells move up with each of the first n normals. */
  ghost function CellsUp(reconnect: bool, n: nat): seq<int> -> set<int> {
    (p: seq<int>) => if reconnect then Below(n) else {}
  }

  /** Edges move up with those of the first n normals that are constrained to their curve, by minus its id. */
  ghost function EdgesUp(reconnect: bool, constrained: seq<int>, n: nat): EdgeTag -> set<int> {
    (tag: EdgeTag) => set i: int | 0 <= i < n && i < |constrained| && reconnect && IsCurveOf(constrained[i], tag.id)
  }

  predicate IsCurveOf(constrained: int, edgeId: int) {
    constrained < 0 && edgeId == -constrained
  }

  /** Faces move up with the normals at the ends of the sides that are constrained to their surface. */
  ghost function FacesUp(reconnect: bool, triangles: seq<Triangle>, n: nat, k: nat, side: nat): FaceTag -> set<int> {
    (tag: FaceTag) => set j: int | 0 <= j < n && reconnect && IsSideEnd(triangles, k, side, tag.id, j)
  }

  /** Normal j is an end of a side with this id, before side `side` of triangle k. */
  ghost predicate IsSideEnd(triangles: seq<Triangle>, k: nat, side: nat, faceId: int, j: int) {
    exists t, i :: 0 <= t < |triangles| && 0 <= i < 3 && (t < k || (t == k && i < side)) &&
      HasEnd(triangles[t], i, faceId, j)
  }

  ghost predicate HasEnd(t: Triangle, i: int, faceId: int, j: int)
    requires 0 <= i < 3
  {
    && |t.normal| == |t.constrainedSide| == 3 && faceId > 0 && t.constrainedSide[i] == faceId
    && (j == t.normal[i] || j == t.normal[if i == 2 then 0 else i + 1])
  }

  lemma TipsApart(normals0: seq<Normal>, xyz0: seq<Point>, normals: seq<Normal>, xyz: seq<Point>, n: nat)
    requires TipsOk(normals0, xyz0, normals, xyz, n) && DistinctRoots(normals0)
    ensures Apart(AllRoots(normals0), AllTips(normals), n)
  {
    assert Unfold(0);
    var from, to := AllRoots(normals0), AllTips(normals);
    forall i, j | 0 <= i < n && 0 <= j < |from| && i != j ensures to[i] != from[j] {
      assert TipOk(xyz0, xyz, normals0[i], normals[i]);
      assert normals0[Min(i, j)].root != normals0[Max(i, j)].root;
    }
    forall i | 0 <= i < n ensures to[i] != EMPTY {
      assert TipOk(xyz0, xyz, normals0[i], normals[i]);
    }
  }

  /** Normal n of the front is done, for the cells. */
  lemma CellsStep(a: Items<seq<int>>, b: Items<seq<int>>, d: Items<seq<int>>, normals0: seq<Normal>, xyz0: seq<Point>,
                  normals: seq<Normal>, normals': seq<Normal>, xyz': seq<Point>, n: nat, reconnect: bool)
    requires Followed(a, b, AllRoots(normals0), AllTips(normals), CellsUp(reconnect, n)) && n < |normals0|
    requires TipsOk(normals0, xyz0, normals', xyz', n + 1) && DistinctRoots(normals0) && OneTipSet(normals, normals', n)
    requires if reconnect && normals'[n].tip != normals0[n].root
             then Rewired(b, d, normals0[n].root, normals'[n].tip, AnyCell()) else d == b
    ensures Followed(a, d, AllRoots(normals0), AllTips(normals'), CellsUp(reconnect, n + 1))
  {
    TipsApart(normals0, xyz0, normals', xyz', n + 1);
    var from, to, to' := AllRoots(normals0), AllTips(normals), AllTips(normals');
    var which, which' := CellsUp(reconnect, n), CellsUp(reconnect, n + 1);
    if reconnect {
      TipStep(a, b, d, from, to, to', which, which', AnyCell(), n);
    } else {
      TipStep(a, b, d, from, to, to', which, which', (p: seq<int>) => false, n);
    }
  }

  /** The same for the edges, which move with the normals on curves. */
  lemma EdgesStep(a: Items<EdgeTag>, b: Items<EdgeTag>, d: Items<EdgeTag>, normals0: seq<Normal>, xyz0: seq<Point>,
                  normals: seq<Normal>, normals': seq<Normal>, xyz': seq<Point>, n: nat, reconnect: bool)
    requires n < |normals0|
    requires Followed(a, b, AllRoots(normals0), AllTips(normals), EdgesUp(reconnect, AllConstrained(normals0), n))
    requires TipsOk(normals0, xyz0, normals', xyz', n + 1) && DistinctRoots(normals0) && OneTipSet(normals, normals', n)
    requires if reconnect && normals'[n].tip != normals0[n].root && normals0[n].constrained < 0
             then Rewired(b, d, normals0[n].root, normals'[n].tip, WithId(-normals0[n].constrained)) else d == b
    ensures Followed(a, d, AllRoots(normals0), AllTips(normals'), EdgesUp(reconnect, AllConstrained(normals0), n + 1))
  {
    TipsApart(normals0, xyz0, normals', xyz', n + 1);
    var from, to, to' := AllRoots(normals0), AllTips(normals), AllTips(normals');
    var constrained := AllConstrained(normals0);
    var which, which' := EdgesUp(reconnect, constrained, n), EdgesUp(reconnect, constrained, n + 1);
    if reconnect && normals0[n].constrained < 0 {
      TipStep(a, b, d, from, to, to', which, which', WithId(-normals0[n].constrained), n);
    } else {
      TipStep(a, b, d, from, to, to', which, which', (p: EdgeTag) => false, n);
    }
  }

  ghost predicate OneTipSet(normals: seq<Normal>, normals': seq<Normal>, n: nat) {
    && n < |normals| == |normals'|
    && forall i :: 0 <= i < |normals| && i != n ==> normals'[i] == normals[i]
  }

  /** Both ends of one more side are done, for the faces. */
  lemma FacesStep(a: Items<FaceTag>, b: Items<FaceTag>, d: Items<FaceTag>, e: Items<FaceTag>, from: seq<int>,
                  to: seq<int>, triangles: seq<Triangle>, k: nat, side: nat)
    requires Apart(from, to, |from|) && AllOk(triangles, |from|) && k < |triangles| && side < 3
    requires TriangleOk(triangles[k], |from|)
    requires Followed(a, b, from, to, FacesUp(true, triangles, |from|, k, side))
    requires var t := triangles[k];
      var faceId, first, second := t.constrainedSide[side], t.normal[side], t.normal[if side == 2 then 0 else side + 1];
      if faceId > 0
      then Rewired(b, d, from[first], to[first], WithId(faceId)) &&
        Rewired(d, e, from[second], to[second], WithId(faceId))
      else e == b
    ensures Followed(a, e, from, to, FacesUp(true, triangles, |from|, k, side + 1))
  {
    var t := triangles[k];
    var faceId, first, second := t.constrainedSide[side], t.normal[side], t.normal[if side == 2 then 0 else side + 1];
    var which, which' := FacesUp(true, triangles, |from|, k, side), FacesUp(true, triangles, |from|, k, side + 1);
    if faceId > 0 {
      var one := JoinedBy(which, WithId(faceId), first);
      FollowedStep(a, b, d, from, to, which, one, WithId(faceId), |from|, first);
      var two := JoinedBy(one, WithId(faceId), second);
      FollowedStep(a, d, e, from, to, one, two, WithId(faceId), |from|, second);
      forall tag: FaceTag ensures which'(tag) == two(tag) {
        SideEnds(triangles, |from|, k, side, tag);
      }
      FollowedAlike(a, e, from, to, two, to, which');
    } else {
      forall tag: FaceTag ensures which'(tag) == which(tag) {
        SideEnds(triangles, |from|, k, side, tag);
      }
      FollowedAlike(a, e, from, to, which, to, which');
    }
  }

  lemma SideEnds(triangles: seq<Triangle>, n: nat, k: nat, side: nat, tag: FaceTag)
    requires k < |triangles| && side < 3 && TriangleOk(triangles[k], n)
    ensures var t := triangles[k];
      FacesUp(true, triangles, n, k, side + 1)(tag) == FacesUp(true, triangles, n, k, side)(tag) +
        if t.constrainedSide[side] == tag.id > 0
        then {t.normal[side], t.normal[if side == 2 then 0 else side + 1]} else {}
  {
    var t, next := triangles[k], side + 1;
    var ends := if t.constrainedSide[side] == tag.id > 0
                then {t.normal[side], t.normal[if side == 2 then 0 else side + 1]} else {};
    forall j: int
      ensures j in FacesUp(true, triangles, n, k, next)(tag) <==>
        j in FacesUp(true, triangles, n, k, side)(tag) || j in ends
    {
      SideEndAt(triangles, k, side, next, tag.id, j);
    }
  }

  lemma SideEndAt(triangles: seq<Triangle>, k: nat, side: nat, next: nat, faceId: int, j: int)
    requires k < |triangles| && side < 3 && next == side + 1
    ensures IsSideEnd(triangles, k, next, faceId, j) <==>
      IsSideEnd(triangles, k, side, faceId, j) || HasEnd(triangles[k], side, faceId, j)
  {
    if IsSideEnd(triangles, k, next, faceId, j) {
      var t, i :| 0 <= t < |triangles| && 0 <= i < 3 && (t < k || (t == k && i < next)) &&
        HasEnd(triangles[t], i, faceId, j);
      assert (t == k && i == side) || IsSideEnd(triangles, k, side, faceId, j);
    }
    if IsSideEnd(triangles, k, side, faceId, j) {
      var t, i :| 0 <= t < |triangles| && 0 <= i < 3 && (t < k || (t == k && i < side)) &&
        HasEnd(triangles[t], i, faceId, j);
      assert IsSideEnd(triangles, k, next, faceId, j);
    }
  }

  lemma FacesNext(a: Items<FaceTag>, b: Items<FaceTag>, from: seq<int>, to: seq<int>, triangles: seq<Triangle>, k: nat)
    requires k < |triangles| && Followed(a, b, from, to, FacesUp(true, triangles, |from|, k, 3))
    ensures Followed(a, b, from, to, FacesUp(true, triangles, |from|, k + 1, 0))
  {
    var which, which' := FacesUp(true, triangles, |from|, k, 3), FacesUp(true, triangles, |from|, k + 1, 0);
    forall tag: FaceTag ensures which'(tag) == which(tag) {
      forall j: int ensures IsSideEnd(triangles, k + 1, 0, tag.id, j) <==> IsSideEnd(triangles, k, 3, tag.id, j) {
      }
    }
    FollowedAlike(a, b, from, to, which, to, which');
  }

  /** An edge along the layer, with parameters still to be found. */
  ghost predicate IsCurveEdge(row: seq<int>, tag: EdgeTag, root: int, tip: int, constrained: int) {
    constrained < 0 && root != tip && row == [root, tip] && tag == Tag(-constrained, [DBL_MAX, DBL_MAX])
  }

  ghost predicate HasCurveEdge(a: Items<EdgeTag>, b: Items<EdgeTag>, root: int, tip: int, constrained: int) {
    exists c :: IsNewItem(a, b, c) && IsCurveEdge(b.rows[c], b.data[c], root, tip, constrained)
  }

  ghost predicate FromCurve(row: seq<int>, tag: EdgeTag, from: seq<int>, to: seq<int>, constrained: seq<int>, n: nat)
    requires n <= |from| == |to| == |constrained|
  {
    exists i :: 0 <= i < n && IsCurveEdge(row, tag, from[i], to[i], constrained[i])
  }

  /** Exactly the active ones of the first n normals that are on curves have given an edge. Kept folded. */
  ghost predicate NewEdges(a: Items<EdgeTag>, b: Items<EdgeTag>, from: seq<int>, to: seq<int>, constrained: seq<int>,
                           n: nat) {
    n <= |from| == |to| == |constrained| && forall u :: OpenItems(u) ==>
      && (forall c :: IsNewItem(a, b, c) ==> FromCurve(b.rows[c], b.data[c], from, to, constrained, n))
      && forall i :: 0 <= i < n && constrained[i] < 0 && from[i] != to[i] ==>
           HasCurveEdge(a, b, from[i], to[i], constrained[i])
  }

  lemma NoNewEdges(a: Items<EdgeTag>, from: seq<int>, to: seq<int>, constrained: seq<int>)
    requires |from| == |to| == |constrained|
    ensures NewEdges(a, a, from, to, constrained, 0)
  {
  }

  /** The next normal gives no edge, or this one. */
  lemma NewEdgesStep(a: Items<EdgeTag>, b: Items<EdgeTag>, d: Items<EdgeTag>, from: seq<int>, to: seq<int>,
                     constrained: seq<int>, n: nat, item: int, tag: EdgeTag)
    requires Grown(a, b) && NewEdges(a, b, from, to, constrained, n) && n < |from|
    requires if constrained[n] < 0 && from[n] != to[n]
             then Gains(b, d, item, [from[n], to[n]], tag) && tag == Tag(-constrained[n], [DBL_MAX, DBL_MAX])
             else d == b
    ensures Grown(a, d) && NewEdges(a, d, from, to, constrained, n + 1)
  {
    assert OpenItems(0);
    if constrained[n] < 0 && from[n] != to[n] {
      GrownByOne(a, b, d, item, [from[n], to[n]], tag);
      assert IsCurveEdge(d.rows[item], d.data[item], from[n], to[n], constrained[n]);
    }
    forall c | IsNewItem(a, d, c) ensures FromCurve(d.rows[c], d.data[c], from, to, constrained, n + 1) {
      if IsNewItem(a, b, c) {
        assert FromCurve(b.rows[c], b.data[c], from, to, constrained, n);
      }
    }
    forall i | 0 <= i < n + 1 && constrained[i] < 0 && from[i] != to[i]
      ensures HasCurveEdge(a, d, from[i], to[i], constrained[i])
    {
      if i < n {
        assert HasCurveEdge(a, b, from[i], to[i], constrained[i]);
        var c :| IsNewItem(a, b, c) && IsCurveEdge(b.rows[c], b.data[c], from[i], to[i], constrained[i]);
        assert IsNewItem(a, d, c) && IsCurveEdge(d.rows[c], d.data[c], from[i], to[i], constrained[i]);
      } else {
        assert IsNewItem(a, d, item);
      }
    }
  }

  /** A face on a side with roots n[0], n[1] and tips n[2], n[3], cut along the diagonal from the smaller root. */
  ghost predicate IsSideFace(row: seq<int>, n: seq<int>)
    requires |n| == 4
  {
    if n[0] < n[1] then (n[1] != n[3] && row == [n[0], n[1], n[3]]) || (n[0] != n[2] && row == [n[0], n[3], n[2]])
    else (n[0] != n[2] && row == [n[0], n[1], n[2]]) || (n[1] != n[3] && row == [n[2], n[1], n[3]])
  }

  /** The id of a surface, with parameters still to be found. */
  function NewTag(faceId: int): (tag: FaceTag)
    ensures tag.id == faceId && |tag.par| == 3 && forall i :: 0 <= i < 3 ==> tag.par[i] == (DBL_MAX, DBL_MAX)
  {
    Tag(faceId, [(DBL_MAX, DBL_MAX), (DBL_MAX, DBL_MAX), (DBL_MAX, DBL_MAX)])
  }

  /** Faces came in on one side only. Kept folded. */
  ghost predicate NewOnSide(a: Items<FaceTag>, b: Items<FaceTag>, n: seq<int>, faceId: int)
    requires |n| == 4
  {
    forall u :: OpenItems(u) ==>
      forall c :: IsNewItem(a, b, c) ==> IsSideFace(b.rows[c], n) && b.data[c] == NewTag(faceId)
  }

  lemma NoNewOnSide(a: Items<FaceTag>, n: seq<int>, faceId: int)
    requires |n| == 4
    ensures Grown(a, a) && NewOnSide(a, a, n, faceId)
  {
  }

  lemma NewOnSideStep(a: Items<FaceTag>, b: Items<FaceTag>, d: Items<FaceTag>, n: seq<int>, faceId: int, item: int,
                      row: seq<int>)
    requires |n| == 4 && Grown(a, b) && NewOnSide(a, b, n, faceId)
    requires Gains(b, d, item, row, NewTag(faceId)) && IsSideFace(row, n)
    ensures Grown(a, d) && NewOnSide(a, d, n, faceId)
  {
    GrownByOne(a, b, d, item, row, NewTag(faceId));
    assert OpenItems(0);
  }

  /** A face on a constrained side, with the id of that side, before side `side` of triangle k. */
  ghost predicate OnSides(row: seq<int>, tag: FaceTag, from: seq<int>, to: seq<int>, triangles: seq<Triangle>, k: nat,
                          side: nat)
    requires |from| == |to|
  {
    exists t, i :: 0 <= t < |triangles| && 0 <= i < 3 && (t < k || (t == k && i < side)) &&
      OnSide(row, tag, from, to, triangles[t], i)
  }

  ghost predicate OnSide(row: seq<int>, tag: FaceTag, from: seq<int>, to: seq<int>, t: Triangle, i: int)
    requires |from| == |to| && 0 <= i < 3
  {
    && TriangleOk(t, |from|) && t.constrainedSide[i] > 0 && tag == NewTag(t.constrainedSide[i])
    && IsSideFace(row, SideNodes(from, to, t, i))
  }

  /** Roots and tips of a side, second end first. */
  ghost function SideNodes(from: seq<int>, to: seq<int>, t: Triangle, i: int): (n: seq<int>)
    requires |from| == |to| && 0 <= i < 3 && TriangleOk(t, |from|)
    ensures |n| == 4
  {
    var first, second := t.normal[i], t.normal[if i == 2 then 0 else i + 1];
    [from[second], from[first], to[second], to[first]]
  }

  /** Faces came in on constrained sides only. Kept folded. */
  ghost predicate NewFaces(a: Items<FaceTag>, b: Items<FaceTag>, from: seq<int>, to: seq<int>,
                           triangles: seq<Triangle>, k: nat, side: nat) {
    |from| == |to| && forall u :: OpenItems(u) ==>
      forall c :: IsNewItem(a, b, c) ==> OnSides(b.rows[c], b.data[c], from, to, triangles, k, side)
  }

  lemma NoNewFaces(a: Items<FaceTag>, from: seq<int>, to: seq<int>, triangles: seq<Triangle>)
    requires |from| == |to|
    ensures Grown(a, a) && NewFaces(a, a, from, to, triangles, 0, 0)
  {
  }

  /** One side more. */
  lemma NewFacesStep(a: Items<FaceTag>, b: Items<FaceTag>, d: Items<FaceTag>, from: seq<int>, to: seq<int>,
                     triangles: seq<Triangle>, k: nat, side: nat)
    requires Grown(a, b) && NewFaces(a, b, from, to, triangles, k, side) && Grown(b, d)
    requires k < |triangles| && side < 3 && TriangleOk(triangles[k], |from|)
    requires var t := triangles[k]; if t.constrainedSide[side] > 0
             then NewOnSide(b, d, SideNodes(from, to, t, side), t.constrainedSide[side])
             else d == b
    ensures Grown(a, d) && NewFaces(a, d, from, to, triangles, k, side + 1)
  {
    GrownTwice(a, b, d);
    assert OpenItems(0);
    forall c | IsNewItem(a, d, c) ensures OnSides(d.rows[c], d.data[c], from, to, triangles, k, side + 1) {
      if IsNewItem(a, b, c) {
        assert OnSides(b.rows[c], b.data[c], from, to, triangles, k, side);
      } else {
        assert OnSide(d.rows[c], d.data[c], from, to, triangles[k], side);
      }
    }
  }

  lemma NewFacesNext(a: Items<FaceTag>, b: Items<FaceTag>, from: seq<int>, to: seq<int>, triangles: seq<Triangle>,
                     k: nat)
    requires NewFaces(a, b, from, to, triangles, k, 3)
    ensures NewFaces(a, b, from, to, triangles, k + 1, 0)
  {
    assert OpenItems(0);
    forall c | IsNewItem(a, b, c) ensures OnSides(b.rows[c], b.data[c], from, to, triangles, k + 1, 0) {
      assert OnSides(b.rows[c], b.data[c], from, to, triangles, k, 3);
    }
  }

  /** What came in after a reconnect came in since before it. */
  lemma NewFacesSince(a: Items<FaceTag>, b: Items<FaceTag>, d: Items<FaceTag>, from: seq<int>, to: seq<int>,
                      triangles: seq<Triangle>, k: nat)
    requires NewFaces(b, d, from, to, triangles, k, 0) && forall c :: IsNewItem(a, d, c) <==> IsNewItem(b, d, c)
    ensures NewFaces(a, d, from, to, triangles, k, 0)
  {
    assert OpenItems(0);
  }

  lemma NewEdgesSince(a: Items<EdgeTag>, b: Items<EdgeTag>, d: Items<EdgeTag>, from: seq<int>, to: seq<int>,
                      constrained: seq<int>, n: nat)
    requires NewEdges(b, d, from, to, constrained, n) && forall c :: IsNewItem(a, d, c) <==> IsNewItem(b, d, c)
    ensures NewEdges(a, d, from, to, constrained, n)
  {
    assert OpenItems(0);
    forall i | 0 <= i < n && constrained[i] < 0 && from[i] != to[i]
      ensures HasCurveEdge(a, d, from[i], to[i], constrained[i])
    {
      assert HasCurveEdge(b, d, from[i], to[i], constrained[i]);
      var c :| IsNewItem(b, d, c) && IsCurveEdge(d.rows[c], d.data[c], from[i], to[i], constrained[i]);
      assert IsNewItem(a, d, c);
    }
  }
}
