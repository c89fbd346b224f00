/**
 The near tree of mesherx/near.c: a binary tree of balls in which every node knows how far its two
 subtrees reach, so that queries can leave subtrees out.
 */
module NearTree {
  import opened Common
  import opened Geometry

  datatype Ball = Ball(index: int, at: Point, radius: real)

  datatype Tree = Leaf | Node(item: Ball, left: Tree, leftRadius: real, right: Tree, rightRadius: real)

  /** Every ball of the tree lies in the ball of radius r around a center. */
  ghost predicate Within(t: Tree, center: Point, r: real, distance: (Point, Point) -> real) {
    t.Node? ==>
      && distance(center, t.item.at) + t.item.radius <= r
      && Within(t.left, center, r, distance)
      && Within(t.right, center, r, distance)
  }

  /** The radii kept at the nodes bound the subtrees, and the left child comes first. */
  ghost predicate Bounded(t: Tree, distance: (Point, Point) -> real) {
    t.Node? ==>
      && (t.left.Leaf? ==> t.right.Leaf?)
      && Within(t.left, t.item.at, t.leftRadius, distance)
      && Within(t.right, t.item.at, t.rightRadius, distance)
      && Bounded(t.left, distance)
      && Bounded(t.right, distance)
  }

  ghost predicate NonNegative(t: Tree) {
    t.Node? ==> t.item.radius >= 0.0 && NonNegative(t.left) && NonNegative(t.right)
  }

  /** The balls in the order in which nearest searches meet them. */
  ghost function Preorder(t: Tree): seq<Ball> {
    if t.Leaf? then [] else [t.item] + Preorder(t.left) + Preorder(t.right)
  }

  function MaxReal(a: real, b: real): real {
    if a > b then a else b
  }

  /** The tree after nearInsert. */
  ghost function Inserted(t: Tree, child: Ball, distance: (Point, Point) -> real): Tree
    requires t.Node?
  {
    var childRadius := distance(t.item.at, child.at) + child.radius;
    var leaf := Node(child, Leaf, 0.0, Leaf, 0.0);
    if t.left.Leaf? then t.(left := leaf, leftRadius := childRadius)
    else if t.right.Leaf? then t.(right := leaf, rightRadius := childRadius)
    else if distance(t.left.item.at, child.at) < distance(t.right.item.at, child.at) then
      t.(left := Inserted(t.left, child, distance), leftRadius := MaxReal(childRadius, t.leftRadius))
    else
      t.(right := Inserted(t.right, child, distance), rightRadius := MaxReal(childRadius, t.rightRadius))
  }

  lemma {:induction false} WithinMore(t: Tree, center: Point, r: real, r': real, distance: (Point, Point) -> real)
    requires Within(t, center, r, distance) && r <= r'
    ensures Within(t, center, r', distance)
  {
    if t.Node? {
      WithinMore(t.left, center, r, r', distance);
      WithinMore(t.right, center, r, r', distance);
    }
  }

  lemma {:induction false} InsertedWithin(t: Tree, child: Ball, center: Point, r: real,
                                          distance: (Point, Point) -> real)
    requires t.Node? && Within(t, center, r, distance) && distance(center, child.at) + child.radius <= r
    ensures Within(Inserted(t, child, distance), center, r, distance)
  {
    if t.left.Node? && t.right.Node? {
      if distance(t.left.item.at, child.at) < distance(t.right.item.at, child.at) {
        InsertedWithin(t.left, child, center, r, distance);
      } else {
        InsertedWithin(t.right, child, center, r, distance);
      }
    }
  }

  /** nearInsert keeps the radii right. */
  lemma {:induction false} InsertKeepsBounded(t: Tree, child: Ball, distance: (Point, Point) -> real)
    requires t.Node? && Bounded(t, distance)
    ensures Bounded(Inserted(t, child, distance), distance)
  {
    if t.left.Leaf? || t.right.Leaf? {
    } else if distance(t.left.item.at, child.at) < distance(t.right.item.at, child.at) {
      var r := MaxReal(distance(t.item.at, child.at) + child.radius, t.leftRadius);
      WithinMore(t.left, t.item.at, t.leftRadius, r, distance);
      InsertedWithin(t.left, child, t.item.at, r, distance);
      InsertKeepsBounded(t.left, child, distance);
    } else {
      var r := MaxReal(distance(t.item.at, child.at) + child.radius, t.rightRadius);
      WithinMore(t.right, t.item.at, t.rightRadius, r, distance);
      InsertedWithin(t.right, child, t.item.at, r, distance);
      InsertKeepsBounded(t.right, child, distance);
    }
  }

  /** The balls of a tree, in no order. */
  ghost function Balls(t: Tree): multiset<Ball> {
    if t.Leaf? then multiset{} else multiset{t.item} + Balls(t.left) + Balls(t.right)
  }

  lemma {:induction false} PreorderBalls(t: Tree)
    ensures multiset(Preorder(t)) == Balls(t)
  {
    if t.Node? {
      PreorderBalls(t.left);
      PreorderBalls(t.right);
    }
  }

  lemma Regroup<T>(a: multiset<T>, b: multiset<T>, c: multiset<T>, x: multiset<T>)
    ensures a + (b + x) + c == a + b + c + x
    ensures a + b + (c + x) == a + b + c + x
  {
  }

  /** nearInsert adds just the new ball. */
  lemma {:induction false} InsertAdds(t: Tree, child: Ball, distance: (Point, Point) -> real)
    requires t.Node?
    ensures Balls(Inserted(t, child, distance)) == Balls(t) + multiset{child}
  {
    Regroup(multiset{t.item}, Balls(t.left), Balls(t.right), multiset{child});
    var leaf, none := Node(child, Leaf, 0.0, Leaf, 0.0), multiset{};
    assert Balls(leaf) == multiset{child} && Balls(Leaf) == none;
    if t.left.Leaf? {
      assert multiset{child} == none + multiset{child};
    } else if t.right.Leaf? {
      assert multiset{child} == none + multiset{child};
    } else if distance(t.left.item.at, child.at) < distance(t.right.item.at, child.at) {
      InsertAdds(t.left, child, distance);
    } else {
      InsertAdds(t.right, child, distance);
    }
  }

  /** A subtree that has got one more ball, and the radius kept for it. */
  ghost predicate IsGrown(t: Tree, radius: real, t': Tree, radius': real, child: Ball, center: Point,
                          distance: (Point, Point) -> real) {
    && Balls(t') == Balls(t) + multiset{child} && (t.Node? ==> t'.Node? && t'.item == t.item)
    && radius' >= distance(center, child.at) + child.radius && (t.Node? ==> radius' >= radius)
    && (radius' == distance(center, child.at) + child.radius || (t.Node? && radius' == radius))
  }

  /**
   Where nearInsert puts a child: the first goes to the left, the second to the right, and any other to
   the child that is nearer, to the right one if both are as near; nothing else changes. Kept folded.
   */
  ghost predicate GoesToNearer(t: Tree, t': Tree, child: Ball, distance: (Point, Point) -> real) {
    forall u :: Unfold(u) ==>
      && t.Node? && t'.Node? && t'.item == t.item
      && if t.left.Leaf? || (t.right.Node? && distance(t.left.item.at, child.at) < distance(t.right.item.at, child.at))
         then
           && IsGrown(t.left, t.leftRadius, t'.left, t'.leftRadius, child, t.item.at, distance)
           && t'.right == t.right && t'.rightRadius == t.rightRadius
         else
           && IsGrown(t.right, t.rightRadius, t'.right, t'.rightRadius, child, t.item.at, distance)
           && t'.left == t.left && t'.leftRadius == t.leftRadius
  }

  /** An empty subtree becomes a ball. */
  lemma BallIsGrown(radius: real, child: Ball, center: Point, distance: (Point, Point) -> real)
    ensures var leaf := Node(child, Leaf, 0.0, Leaf, 0.0);
      IsGrown(Leaf, radius, leaf, distance(center, child.at) + child.radius, child, center, distance)
  {
    var leaf := Node(child, Leaf, 0.0, Leaf, 0.0);
    assert Balls(leaf) == multiset{child} && Balls(Leaf) == multiset{};
  }

  lemma {:induction false} SubtreeIsGrown(t: Tree, radius: real, child: Ball, center: Point,
                                          distance: (Point, Point) -> real)
    requires t.Node?
    ensures var r := MaxReal(distance(center, child.at) + child.radius, radius);
      IsGrown(t, radius, Inserted(t, child, distance), r, child, center, distance)
  {
    InsertAdds(t, child, distance);
  }

  lemma {:induction false} InsertGoesToNearer(t: Tree, child: Ball, distance: (Point, Point) -> real)
    requires t.Node?
    ensures GoesToNearer(t, Inserted(t, child, distance), child, distance)
  {
    if t.left.Leaf? {
      BallIsGrown(t.leftRadius, child, t.item.at, distance);
    } else if t.right.Leaf? {
      BallIsGrown(t.rightRadius, child, t.item.at, distance);
    } else if distance(t.left.item.at, child.at) < distance(t.right.item.at, child.at) {
      SubtreeIsGrown(t.left, t.leftRadius, child, t.item.at, distance);
    } else {
      SubtreeIsGrown(t.right, t.rightRadius, child, t.item.at, distance);
    }
  }

  lemma {:induction false} InsertNonNegative(t: Tree, child: Ball, distance: (Point, Point) -> real)
    requires t.Node? && child.radius >= 0.0 && NonNegative(t)
    ensures NonNegative(Inserted(t, child, distance))
  {
    if t.left.Node? && t.right.Node? {
      if distance(t.left.item.at, child.at) < distance(t.right.item.at, child.at) {
        InsertNonNegative(t.left, child, distance);
      } else {
        InsertNonNegative(t.right, child, distance);
      }
    }
  }

  /** The tree built from a root by a sequence of insertions. */
  ghost function Built(root: Ball, children: seq<Ball>, distance: (Point, Point) -> real): (t: Tree)
    ensures t.Node?
  {
    if children == [] then Node(root, Leaf, 0.0, Leaf, 0.0)
    else Inserted(Built(root, children[..|children| - 1], distance), children[|children| - 1], distance)
  }

  /** Whatever is inserted, the radii are right. */
  lemma {:induction false} BuiltIsBounded(root: Ball, children: seq<Ball>, distance: (Point, Point) -> real)
    ensures Bounded(Built(root, children, distance), distance)
  {
    if children != [] {
      var m := |children| - 1;
      BuiltIsBounded(root, children[..m], distance);
      InsertKeepsBounded(Built(root, children[..m], distance), children[m], distance);
    }
  }

  lemma MultisetOfLast<T>(s: seq<T>)
    requires s != []
    ensures multiset(s) == multiset(s[..|s| - 1]) + multiset{s[|s| - 1]}
  {
    assert s == s[..|s| - 1] + [s[|s| - 1]];
  }

  lemma RootAndLast<T>(root: T, s: seq<T>)
    requires s != []
    ensures multiset([root] + s) == multiset([root] + s[..|s| - 1]) + multiset{s[|s| - 1]}
  {
    MultisetOfLast([root] + s);
    assert ([root] + s)[..|s|] == [root] + s[..|s| - 1];
  }

  /** The tree holds just the balls inserted. */
  lemma {:induction false} BuiltHolds(root: Ball, children: seq<Ball>, distance: (Point, Point) -> real)
    ensures Balls(Built(root, children, distance)) == multiset([root] + children)
  {
    if children == [] {
      assert [root] + children == [root];
    } else {
      var m := |children| - 1;
      BuiltHolds(root, children[..m], distance);
      InsertAdds(Built(root, children[..m], distance), children[m], distance);
      RootAndLast(root, children);
    }
  }

  lemma {:induction false} BuiltNonNegative(root: Ball, children: seq<Ball>, distance: (Point, Point) -> real)
    requires root.radius >= 0.0 && forall i :: 0 <= i < |children| ==> children[i].radius >= 0.0
    ensures NonNegative(Built(root, children, distance))
  {
    if children != [] {
      var m := |children| - 1;
      BuiltNonNegative(root, children[..m], distance);
      InsertNonNegative(Built(root, children[..m], distance), children[m], distance);
    }
  }

  /** nearClearance is not positive. */
  predicate Collides(ball: Ball, target: Ball, distance: (Point, Point) -> real) {
    distance(ball.at, target.at) - ball.radius - target.radius <= 0.0
  }

  /** The indices of the balls that collide with the target, in postorder. */
  ghost function Touching(t: Tree, target: Ball, distance: (Point, Point) -> real): seq<int> {
    if t.Leaf? then []
    else Touching(t.left, target, distance) + Touching(t.right, target, distance) +
         if Collides(t.item, target, distance) then [t.item.index] else []
  }

  /** The orders of the answers on a tree: a at the root, b to its left with d to its left, and c to its right. */
  lemma {:induction false} OrdersOf(a: Ball, b: Ball, c: Ball, d: Ball, target: Ball,
                                    distance: (Point, Point) -> real)
    requires Collides(a, target, distance) && Collides(b, target, distance)
    requires Collides(c, target, distance) && Collides(d, target, distance)
    ensures var t := Node(a, Node(b, Node(d, Leaf, 0.0, Leaf, 0.0), 0.0, Leaf, 0.0), 0.0,
      Node(c, Leaf, 0.0, Leaf, 0.0), 0.0);
      Preorder(t) == [a, b, d, c] && Touching(t, target, distance) == [d.index, b.index, c.index, a.index]
  {
    var right, below := Node(c, Leaf, 0.0, Leaf, 0.0), Node(d, Leaf, 0.0, Leaf, 0.0);
    var left := Node(b, below, 0.0, Leaf, 0.0);
    assert Preorder(Leaf) == [] && Touching(Leaf, target, distance) == [];
    assert Preorder(below) == [d] && Preorder(right) == [c] && Preorder(left) == [b, d];
    assert Touching(below, target, distance) == [d.index] && Touching(right, target, distance) == [c.index];
    assert Touching(left, target, distance) == [d.index, b.index];
  }

  /** Exactly the colliding balls are listed. */
  lemma {:induction false} TouchingIsColliding(t: Tree, target: Ball, distance: (Point, Point) -> real, index: int)
    ensures index in Touching(t, target, distance) <==>
      exists b :: b in Balls(t) && b.index == index && Collides(b, target, distance)
  {
    if t.Node? {
      TouchingIsColliding(t.left, target, distance, index);
      TouchingIsColliding(t.right, target, distance, index);
      forall b ensures b in Balls(t) <==> b == t.item || b in Balls(t.left) || b in Balls(t.right) {
      }
    }
  }

  /** A subtree that does not reach the target holds no collision. */
  lemma {:induction false} OutOfReach(t: Tree, center: Point, r: real, target: Ball, distance: (Point, Point) -> real)
    requires IsDistance(distance) && Within(t, center, r, distance)
    requires distance(center, target.at) - target.radius > r
    ensures Touching(t, target, distance) == []
  {
    if t.Node? {
      TriangleInequality(distance, center, t.item.at, target.at);
      OutOfReach(t.left, center, r, target, distance);
      OutOfReach(t.right, center, r, target, distance);
    }
  }

  /** The best so far of a nearest search. */
  datatype Best = Best(index: int, distance: real)

  ghost function Improved(b: Best, ball: Ball, key: Point, distance: (Point, Point) -> real): Best {
    if distance(ball.at, key) < b.distance then Best(ball.index, distance(ball.at, key)) else b
  }

  /** Looking at every ball, in preorder. */
  ghost function Scan(t: Tree, key: Point, distance: (Point, Point) -> real, b: Best): Best {
    if t.Leaf? then b
    else Scan(t.right, key, distance, Scan(t.left, key, distance, Improved(b, t.item, key, distance)))
  }

  /** A subtree too far away improves nothing. */
  lemma {:induction false} TooFar(t: Tree, center: Point, r: real, key: Point, distance: (Point, Point) -> real,
                                  b: Best)
    requires IsDistance(distance) && Within(t, center, r, distance) && NonNegative(t)
    requires distance(center, key) - r > b.distance
    ensures Scan(t, key, distance, b) == b
  {
    if t.Node? {
      TriangleInequality(distance, center, t.item.at, key);
      TooFar(t.left, center, r, key, distance, b);
      TooFar(t.right, center, r, key, distance, b);
    }
  }

  ghost function ScanList(s: seq<Ball>, key: Point, distance: (Point, Point) -> real, b: Best): Best {
    if s == [] then b else Improved(ScanList(s[..|s| - 1], key, distance, b), s[|s| - 1], key, distance)
  }

  lemma {:induction false} ScanListSplit(s: seq<Ball>, r: seq<Ball>, key: Point, distance: (Point, Point) -> real,
                                         b: Best)
    ensures ScanList(s + r, key, distance, b) == ScanList(r, key, distance, ScanList(s, key, distance, b))
  {
    if r == [] {
      assert s + r == s;
    } else {
      assert (s + r)[..|s + r| - 1] == s + r[..|r| - 1];
      ScanListSplit(s, r[..|r| - 1], key, distance, b);
    }
  }

  lemma {:induction false} ScanIsScanList(t: Tree, key: Point, distance: (Point, Point) -> real, b: Best)
    ensures Scan(t, key, distance, b) == ScanList(Preorder(t), key, distance, b)
  {
    if t.Node? {
      var b1 := Improved(b, t.item, key, distance);
      assert ScanList([t.item], key, distance, b) == b1;
      ScanListSplit([t.item], Preorder(t.left), key, distance, b);
      ScanIsScanList(t.left, key, distance, b1);
      ScanListSplit([t.item] + Preorder(t.left), Preorder(t.right), key, distance, b);
      ScanIsScanList(t.right, key, distance, Scan(t.left, key, distance, b1));
    }
  }

  /** Position k is the first of the nearest balls of a list. */
  ghost predicate IsFirstNearest(s: seq<Ball>, k: int, key: Point, distance: (Point, Point) -> real) {
    && 0 <= k < |s|
    && (forall j :: 0 <= j < k ==> distance(s[j].at, key) > distance(s[k].at, key))
    && (forall j :: k < j < |s| ==> distance(s[j].at, key) >= distance(s[k].at, key))
  }

  /** A scan finds the first nearest ball, unless all balls are at least as far as the start value. */
  lemma {:induction false} ScanListIsNearest(s: seq<Ball>, key: Point, distance: (Point, Point) -> real, b: Best)
    returns (k: int)
    ensures k == EMPTY ==> ScanList(s, key, distance, b) == b && forall j :: 0 <= j < |s| ==>
      distance(s[j].at, key) >= b.distance
    ensures k != EMPTY ==> IsFirstNearest(s, k, key, distance) && distance(s[k].at, key) < b.distance
    ensures k != EMPTY ==> ScanList(s, key, distance, b) == Best(s[k].index, distance(s[k].at, key))
  {
    k := EMPTY;
    if s != [] {
      var m := |s| - 1;
      k := ScanListIsNearest(s[..m], key, distance, b);
      if distance(s[m].at, key) < ScanList(s[..m], key, distance, b).distance {
        forall j | 0 <= j < m ensures distance(s[j].at, key) > distance(s[m].at, key) {
          assert s[..m][j] == s[j];
        }
        k := m;
      } else {
        forall j | 0 <= j < m ensures s[..m][j] == s[j] {
        }
      }
    }
  }

  class Near {
    const index: int
    const at: Point
    const radius: real
    var leftChild: Near?
    var rightChild: Near?
    var leftRadius: real
    var rightRadius: real
    ghost var Repr: set<Near>
    ghost var Value: Tree

    ghost predicate Valid()
      reads this, Repr
      decreases Repr
    {
      && this in Repr
      && (leftChild != null ==>
           leftChild in Repr && leftChild.Repr <= Repr && this !in leftChild.Repr && leftChild.Valid())
      && (rightChild != null ==>
           rightChild in Repr && rightChild.Repr <= Repr && this !in rightChild.Repr && rightChild.Valid())
      && (leftChild != null && rightChild != null ==> leftChild.Repr !! rightChild.Repr)
      && Value == Node(Ball(index, at, radius), TreeOf(leftChild), leftRadius, TreeOf(rightChild), rightRadius)
    }

    function Item(): Ball {
      Ball(index, at, radius)
    }

    /** nearInit */
    constructor (index: int, at: Point, radius: real)
      ensures Valid() && Repr == {this} && this.index == index && this.at == at && this.radius == radius
      ensures Value == Node(Ball(index, at, radius), Leaf, 0.0, Leaf, 0.0)
    {
      this.index := index;
      this.at := at;
      this.radius := radius;
      leftChild, rightChild := null, null;
      leftRadius, rightRadius := 0.0, 0.0;
      Repr := {this};
      Value := Node(Ball(index, at, radius), Leaf, 0.0, Leaf, 0.0);
    }

    /** nearInsert, for a child without children; it never fails. */
    method Insert(child: Near, distance: (Point, Point) -> real) returns (near: Near?)
      requires Valid() && child.Valid() && child.Repr == {child} && child !in Repr
      requires child.Value == Node(child.Item(), Leaf, 0.0, Leaf, 0.0)
      modifies Repr
      ensures near == this && Valid() && Repr == old(Repr) + {child}
      ensures old(Value).Node? && Value == Inserted(old(Value), child.Item(), distance)
      ensures GoesToNearer(old(Value), Value, child.Item(), distance)
      decreases Repr
    {
      InsertGoesToNearer(Value, child.Item(), distance);
      var childRadius := distance(at, child.at) + child.radius;
      if leftChild == null {
        leftChild := child;
        leftRadius := childRadius;
        SetValue(child);
        return this;
      }
      if rightChild == null {
        rightChild := child;
        rightRadius := childRadius;
        SetValue(child);
        return this;
      }
      var leftDistance := distance(leftChild.at, child.at);
      var rightDistance := distance(rightChild.at, child.at);
      if leftDistance < rightDistance {
        near := leftChild.Insert(child, distance);
        if leftChild == near {
          leftRadius := MaxReal(childRadius, leftRadius);
          SetValue(child);
          return this;
        }
      } else {
        near := rightChild.Insert(child, distance);
        if rightChild == near {
          rightRadius := MaxReal(childRadius, rightRadius);
          SetValue(child);
          return this;
        }
      }
      return null;
    }

    /** The ghost fields after a child has come in somewhere below. */
    ghost method SetValue(child: Near)
      requires leftChild != this && rightChild != this
      modifies this`Value, this`Repr
      ensures Repr == old(Repr) + {child}
      ensures Value == Node(Ball(index, at, radius), TreeOf(leftChild), leftRadius, TreeOf(rightChild), rightRadius)
    {
      Value := Node(Ball(index, at, radius), TreeOf(leftChild), leftRadius, TreeOf(rightChild), rightRadius);
      Repr := Repr + {child};
    }
  }

  ghost function TreeOf(near: Near?): Tree
    reads near
  {
    if near == null then Leaf else near.Value
  }

  ghost predicate ValidOrNull(near: Near?)
    reads near, if near == null then {} else near.Repr
  {
    near != null ==> near.Valid()
  }

  /** nearIndex */
  function Index(near: Near?): int {
    if near == null then EMPTY else near.index
  }

  /** nearCollisions counts the colliding balls. */
  method Collisions(near: Near?, target: Near?, distance: (Point, Point) -> real) returns (collisions: nat)
    requires ValidOrNull(near)
    ensures collisions == if target == null then 0 else |Touching(TreeOf(near), target.Item(), distance)|
    decreases TreeOf(near)
  {
    collisions := 0;
    if near == null || target == null {
      return;
    }
    var right := Collisions(near.rightChild, target, distance);
    var left := Collisions(near.leftChild, target, distance);
    collisions := right + left;
    if distance(near.at, target.at) - near.radius - target.radius <= 0.0 {
      collisions := collisions + 1;
    }
  }

  /** What is left to write when `found` of at most `maxfound` places are taken. */
  function Room(found: nat, maxfound: int, wanted: nat): (n: nat)
    ensures n <= wanted && (n > 0 ==> found + n <= maxfound)
  {
    if maxfound <= found then 0 else Min(wanted, maxfound - found)
  }

  ghost predicate Wrote(list0: seq<int>, found0: nat, list: seq<int>, found: nat, touching: seq<int>, maxfound: int) {
    && |list| == |list0| && found0 <= found <= |list|
    && found == found0 + Room(found0, maxfound, |touching|)
    && list[..found] == list0[..found0] + touching[..Room(found0, maxfound, |touching|)]
    && list[found..] == list0[found..]
  }

  lemma WroteTwice(list0: seq<int>, found0: nat, list1: seq<int>, found1: nat, list2: seq<int>, found2: nat,
                   a: seq<int>, b: seq<int>, maxfound: int)
    requires Wrote(list0, found0, list1, found1, a, maxfound) && Wrote(list1, found1, list2, found2, b, maxfound)
    ensures Wrote(list0, found0, list2, found2, a + b, maxfound)
  {
    var i, j, n := Room(found0, maxfound, |a|), Room(found1, maxfound, |b|), Room(found0, maxfound, |a + b|);
    assert (a + b)[..n] == a[..i] + b[..j];
    assert list2[found2..] == list1[found1..][found2 - found1..] == list0[found1..][found2 - found1..];
  }

  /**
   nearTouched, the pruned search: it writes the first of the colliding balls in postorder, as many as there
   is room for.
   */
  method Touched(near: Near?, target: Near?, found0: nat, maxfound: int, list: array<int>,
                 distance: (Point, Point) -> real)
    returns (found: nat)
    requires IsDistance(distance) && ValidOrNull(near) && Bounded(TreeOf(near), distance)
    requires found0 <= list.Length && maxfound <= list.Length
    modifies list
    ensures target == null ==> found == found0 && list[..] == old(list[..])
    ensures target != null ==>
      Wrote(old(list[..]), found0, list[..], found, Touching(TreeOf(near), target.Item(), distance), maxfound)
    decreases TreeOf(near)
  {
    found := found0;
    if near == null || target == null {
      return;
    }
    ghost var t, ball, list0 := near.Value, target.Item(), list[..];
    var dist := distance(near.at, target.at);
    var safeZone := dist - target.radius;
    if safeZone <= near.leftRadius {
      found := Touched(near.leftChild, target, found, maxfound, list, distance);
    } else {
      OutOfReach(t.left, near.at, near.leftRadius, ball, distance);
    }
    ghost var list1, found1 := list[..], found;
    if safeZone <= near.rightRadius {
      found := Touched(near.rightChild, target, found, maxfound, list, distance);
    } else {
      OutOfReach(t.right, near.at, near.rightRadius, ball, distance);
    }
    ghost var list2, found2 := list[..], found;
    var left, right := Touching(t.left, ball, distance), Touching(t.right, ball, distance);
    WroteTwice(list0, found0, list1, found1, list2, found2, left, right, maxfound);
    found := Note(list, found, maxfound, near.index, near.radius >= safeZone);
    ghost var last := if Collides(t.item, ball, distance) then [near.index] else [];
    WroteTwice(list0, found0, list2, found2, list[..], found, left + right, last, maxfound);
  }

  /** Writing an index if there is room. */
  method Note(list: array<int>, found0: nat, maxfound: int, index: int, hit: bool) returns (found: nat)
    requires found0 <= list.Length && maxfound <= list.Length
    modifies list
    ensures Wrote(old(list[..]), found0, list[..], found, if hit then [index] else [], maxfound)
  {
    found := found0;
    if hit {
      if found >= maxfound {
        return;
      }
      list[found] := index;
      found := found + 1;
    }
  }

  /** The pruned nearest search agrees with the scan of every ball. */
  method Search(root: Near?, key: Near, index0: int, distance0: real, distance: (Point, Point) -> real)
    returns (nearestIndex: int, smallestDistance: real)
    requires IsDistance(distance) && ValidOrNull(root) && Bounded(TreeOf(root), distance) && NonNegative(TreeOf(root))
    ensures Best(nearestIndex, smallestDistance) == Scan(TreeOf(root), key.at, distance, Best(index0, distance0))
    decreases TreeOf(root)
  {
    nearestIndex, smallestDistance := index0, distance0;
    if root == null {
      return;
    }
    ghost var t := root.Value;
    var myDistance := distance(root.at, key.at);
    if myDistance < smallestDistance {
      smallestDistance := myDistance;
      nearestIndex := Index(root);
    }
    if root.leftChild == null {
      return;
    }
    if myDistance - root.leftRadius <= smallestDistance {
      nearestIndex, smallestDistance := Search(root.leftChild, key, nearestIndex, smallestDistance, distance);
    } else {
      TooFar(t.left, root.at, root.leftRadius, key.at, distance, Best(nearestIndex, smallestDistance));
    }
    if root.rightChild == null {
      return;
    }
    if myDistance - root.rightRadius <= smallestDistance {
      nearestIndex, smallestDistance := Search(root.rightChild, key, nearestIndex, smallestDistance, distance);
    } else {
      TooFar(t.right, root.at, root.rightRadius, key.at, distance, Best(nearestIndex, smallestDistance));
    }
  }

  /** nearNearestIndexAndDistance: the smallest distance there is, and the first ball in preorder that has it. */
  method NearestIndexAndDistance(root: Near?, key: Near?, distance: (Point, Point) -> real)
    returns (ok: bool, index: int, dist: real, ghost k: int)
    requires IsDistance(distance) && ValidOrNull(root) && Bounded(TreeOf(root), distance) && NonNegative(TreeOf(root))
    ensures ok <==> root != null && key != null
    ensures !ok || k == EMPTY ==> index == EMPTY && dist == DBL_MAX
    ensures ok && k == EMPTY ==>
      forall j :: 0 <= j < |Preorder(TreeOf(root))| ==> distance(Preorder(TreeOf(root))[j].at, key.at) >= DBL_MAX
    ensures ok && k != EMPTY ==> IsFirstNearest(Preorder(TreeOf(root)), k, key.at, distance)
    ensures ok && k != EMPTY ==>
      index == Preorder(TreeOf(root))[k].index && dist == distance(Preorder(TreeOf(root))[k].at, key.at)
  {
    index, dist, k := EMPTY, DBL_MAX, EMPTY;
    ok := root != null && key != null;
    if ok {
      index, dist := Search(root, key, index, dist, distance);
      ScanIsScanList(TreeOf(root), key.at, distance, Best(EMPTY, DBL_MAX));
      k := ScanListIsNearest(Preorder(TreeOf(root)), key.at, distance, Best(EMPTY, DBL_MAX));
    }
  }

  /** nearNearestIndex */
  method NearestIndex(root: Near?, key: Near?, distance: (Point, Point) -> real) returns (index: int, ghost k: int)
    requires IsDistance(distance) && ValidOrNull(root) && Bounded(TreeOf(root), distance) && NonNegative(TreeOf(root))
    ensures root == null || key == null || k == EMPTY ==> index == EMPTY
    ensures root != null && key != null && k != EMPTY ==>
      IsFirstNearest(Preorder(TreeOf(root)), k, key.at, distance) && index == Preorder(TreeOf(root))[k].index
  {
    var ok, dist;
    ok, index, dist, k := NearestIndexAndDistance(root, key, distance);
    if !ok {
      index := EMPTY;
    }
  }

  /** A tree built by inserting a list of balls, one after the other. */
  method Build(root: Ball, balls: seq<Ball>, distance: (Point, Point) -> real) returns (near: Near)
    ensures near.Valid() && fresh(near.Repr) && near.Value == Built(root, balls, distance)
  {
    near := new Near(root.index, root.at, root.radius);
    assert balls[..0] == [];
    for i := 0 to |balls|
      invariant near.Valid() && fresh(near.Repr) && near.Value == Built(root, balls[..i], distance)
    {
      var child := new Near(balls[i].index, balls[i].at, balls[i].radius);
      var _ := near.Insert(child, distance);
      assert balls[..i + 1][..i] == balls[..i];
    }
    assert balls[..|balls|] == balls;
  }

  lemma {:induction false} BuiltFacts(root: Ball, balls: seq<Ball>, distance: (Point, Point) -> real)
    ensures var t := Built(root, balls, distance);
            Bounded(t, distance) && multiset(Preorder(t)) == multiset([root] + balls)
  {
    BuiltIsBounded(root, balls, distance);
    BuiltHolds(root, balls, distance);
    PreorderBalls(Built(root, balls, distance));
  }

  /** Ball b is among the nearest of a list. */
  ghost predicate IsNearest(s: seq<Ball>, b: Ball, key: Point, distance: (Point, Point) -> real) {
    b in s && forall j :: 0 <= j < |s| ==> distance(s[j].at, key) >= distance(b.at, key)
  }

  lemma FirstNearestIsNearest(s: seq<Ball>, k: int, all: seq<Ball>, key: Point, distance: (Point, Point) -> real)
    requires IsFirstNearest(s, k, key, distance) && multiset(s) == multiset(all)
    ensures IsNearest(all, s[k], key, distance)
  {
    assert s[k] in multiset(all);
    forall j | 0 <= j < |all| ensures distance(all[j].at, key) >= distance(s[k].at, key) {
      assert all[j] in multiset(s);
      var i :| 0 <= i < |s| && s[i] == all[j];
    }
  }

  lemma AllFar(s: seq<Ball>, all: seq<Ball>, key: Point, distance: (Point, Point) -> real)
    requires multiset(s) == multiset(all) && forall j :: 0 <= j < |s| ==> distance(s[j].at, key) >= DBL_MAX
    ensures forall b :: b in all ==> distance(b.at, key) >= DBL_MAX
  {
    forall b | b in all ensures distance(b.at, key) >= DBL_MAX {
      assert b in multiset(s);
      var j :| 0 <= j < |s| && s[j] == b;
    }
  }

  lemma NearestIsFound(s: seq<Ball>, k: int, all: seq<Ball>, key: Point, distance: (Point, Point) -> real, index: int,
                       dist: real)
    requires multiset(s) == multiset(all)
    requires k == EMPTY ==> forall j :: 0 <= j < |s| ==> distance(s[j].at, key) >= DBL_MAX
    requires k != EMPTY ==> IsFirstNearest(s, k, key, distance) && index == s[k].index && dist == distance(s[k].at, key)
    ensures k == EMPTY ==> forall b :: b in all ==> distance(b.at, key) >= DBL_MAX
    ensures k != EMPTY ==>
      exists b :: IsNearest(all, b, key, distance) && index == b.index && dist == distance(b.at, key)
  {
    if k == EMPTY {
      AllFar(s, all, key, distance);
    } else {
      FirstNearestIsNearest(s, k, all, key, distance);
      assert IsNearest(all, s[k], key, distance);
    }
  }

  /** The nearest search in a tree that holds the balls `all`. */
  method NearestInTree(near: Near, key: Ball, distance: (Point, Point) -> real, ghost all: seq<Ball>)
    returns (index: int, dist: real, ghost k: int)
    requires IsDistance(distance) && near.Valid() && Bounded(near.Value, distance) && NonNegative(near.Value)
    requires multiset(Preorder(near.Value)) == multiset(all)
    ensures k == EMPTY ==> index == EMPTY && dist == DBL_MAX
    ensures k == EMPTY ==> forall b :: b in all ==> distance(b.at, key.at) >= DBL_MAX
    ensures k != EMPTY ==> IsFirstNearest(Preorder(near.Value), k, key.at, distance)
    ensures k != EMPTY ==>
      exists b :: IsNearest(all, b, key.at, distance) && index == b.index && dist == distance(b.at, key.at)
  {
    var target := new Near(key.index, key.at, key.radius);
    var ok;
    ok, index, dist, k := NearestIndexAndDistance(near, target, distance);
    assert TreeOf(near) == near.Value;
    NearestIsFound(Preorder(near.Value), k, all, key.at, distance, index, dist);
  }

  /**
   The nearest search after any insertions with nonnegative radii: the true minimum of all distances, and
   the first ball in preorder that has it; nothing only if every ball is at least DBL_MAX away.
   */
  method NearestOfInserted(root: Ball, balls: seq<Ball>, key: Ball, distance: (Point, Point) -> real)
    returns (index: int, dist: real, ghost k: int)
    requires IsDistance(distance) && root.radius >= 0.0 && forall i :: 0 <= i < |balls| ==> balls[i].radius >= 0.0
    ensures k == EMPTY ==> index == EMPTY && dist == DBL_MAX
    ensures k == EMPTY ==> forall b :: b in [root] + balls ==> distance(b.at, key.at) >= DBL_MAX
    ensures k != EMPTY ==> IsFirstNearest(Preorder(Built(root, balls, distance)), k, key.at, distance)
    ensures k != EMPTY ==>
      exists b :: IsNearest([root] + balls, b, key.at, distance) && index == b.index && dist == distance(b.at, key.at)
  {
    var near := Build(root, balls, distance);
    BuiltFacts(root, balls, distance);
    BuiltNonNegative(root, balls, distance);
    index, dist, k := NearestInTree(near, key, distance, [root] + balls);
  }

  /** The collision search in a tree, with an empty list to start with. */
  method TouchedInTree(near: Near, target: Ball, list: array<int>, distance: (Point, Point) -> real)
    returns (found: nat)
    requires IsDistance(distance) && near.Valid() && Bounded(near.Value, distance)
    modifies list
    ensures found == Min(|Touching(near.Value, target, distance)|, list.Length)
    ensures list[..][..found] == Touching(near.Value, target, distance)[..found]
  {
    var other := new Near(target.index, target.at, target.radius);
    found := Touched(near, other, 0, list.Length, list, distance);
  }

  /**
   The collision search after any insertions: the indices found are those of colliding balls, all if there is
   room.
   */
  method TouchedOfInserted(root: Ball, balls: seq<Ball>, target: Ball, list: array<int>,
                           distance: (Point, Point) -> real)
    returns (found: nat)
    requires IsDistance(distance)
    modifies list
    ensures found <= list.Length
    ensures forall i :: 0 <= i < found ==> HasCollision([root] + balls, target, distance, list[i])
    ensures found < list.Length ==>
      forall index :: HasCollision([root] + balls, target, distance, index) ==> index in list[..found]
  {
    var near := Build(root, balls, distance);
    BuiltFacts(root, balls, distance);
    found := TouchedInTree(near, target, list, distance);
    ghost var touching := Touching(Built(root, balls, distance), target, distance);
    FoundCollide(list[..], found, touching, root, balls, target, distance);
  }

  lemma {:induction false} FoundCollide(list: seq<int>, found: nat, touching: seq<int>, root: Ball, balls: seq<Ball>,
                                        target: Ball, distance: (Point, Point) -> real)
    requires touching == Touching(Built(root, balls, distance), target, distance)
    requires found <= |list| && found == Min(|touching|, |list|) && list[..found] == touching[..found]
    ensures forall i :: 0 <= i < found ==> HasCollision([root] + balls, target, distance, list[i])
    ensures found < |list| ==>
      forall index :: HasCollision([root] + balls, target, distance, index) ==> index in list[..found]
  {
    forall index ensures index in touching <==> HasCollision([root] + balls, target, distance, index) {
      TouchingOfBuilt(root, balls, target, distance, index);
    }
    forall i | 0 <= i < found ensures HasCollision([root] + balls, target, distance, list[i]) {
      assert list[i] == list[..found][i] == touching[i] && touching[i] in touching;
    }
    assert found == |touching| ==> touching[..found] == touching;
  }

  /** Some ball of a list with the index collides with the target. */
  ghost predicate HasCollision(s: seq<Ball>, target: Ball, distance: (Point, Point) -> real, index: int) {
    exists b :: b in s && b.index == index && distance(b.at, target.at) <= b.radius + target.radius
  }

  lemma {:induction false} TouchingOfBuilt(root: Ball, balls: seq<Ball>, target: Ball,
                                           distance: (Point, Point) -> real, index: int)
    ensures index in Touching(Built(root, balls, distance), target, distance) <==>
      HasCollision([root] + balls, target, distance, index)
  {
    var t := Built(root, balls, distance);
    TouchingIsColliding(t, target, distance, index);
    BuiltHolds(root, balls, distance);
    forall b ensures b in Balls(t) <==> b in [root] + balls {
      assert b in multiset([root] + balls) <==> b in [root] + balls;
    }
  }
}
