/**
 The face-based exchange format of one/grid.c: gridExportNGP turns cells into face records, each with
 the cell or boundary id on its two sides, and gridImportNGP builds the cells again from the records.
 */
module FaceRecords {
  import opened Common
  import opened ItemStore
  import opened FacePacking
  import opened Chains

  /** The faces of a cell, each oriented into the cell and opposite to the node of the same number. */
  const CELL_FACE_NODE: seq<seq<nat>> := [[1, 3, 2], [0, 2, 3], [0, 3, 1], [0, 1, 2]]

  const NGP_LARGEST_BC: int := 100

  ghost predicate AllFour(cells: seq<seq<int>>) {
    forall c :: 0 <= c < |cells| ==> FourNodes(cells[c]) && forall i :: 0 <= i < 4 ==> cells[c][i] >= 0
  }

  function FaceNodes(c: seq<int>, f: nat): (n: seq<int>)
    requires |c| == 4 && f < 4
    ensures |n| == 3
  {
    [c[CELL_FACE_NODE[f][0]], c[CELL_FACE_NODE[f][1]], c[CELL_FACE_NODE[f][2]]]
  }

  /** The faces of a cell are those it counts as its own, in their order in the program. */
  lemma FacesAreShown(c: seq<int>, q: Tri)
    requires FourNodes(c)
    ensures FaceNodes(c, 0) == [c[1], c[3], c[2]] && FaceNodes(c, 1) == [c[0], c[2], c[3]]
    ensures FaceNodes(c, 2) == [c[0], c[3], c[1]] && FaceNodes(c, 3) == [c[0], c[1], c[2]]
    ensures TetChi(c, q) == FaceChi(FaceNodes(c, 0), q) + FaceChi(FaceNodes(c, 1), q) + FaceChi(FaceNodes(c, 2), q) +
      FaceChi(FaceNodes(c, 3), q)
  {
  }

  ghost function FaceChi(n: seq<int>, q: Tri): int
    requires |n| == 3
  {
    Chi(Tri(n[0], n[1], n[2]), q)
  }

  predicate In3(x: int, n: seq<int>)
    requires |n| == 3
  {
    x == n[0] || x == n[1] || x == n[2]
  }

  /** The same three nodes. */
  predicate Same3(a: seq<int>, b: seq<int>)
    requires |a| == |b| == 3
  {
    In3(a[0], b) && In3(a[1], b) && In3(a[2], b)
  }

  /** The same oriented triangle. */
  predicate Rotated3(a: seq<int>, b: seq<int>)
    requires |a| == 3
  {
    b == a || b == [a[1], a[2], a[0]] || b == [a[2], a[0], a[1]]
  }

  function Flip(a: seq<int>): (b: seq<int>)
    requires |a| == 3
    ensures |b| == 3
  {
    [a[1], a[0], a[2]]
  }

  /** The same triangle with opposite orientation, as gridExportNGP compares the faces of two cells. */
  predicate Opposite(a: seq<int>, b: seq<int>)
    requires |a| == |b| == 3
  {
    || (a[0] == b[1] && a[1] == b[0] && a[2] == b[2])
    || (a[0] == b[2] && a[1] == b[1] && a[2] == b[0])
    || (a[0] == b[0] && a[1] == b[2] && a[2] == b[1])
  }

  /** A face of a cell. */
  datatype Slot = Slot(cell: int, face: int)

  ghost predicate IsSlot(cells: seq<seq<int>>, s: Slot) {
    0 <= s.cell < |cells| && 0 <= s.face < 4
  }

  ghost function NodesAt(cells: seq<seq<int>>, s: Slot): (n: seq<int>)
    requires AllFour(cells) && IsSlot(cells, s)
    ensures |n| == 3
  {
    FaceNodes(cells[s.cell], s.face)
  }

  /** Two faces of different cells on the same nodes. */
  ghost predicate Mates(cells: seq<seq<int>>, s: Slot, t: Slot)
    requires AllFour(cells)
  {
    IsSlot(cells, s) && IsSlot(cells, t) && s.cell != t.cell && Same3(NodesAt(cells, s), NodesAt(cells, t))
  }

  /** At most two cells meet in a face, and they see it from opposite sides. */
  ghost predicate Conforming(cells: seq<seq<int>>) {
    && AllFour(cells)
    && (forall s, t :: Mates(cells, s, t) ==> Opposite(NodesAt(cells, s), NodesAt(cells, t)))
    && (forall s, t, t' :: Mates(cells, s, t) && Mates(cells, s, t') ==> t == t')
  }

  ghost predicate HasMate(cells: seq<seq<int>>, s: Slot)
    requires AllFour(cells)
  {
    exists t :: Mates(cells, s, t)
  }

  lemma Distinct3(c: seq<int>, f: nat)
    requires FourNodes(c) && f < 4
    ensures var n := FaceNodes(c, f); n[0] != n[1] && n[1] != n[2] && n[2] != n[0]
    ensures !In3(c[f], FaceNodes(c, f))
    ensures forall i :: 0 <= i < 4 && i != f ==> In3(c[i], FaceNodes(c, f))
  {
  }

  /** Sharing three nodes is mutual. */
  lemma SameIsMutual(a: seq<int>, b: seq<int>)
    requires |a| == |b| == 3 && Same3(a, b) && a[0] != a[1] && a[1] != a[2] && a[2] != a[0]
    ensures Same3(b, a)
  {
  }

  lemma MatesSymmetric(cells: seq<seq<int>>, s: Slot, t: Slot)
    requires AllFour(cells) && Mates(cells, s, t)
    ensures Mates(cells, t, s)
  {
    Distinct3(cells[s.cell], s.face);
    SameIsMutual(NodesAt(cells, s), NodesAt(cells, t));
  }

  /** Faces of one cell differ. */
  lemma FacesDiffer(c: seq<int>, f: nat, g: nat)
    requires FourNodes(c) && f < 4 && g < 4 && Same3(FaceNodes(c, f), FaceNodes(c, g))
    ensures f == g
  {
  }

  /** A cell with three given nodes has a face on them. */
  lemma FaceOn(c: seq<int>, n: seq<int>) returns (g: nat)
    requires FourNodes(c) && |n| == 3 && n[0] != n[1] && n[1] != n[2] && n[2] != n[0]
    requires n[0] in c && n[1] in c && n[2] in c
    ensures g < 4 && Same3(n, FaceNodes(c, g))
  {
    assert c == [c[0], c[1], c[2], c[3]];
    g := if !In3(c[0], n) then 0 else if !In3(c[1], n) then 1 else if !In3(c[2], n) then 2 else 3;
  }

  lemma OppositeIsFlip(a: seq<int>, b: seq<int>)
    requires |a| == |b| == 3 && Opposite(a, b)
    ensures Rotated3(b, Flip(a))
  {
    assert b == [b[0], b[1], b[2]] && a == [a[0], a[1], a[2]];
  }

  /** Numbers for the faces: every number has an owner, the first slot on the face, and belongs to it and its mate. */
  ghost predicate NumbersOk(cells: seq<seq<int>>, c2f: seq<seq<int>>, owners: seq<Slot>) {
    && Conforming(cells) && |c2f| == |cells|
    && (forall c :: 0 <= c < |c2f| ==> |c2f[c]| == 4)
    && forall u :: Unfold(u) ==>
         && (forall s :: IsSlot(cells, s) ==> SlotOk(cells, c2f, owners, s))
         && (forall n :: 0 <= n < |owners| ==> OwnerOk(cells, c2f, owners, n))
  }

  ghost predicate SlotOk(cells: seq<seq<int>>, c2f: seq<seq<int>>, owners: seq<Slot>, s: Slot)
    requires AllFour(cells) && |c2f| == |cells| && (forall c :: 0 <= c < |c2f| ==> |c2f[c]| == 4) && IsSlot(cells, s)
  {
    var n := c2f[s.cell][s.face];
    n != EMPTY ==> 0 <= n < |owners| && (owners[n] == s || Mates(cells, owners[n], s))
  }

  ghost predicate OwnerOk(cells: seq<seq<int>>, c2f: seq<seq<int>>, owners: seq<Slot>, n: int)
    requires AllFour(cells) && |c2f| == |cells| && (forall c :: 0 <= c < |c2f| ==> |c2f[c]| == 4) && 0 <= n < |owners|
  {
    && IsSlot(cells, owners[n]) && c2f[owners[n].cell][owners[n].face] == n
    && forall t :: Mates(cells, owners[n], t) ==> c2f[t.cell][t.face] == n && Before(owners[n], t)
  }

  /** The order in which the loops visit the slots. */
  predicate Before(s: Slot, t: Slot) {
    s.cell < t.cell || (s.cell == t.cell && s.face < t.face)
  }

  /** All slots before one have numbers. */
  ghost predicate NumberedBefore(cells: seq<seq<int>>, c2f: seq<seq<int>>, here: Slot)
    requires |c2f| == |cells| && forall c :: 0 <= c < |c2f| ==> |c2f[c]| == 4
  {
    forall s :: IsSlot(cells, s) && Before(s, here) ==> c2f[s.cell][s.face] != EMPTY
  }

  function Numbered(c2f: seq<seq<int>>, s: Slot, n: int): (r: seq<seq<int>>)
    requires 0 <= s.cell < |c2f| && 0 <= s.face < |c2f[s.cell]|
    ensures |r| == |c2f| && forall c :: 0 <= c < |c2f| ==> |r[c]| == |c2f[c]|
  {
    c2f[s.cell := c2f[s.cell][s.face := n]]
  }

  /** A slot without a number gets the next one, and so does its mate. */
  lemma NumberSlot(cells: seq<seq<int>>, c2f: seq<seq<int>>, owners: seq<Slot>, s: Slot, c2f': seq<seq<int>>)
    requires NumbersOk(cells, c2f, owners) && IsSlot(cells, s) && c2f[s.cell][s.face] == EMPTY
    requires NumberedBefore(cells, c2f, s)
    requires |c2f'| == |c2f| && forall c :: 0 <= c < |c2f| ==> |c2f'[c]| == 4
    requires forall t :: IsSlot(cells, t) ==>
      c2f'[t.cell][t.face] == if t == s || Mates(cells, s, t) then |owners| else c2f[t.cell][t.face]
    ensures NumbersOk(cells, c2f', owners + [s])
    ensures forall t :: IsSlot(cells, t) && (t == s || Before(t, s)) ==> c2f'[t.cell][t.face] != EMPTY
  {
    assert Unfold(0);
    var owners' := owners + [s];
    forall t | Mates(cells, s, t) ensures c2f[t.cell][t.face] == EMPTY && Before(s, t) {
      MateIsFree(cells, c2f, owners, s, t);
    }
    forall t | IsSlot(cells, t) ensures SlotOk(cells, c2f', owners', t) {
      assert SlotOk(cells, c2f, owners, t);
    }
    forall n | 0 <= n < |owners'| ensures OwnerOk(cells, c2f', owners', n) {
      if n < |owners| {
        OwnersStay(cells, c2f, owners, s, c2f', n);
      }
    }
  }

  lemma MateIsFree(cells: seq<seq<int>>, c2f: seq<seq<int>>, owners: seq<Slot>, s: Slot, t: Slot)
    requires NumbersOk(cells, c2f, owners) && IsSlot(cells, s) && c2f[s.cell][s.face] == EMPTY
    requires NumberedBefore(cells, c2f, s)
    requires Mates(cells, s, t)
    ensures c2f[t.cell][t.face] == EMPTY && Before(s, t)
  {
    assert Unfold(0);
    assert SlotOk(cells, c2f, owners, t);
    var n := c2f[t.cell][t.face];
    if n != EMPTY {
      assert OwnerOk(cells, c2f, owners, n);
      MatesSymmetric(cells, s, t);
      if owners[n] != t {
        MatesSymmetric(cells, owners[n], t);
      }
      assert false;
    }
  }

  lemma OwnersStay(cells: seq<seq<int>>, c2f: seq<seq<int>>, owners: seq<Slot>, s: Slot, c2f': seq<seq<int>>, n: nat)
    requires NumbersOk(cells, c2f, owners) && IsSlot(cells, s) && c2f[s.cell][s.face] == EMPTY && n < |owners|
    requires |c2f'| == |c2f| && forall c :: 0 <= c < |c2f| ==> |c2f'[c]| == 4
    requires forall t :: IsSlot(cells, t) ==>
      c2f'[t.cell][t.face] == if t == s || Mates(cells, s, t) then |owners| else c2f[t.cell][t.face]
    requires forall t :: Mates(cells, s, t) ==> c2f[t.cell][t.face] == EMPTY
    ensures OwnerOk(cells, c2f', owners + [s], n)
  {
    assert Unfold(0);
    assert OwnerOk(cells, c2f, owners, n);
  }

  /**
   One record: three nodes, the cell or boundary on the left, the cell on the right, and the rest of a
   boundary id.
   */
  datatype Record = Record(nodes: seq<int>, lc: int, rc: int, bc: int)

  datatype Triangle = Triangle(nodes: seq<int>, id: int)

  /** The boundary part of a record as written: the remainder of the id, negative, and its quotient. */
  function WrittenSide(f3: int): int {
    if f3 >= 0 then f3 + 1 else f3
  }

  function BoundarySide(id: int): int
    requires id >= 0
  {
    -(id % NGP_LARGEST_BC)
  }

  function WrittenRest(f5: int): int {
    if f5 == EMPTY then 0 else f5
  }

  /** The id read from the left side of a record, where it is not a cell. */
  function ReadId(lc: int, bc: int): int {
    (if lc < 0 then -lc else lc) + NGP_LARGEST_BC * bc
  }

  /**
   A boundary id survives exactly when it is not a multiple of 100; then the record is read as a boundary with
   that id.
   */
  lemma IdRoundTrip(id: int)
    requires id >= 1
    ensures id % 100 != 0 <==>
      var lc, bc := WrittenSide(BoundarySide(id)), WrittenRest(id / NGP_LARGEST_BC); lc <= 0 && ReadId(lc, bc) == id
  {
  }

  /** gridFindOtherCellWith3Nodes */
  method FindOtherCell(cells: Store<seq<int>>, n0: int, n1: int, n2: int, current: int) returns (other: int)
    requires cells.Valid() && cells.per == 4
    ensures other != EMPTY ==>
      0 <= other < |cells.rows| && other != current && HoldsThree(cells.rows, other, n0, n1, n2)
    ensures other == EMPTY && n0 != n1 && n1 != n2 && n2 != n0 ==>
      forall c :: 0 <= c < |cells.rows| && c != current ==> !HoldsThree(cells.rows, c, n0, n1, n2)
  {
    if n0 == n1 || n0 == n2 || n1 == n2 {
      return EMPTY;
    }
    var it := cells.adj.First(n0);
    cells.adj.FirstAt(n0);
    ghost var k: nat := cells.adj.Todo(n0);
    while it != EMPTY
      invariant cells.adj.At(n0, it, k) && k <= cells.adj.Todo(n0)
      invariant forall j :: k <= j < cells.adj.Todo(n0) && cells.adj.Items[n0][j] != current ==>
        !HoldsThree(cells.rows, cells.adj.Items[n0][j], n0, n1, n2)
      decreases k
    {
      var cell := cells.adj.Item(n0, it, k);
      cells.adj.PairsInRange(n0, cell);
      assert cells.adj.Pairs[(n0, cell)] == Mentions(cells.rows, n0, cell);
      if cell != current && n1 in cells.rows[cell] && n2 in cells.rows[cell] {
        return cell;
      }
      it := cells.adj.Next(n0, it, k);
      k := k - 1;
    }
    other := EMPTY;
    forall c | 0 <= c < |cells.rows| && c != current ensures !HoldsThree(cells.rows, c, n0, n1, n2) {
      cells.adj.PairsInRange(n0, c);
      assert cells.adj.Pairs[(n0, c)] == Mentions(cells.rows, n0, c);
    }
  }

  ghost predicate HoldsThree(rows: seq<seq<int>>, c: int, n0: int, n1: int, n2: int) {
    0 <= c < |rows| && |rows[c]| >= 2 && Used(rows[c]) && n0 in rows[c] && n1 in rows[c] && n2 in rows[c]
  }

  /** Whether an item is in the list of a node: the inner loops of gridFindFace. */
  method InList(faces: Store<FaceTag>, node: int, item: int) returns (found: bool)
    requires faces.Valid()
    ensures found <==> (node, item) in faces.adj.Pairs
  {
    found := faces.adj.Exists(node, item);
  }

  /** gridFindFace */
  method FindFace(faces: Store<FaceTag>, n0: int, n1: int, n2: int) returns (face: int)
    requires faces.Valid()
    ensures face != EMPTY ==> HoldsThree(faces.rows, face, n0, n1, n2)
    ensures face == EMPTY && n0 != n1 && n1 != n2 && n2 != n0 ==> forall f :: !HoldsThree(faces.rows, f, n0, n1, n2)
  {
    if n0 == n1 || n0 == n2 || n1 == n2 {
      return EMPTY;
    }
    var it := faces.adj.First(n0);
    faces.adj.FirstAt(n0);
    ghost var k: nat := faces.adj.Todo(n0);
    while it != EMPTY
      invariant faces.adj.At(n0, it, k) && k <= faces.adj.Todo(n0)
      invariant forall j :: k <= j < faces.adj.Todo(n0) ==> !HoldsThree(faces.rows, faces.adj.Items[n0][j], n0, n1, n2)
      decreases k
    {
      face := faces.adj.Item(n0, it, k);
      faces.adj.PairsInRange(n0, face);
      assert faces.adj.Pairs[(n0, face)] == Mentions(faces.rows, n0, face);
      assert faces.adj.Pairs[(n1, face)] == Mentions(faces.rows, n1, face);
      assert faces.adj.Pairs[(n2, face)] == Mentions(faces.rows, n2, face);
      var second := InList(faces, n1, face);
      if second {
        var third := InList(faces, n2, face);
        if third {
          return;
        }
      }
      it := faces.adj.Next(n0, it, k);
      k := k - 1;
    }
    face := EMPTY;
    forall f ensures !HoldsThree(faces.rows, f, n0, n1, n2) {
      faces.adj.PairsInRange(n0, f);
      assert faces.adj.Pairs[(n0, f)] == Mentions(faces.rows, n0, f);
    }
  }

  /** The cells of a packed table. */
  ghost predicate IsPackedCells(store: Store<seq<int>>, cells: seq<seq<int>>)
    reads store, store.adj
  {
    && store.Valid() && store.per == 4 && |cells| == store.count <= |store.rows| && cells == store.rows[..store.count]
    && forall c :: 0 <= c < |store.rows| ==> |store.rows[c]| >= 2 && (Used(store.rows[c]) <==> c < |cells|)
  }

  /** The comparison of a face with the faces of another cell. */
  method MarkOther(c2f: seq<seq<int>>, nodes: seq<int>, other: int, otherNodes: seq<int>, nface: int)
    returns (r: seq<seq<int>>)
    requires 0 <= other < |c2f| && |c2f[other]| == 4 && |nodes| == 3 && |otherNodes| == 4
    ensures |r| == |c2f| && |r[other]| == 4
    ensures forall c :: 0 <= c < |c2f| && c != other ==> r[c] == c2f[c]
    ensures forall g :: 0 <= g < 4 ==>
      r[other][g] == if Opposite(nodes, FaceNodes(otherNodes, g)) then nface else c2f[other][g]
  {
    r := c2f;
    for otherFace := 0 to 4
      invariant |r| == |c2f| && |r[other]| == 4
      invariant forall c :: 0 <= c < |c2f| && c != other ==> r[c] == c2f[c]
      invariant forall g :: 0 <= g < 4 ==>
        r[other][g] == if g < otherFace && Opposite(nodes, FaceNodes(otherNodes, g)) then nface else c2f[other][g]
    {
      var o := FaceNodes(otherNodes, otherFace);
      if nodes[0] == o[1] && nodes[1] == o[0] && nodes[2] == o[2] {
        r := r[other := r[other][otherFace := nface]];
      }
      if nodes[0] == o[2] && nodes[1] == o[1] && nodes[2] == o[0] {
        r := r[other := r[other][otherFace := nface]];
      }
      if nodes[0] == o[0] && nodes[1] == o[2] && nodes[2] == o[1] {
        r := r[other := r[other][otherFace := nface]];
      }
    }
  }

  /** The cell found across a face has the mate, and no other cell has one. */
  lemma MateAcross(cells: seq<seq<int>>, s: Slot, other: int) returns (t: Slot)
    requires Conforming(cells) && IsSlot(cells, s) && 0 <= other < |cells| && other != s.cell
    requires var n := NodesAt(cells, s); n[0] in cells[other] && n[1] in cells[other] && n[2] in cells[other]
    ensures Mates(cells, s, t) && t.cell == other
    ensures forall g :: 0 <= g < 4 ==> (Opposite(NodesAt(cells, s), FaceNodes(cells[other], g)) <==> g == t.face)
  {
    Distinct3(cells[s.cell], s.face);
    var g := FaceOn(cells[other], NodesAt(cells, s));
    t := Slot(other, g);
    assert Mates(cells, s, t);
    forall h | 0 <= h < 4 && Opposite(NodesAt(cells, s), FaceNodes(cells[other], h)) ensures h == g {
      assert Mates(cells, s, Slot(other, h));
    }
  }

  lemma MatesHold(cells: seq<seq<int>>, s: Slot, t: Slot)
    requires AllFour(cells) && Mates(cells, s, t)
    ensures var n := NodesAt(cells, s); n[0] in cells[t.cell] && n[1] in cells[t.cell] && n[2] in cells[t.cell]
  {
    var n, m := NodesAt(cells, s), NodesAt(cells, t);
    assert In3(n[0], m) && In3(n[1], m) && In3(n[2], m);
    assert m[0] in cells[t.cell] && m[1] in cells[t.cell] && m[2] in cells[t.cell];
  }

  lemma NoMateAcross(cells: seq<seq<int>>, s: Slot)
    requires Conforming(cells) && IsSlot(cells, s)
    requires var n := NodesAt(cells, s);
      forall c :: 0 <= c < |cells| && c != s.cell ==> !(n[1] in cells[c] && n[0] in cells[c] && n[2] in cells[c])
    ensures !HasMate(cells, s)
  {
    forall t ensures !Mates(cells, s, t) {
      if Mates(cells, s, t) {
        MatesHold(cells, s, t);
      }
    }
  }

  /** A new number for one face, on both of its sides. */
  method NumberFace(store: Store<seq<int>>, ghost cells: seq<seq<int>>, c2f: seq<seq<int>>, ghost owners: seq<Slot>,
                    s: Slot, nface: nat)
    returns (r: seq<seq<int>>)
    requires IsPackedCells(store, cells) && NumbersOk(cells, c2f, owners) && nface == |owners|
    requires IsSlot(cells, s) && c2f[s.cell][s.face] == EMPTY && NumberedBefore(cells, c2f, s)
    ensures NumbersOk(cells, r, owners + [s])
    ensures forall t :: IsSlot(cells, t) && (t == s || Before(t, s)) ==> r[t.cell][t.face] != EMPTY
  {
    assert store.rows[s.cell] == cells[s.cell];
    var nodes := FaceNodes(store.rows[s.cell], s.face);
    Distinct3(cells[s.cell], s.face);
    r := Numbered(c2f, s, nface);
    var other := FindOtherCell(store, nodes[1], nodes[0], nodes[2], s.cell);
    if other != EMPTY {
      assert store.rows[other] == cells[other];
      ghost var t := MateAcross(cells, s, other);
      r := MarkOther(r, nodes, other, store.rows[other], nface);
      forall u | IsSlot(cells, u)
        ensures r[u.cell][u.face] == if u == s || Mates(cells, s, u) then nface else c2f[u.cell][u.face]
      {
        if Mates(cells, s, u) {
          assert u == t;
        }
      }
    } else {
      forall c | 0 <= c < |cells| && c != s.cell
        ensures !(nodes[1] in cells[c] && nodes[0] in cells[c] && nodes[2] in cells[c])
      {
        assert !HoldsThree(store.rows, c, nodes[1], nodes[0], nodes[2]);
        assert store.rows[c] == cells[c];
      }
      NoMateAcross(cells, s);
    }
    NumberSlot(cells, c2f, owners, s, r);
  }

  lemma StartNumbers(cells: seq<seq<int>>, c2f: seq<seq<int>>)
    requires Conforming(cells) && |c2f| == |cells|
    requires forall c :: 0 <= c < |c2f| ==> c2f[c] == [EMPTY, EMPTY, EMPTY, EMPTY]
    ensures NumbersOk(cells, c2f, [])
  {
  }

  /** Faces are numbered in the order of the cells and of their faces. */
  ghost predicate InSlotOrder(owners: seq<Slot>) {
    forall n, m :: 0 <= n < m < |owners| ==> Before(owners[n], owners[m])
  }

  ghost predicate AllBefore(owners: seq<Slot>, here: Slot) {
    forall n :: 0 <= n < |owners| ==> Before(owners[n], here)
  }

  lemma OrderStep(owners: seq<Slot>, here: Slot, next: Slot)
    requires InSlotOrder(owners) && AllBefore(owners, here) && Before(here, next)
    ensures InSlotOrder(owners + [here]) && AllBefore(owners + [here], next) && AllBefore(owners, next)
  {
  }

  /** The first loops of gridExportNGP: a number for every face. */
  method NumberFaces(store: Store<seq<int>>, ghost cells: seq<seq<int>>)
    returns (c2f: seq<seq<int>>, nface: nat, ghost owners: seq<Slot>)
    requires IsPackedCells(store, cells) && Conforming(cells)
    ensures nface == |owners| && NumbersOk(cells, c2f, owners) && InSlotOrder(owners)
    ensures forall s :: IsSlot(cells, s) ==> c2f[s.cell][s.face] != EMPTY
  {
    c2f := seq(store.count, _ => [EMPTY, EMPTY, EMPTY, EMPTY]);
    nface, owners := 0, [];
    StartNumbers(cells, c2f);
    for cell := 0 to store.count
      invariant nface == |owners| && NumbersOk(cells, c2f, owners) && NumberedBefore(cells, c2f, Slot(cell, 0))
      invariant InSlotOrder(owners) && AllBefore(owners, Slot(cell, 0))
    {
      for cellFace := 0 to 4
        invariant nface == |owners| && NumbersOk(cells, c2f, owners) && NumberedBefore(cells, c2f, Slot(cell, cellFace))
        invariant InSlotOrder(owners) && AllBefore(owners, Slot(cell, cellFace))
      {
        OrderStep(owners, Slot(cell, cellFace), Slot(cell, cellFace + 1));
        if c2f[cell][cellFace] == EMPTY {
          ghost var s := Slot(cell, cellFace);
          c2f := NumberFace(store, cells, c2f, owners, Slot(cell, cellFace), nface);
          owners := owners + [s];
          nface := nface + 1;
        }
      }
    }
  }

  /** The six numbers kept for a face: nodes, far side, near cell, rest of a boundary id. */
  datatype FaceRow = FaceRow(nodes: seq<int>, far: int, near: int, rest: int)

  const BLANK_ROW: FaceRow := FaceRow([EMPTY, EMPTY, EMPTY], EMPTY, EMPTY, EMPTY)

  /** A row when the slots before `here` have been entered. */
  ghost predicate RowSoFar(cells: seq<seq<int>>, owner: Slot, here: Slot, row: FaceRow)
    requires AllFour(cells) && IsSlot(cells, owner)
  {
    if !Before(owner, here) then row == BLANK_ROW
    else
      && row == FaceRow(NodesAt(cells, owner), row.far, owner.cell, EMPTY)
      && (row.far == EMPTY ==> forall t :: Mates(cells, owner, t) ==> !Before(t, here))
      && (row.far != EMPTY ==> exists t :: Mates(cells, owner, t) && t.cell == row.far)
  }

  ghost predicate RowsSoFar(cells: seq<seq<int>>, owners: seq<Slot>, here: Slot, rows: seq<FaceRow>)
    requires AllFour(cells)
  {
    && |rows| == |owners|
    && forall n :: 0 <= n < |rows| ==> IsSlot(cells, owners[n]) && RowSoFar(cells, owners[n], here, rows[n])
  }

  function Entered(row: FaceRow, nodes: seq<int>, cell: int): FaceRow
    requires |row.nodes| > 0
  {
    if row.nodes[0] == EMPTY then row.(nodes := nodes, near := cell) else row.(far := cell)
  }

  lemma EnterSlot(cells: seq<seq<int>>, c2f: seq<seq<int>>, owners: seq<Slot>, here: Slot, next: Slot,
                  rows: seq<FaceRow>)
    requires NumbersOk(cells, c2f, owners) && RowsSoFar(cells, owners, here, rows) && IsSlot(cells, here)
    requires c2f[here.cell][here.face] != EMPTY
    requires forall s :: IsSlot(cells, s) ==> (Before(s, next) <==> Before(s, here) || s == here)
    ensures var n := c2f[here.cell][here.face]; 0 <= n < |rows| && |rows[n].nodes| == 3
    ensures var n := c2f[here.cell][here.face];
      RowsSoFar(cells, owners, next, rows[n := Entered(rows[n], NodesAt(cells, here), here.cell)])
  {
    assert Unfold(0);
    var n := c2f[here.cell][here.face];
    assert SlotOk(cells, c2f, owners, here);
    assert RowSoFar(cells, owners[n], here, rows[n]);
    var rows' := rows[n := Entered(rows[n], NodesAt(cells, here), here.cell)];
    forall m | 0 <= m < |rows| ensures IsSlot(cells, owners[m]) && RowSoFar(cells, owners[m], next, rows'[m]) {
      assert RowSoFar(cells, owners[m], here, rows[m]);
      assert OwnerOk(cells, c2f, owners, m);
      if m == n {
        EnterRow(cells, owners[n], here, next, rows[n]);
      }
    }
  }

  lemma EnterRow(cells: seq<seq<int>>, owner: Slot, here: Slot, next: Slot, row: FaceRow)
    requires Conforming(cells) && IsSlot(cells, owner) && IsSlot(cells, here) && RowSoFar(cells, owner, here, row)
    requires owner == here || (Mates(cells, owner, here) && Before(owner, here))
    requires forall t :: Mates(cells, owner, t) ==> Before(owner, t)
    requires forall s :: IsSlot(cells, s) ==> (Before(s, next) <==> Before(s, here) || s == here)
    ensures |row.nodes| == 3 && RowSoFar(cells, owner, next, Entered(row, NodesAt(cells, here), here.cell))
  {
    if owner == here {
      assert !Before(owner, here);
    } else {
      assert NodesAt(cells, owner)[0] >= 0;
    }
  }

  /** The loops that fill in the nodes and the cells of every face. */
  method FillRows(store: Store<seq<int>>, ghost cells: seq<seq<int>>, c2f: seq<seq<int>>, nface: nat,
                  ghost owners: seq<Slot>)
    returns (ok: bool, rows: seq<FaceRow>)
    requires IsPackedCells(store, cells) && NumbersOk(cells, c2f, owners) && nface == |owners|
    requires forall s :: IsSlot(cells, s) ==> c2f[s.cell][s.face] != EMPTY
    ensures ok && RowsSoFar(cells, owners, Slot(|cells|, 0), rows)
  {
    ok := true;
    rows := seq(nface, _ => BLANK_ROW);
    OwnersAreSlots(cells, c2f, owners);
    for cell := 0 to store.count
      invariant ok && RowsSoFar(cells, owners, Slot(cell, 0), rows)
    {
      for cellFace := 0 to 4
        invariant ok && RowsSoFar(cells, owners, Slot(cell, cellFace), rows)
      {
        ghost var here := Slot(cell, cellFace);
        assert IsSlot(cells, here);
        if c2f[cell][cellFace] == EMPTY {
          ok := false;
          return;
        }
        var face := c2f[cell][cellFace];
        assert store.rows[cell] == cells[cell];
        EnterSlot(cells, c2f, owners, here, Slot(cell, cellFace + 1), rows);
        rows := rows[face := Entered(rows[face], FaceNodes(store.rows[cell], cellFace), cell)];
      }
      NextCell(cells, owners, cell, rows);
    }
  }

  lemma OwnersAreSlots(cells: seq<seq<int>>, c2f: seq<seq<int>>, owners: seq<Slot>)
    requires NumbersOk(cells, c2f, owners)
    ensures forall n :: 0 <= n < |owners| ==> IsSlot(cells, owners[n])
  {
    assert Unfold(0);
    forall n | 0 <= n < |owners| ensures IsSlot(cells, owners[n]) {
      assert OwnerOk(cells, c2f, owners, n);
    }
  }

  lemma NextCell(cells: seq<seq<int>>, owners: seq<Slot>, cell: int, rows: seq<FaceRow>)
    requires AllFour(cells) && RowsSoFar(cells, owners, Slot(cell, 4), rows)
    ensures var next := cell + 1; RowsSoFar(cells, owners, Slot(next, 0), rows)
  {
    var next := cell + 1;
    forall n | 0 <= n < |rows| ensures IsSlot(cells, owners[n]) && RowSoFar(cells, owners[n], Slot(next, 0), rows[n]) {
      assert RowSoFar(cells, owners[n], Slot(cell, 4), rows[n]);
    }
  }

  /** A boundary face with the nodes of a slot. */
  ghost predicate IsBoundary(cells: seq<seq<int>>, s: Slot, faceRows: seq<seq<int>>, tags: seq<FaceTag>, id: int)
    requires AllFour(cells) && IsSlot(cells, s) && |faceRows| == |tags|
  {
    exists f :: 0 <= f < |faceRows| && IsFaceOn(NodesAt(cells, s), faceRows[f]) && tags[f].id == id
  }

  ghost predicate IsFaceOn(n: seq<int>, row: seq<int>)
    requires |n| == 3
  {
    |row| == 3 && Used(row) && Same3(n, row)
  }

  /** The record written for a face. */
  ghost predicate RecordOk(cells: seq<seq<int>>, owner: Slot, faceRows: seq<seq<int>>, tags: seq<FaceTag>, r: Record)
    requires AllFour(cells) && IsSlot(cells, owner) && |faceRows| == |tags|
  {
    && var n := NodesAt(cells, owner);
    && r.nodes == [n[0] + 1, n[1] + 1, n[2] + 1]
    && r.rc == owner.cell + 1
    && (HasMate(cells, owner) ==> r.bc == 0 && exists t :: Mates(cells, owner, t) && r.lc == t.cell + 1)
    && (!HasMate(cells, owner) ==> exists id: int :: IsWrittenAs(cells, owner, faceRows, tags, id, r))
  }

  ghost predicate IsWrittenAs(cells: seq<seq<int>>, owner: Slot, faceRows: seq<seq<int>>, tags: seq<FaceTag>, id: int,
                              r: Record)
    requires AllFour(cells) && IsSlot(cells, owner) && |faceRows| == |tags|
  {
    && id >= 1 && IsBoundary(cells, owner, faceRows, tags, id)
    && r.lc == (if id % 100 == 0 then 1 else -(id % 100)) && r.bc == id / 100
  }

  /** Slots that stand for their face: each face has one, itself or its mate. */
  ghost predicate OwnersOk(cells: seq<seq<int>>, owners: seq<Slot>)
    requires AllFour(cells)
  {
    && (forall n :: 0 <= n < |owners| ==> IsSlot(cells, owners[n]))
    && (forall n, m :: 0 <= n < m < |owners| ==> owners[n] != owners[m] && !Mates(cells, owners[n], owners[m]))
    && (forall s :: IsSlot(cells, s) ==> IsOwned(cells, owners, s))
  }

  ghost predicate IsOwned(cells: seq<seq<int>>, owners: seq<Slot>, s: Slot)
    requires AllFour(cells)
  {
    exists n :: 0 <= n < |owners| && (owners[n] == s || Mates(cells, owners[n], s))
  }

  lemma NumbersMakeOwners(cells: seq<seq<int>>, c2f: seq<seq<int>>, owners: seq<Slot>)
    requires NumbersOk(cells, c2f, owners) && forall s :: IsSlot(cells, s) ==> c2f[s.cell][s.face] != EMPTY
    ensures OwnersOk(cells, owners)
  {
    assert Unfold(0);
    OwnersAreSlots(cells, c2f, owners);
    forall n, m | 0 <= n < m < |owners| ensures owners[n] != owners[m] && !Mates(cells, owners[n], owners[m]) {
      assert OwnerOk(cells, c2f, owners, n) && OwnerOk(cells, c2f, owners, m);
    }
    forall s | IsSlot(cells, s) ensures IsOwned(cells, owners, s) {
      assert SlotOk(cells, c2f, owners, s);
    }
  }

  /** The records of a mesh. */
  ghost predicate IsExport(cells: seq<seq<int>>, faceRows: seq<seq<int>>, tags: seq<FaceTag>, owners: seq<Slot>,
                           records: seq<Record>) {
    && Conforming(cells) && |faceRows| == |tags| && OwnersOk(cells, owners) && |records| == |owners|
    && forall n :: 0 <= n < |records| ==> RecordOk(cells, owners[n], faceRows, tags, records[n])
  }

  /** The end of a face that has no far cell: its id, split for the file. */
  method WriteRecord(faces: Store<FaceTag>, row: FaceRow, ghost cells: seq<seq<int>>, ghost owner: Slot)
    returns (ok: bool, r: Record)
    requires faces.Valid() && faces.per == 3 && Conforming(cells) && IsSlot(cells, owner)
    requires RowSoFar(cells, owner, Slot(|cells|, 0), row)
    requires forall f :: 0 <= f < |faces.rows| && |faces.rows[f]| >= 2 && Used(faces.rows[f]) ==> faces.data[f].id >= 1
    ensures ok ==> RecordOk(cells, owner, faces.rows, faces.data, r)
    ensures !ok ==> !HasMate(cells, owner) && forall id: int :: !IsBoundary(cells, owner, faces.rows, faces.data, id)
  {
    assert Before(owner, Slot(|cells|, 0));
    assert row.rest == EMPTY;
    Distinct3(cells[owner.cell], owner.face);
    var far, rest := row.far, row.rest;
    if far == EMPTY {
      var face := FindFace(faces, row.nodes[0], row.nodes[1], row.nodes[2]);
      if face == EMPTY {
        NotBoundary(faces.rows, faces.data, cells, owner);
        return false, Record([], 0, 0, 0);
      }
      ghost var id := faces.data[face].id;
      far := -(faces.data[face].id % NGP_LARGEST_BC);
      rest := faces.data[face].id / NGP_LARGEST_BC;
      FoundIsOn(row.nodes, faces.rows[face]);
      assert IsFaceOn(NodesAt(cells, owner), faces.rows[face]);
      assert IsBoundary(cells, owner, faces.rows, faces.data, id);
      r := Record([row.nodes[0] + 1, row.nodes[1] + 1, row.nodes[2] + 1], WrittenSide(far), WrittenSide(row.near),
                  WrittenRest(rest));
      assert IsWrittenAs(cells, owner, faces.rows, faces.data, id, r);
    } else {
      r := Record([row.nodes[0] + 1, row.nodes[1] + 1, row.nodes[2] + 1], WrittenSide(far), WrittenSide(row.near),
                  WrittenRest(rest));
    }
    ok := true;
  }

  lemma FoundIsOn(n: seq<int>, row: seq<int>)
    requires |n| == |row| == 3 && Used(row) && n[0] in row && n[1] in row && n[2] in row
    ensures IsFaceOn(n, row)
  {
    assert row == [row[0], row[1], row[2]];
  }

  lemma NotBoundary(faceRows: seq<seq<int>>, tags: seq<FaceTag>, cells: seq<seq<int>>, owner: Slot)
    requires |faceRows| == |tags| && AllFour(cells) && IsSlot(cells, owner)
    requires var n := NodesAt(cells, owner); forall f :: !HoldsThree(faceRows, f, n[0], n[1], n[2])
    ensures forall id: int :: !IsBoundary(cells, owner, faceRows, tags, id)
  {
    var n := NodesAt(cells, owner);
    forall f | 0 <= f < |faceRows| ensures !IsFaceOn(n, faceRows[f]) {
      assert !HoldsThree(faceRows, f, n[0], n[1], n[2]);
    }
  }

  /** Every face of a cell that no other cell shares is in the face table. */
  ghost predicate BoundaryComplete(cells: seq<seq<int>>, faceRows: seq<seq<int>>, tags: seq<FaceTag>)
    requires AllFour(cells) && |faceRows| == |tags|
  {
    forall s :: IsSlot(cells, s) && !HasMate(cells, s) ==> exists id: int :: IsBoundary(cells, s, faceRows, tags, id)
  }

  /** gridExportNGP for a packed grid; it fails exactly when a boundary face is not in the face table. */
  method ExportNGP(store: Store<seq<int>>, faces: Store<FaceTag>, ghost cells: seq<seq<int>>)
    returns (ok: bool, records: seq<Record>, ghost owners: seq<Slot>)
    requires IsPackedCells(store, cells) && Conforming(cells) && faces.Valid() && faces.per == 3
    requires forall f :: 0 <= f < |faces.rows| && |faces.rows[f]| >= 2 && Used(faces.rows[f]) ==> faces.data[f].id >= 1
    ensures ok <==> BoundaryComplete(cells, faces.rows, faces.data)
    ensures ok ==> IsExport(cells, faces.rows, faces.data, owners, records) && InSlotOrder(owners)
  {
    var c2f, nface := [], 0;
    c2f, nface, owners := NumberFaces(store, cells);
    var filled, rows := FillRows(store, cells, c2f, nface, owners);
    NumbersMakeOwners(cells, c2f, owners);
    ok, records := WriteRecords(faces, rows, cells, owners);
    if ok {
      ExportIsComplete(cells, faces.rows, faces.data, owners, records);
    }
  }

  /** The last loop of gridExportNGP. */
  method WriteRecords(faces: Store<FaceTag>, rows: seq<FaceRow>, ghost cells: seq<seq<int>>, ghost owners: seq<Slot>)
    returns (ok: bool, records: seq<Record>)
    requires faces.Valid() && faces.per == 3 && Conforming(cells) && OwnersOk(cells, owners)
    requires RowsSoFar(cells, owners, Slot(|cells|, 0), rows)
    requires forall f :: 0 <= f < |faces.rows| && |faces.rows[f]| >= 2 && Used(faces.rows[f]) ==> faces.data[f].id >= 1
    ensures ok ==> IsExport(cells, faces.rows, faces.data, owners, records)
    ensures !ok ==> !BoundaryComplete(cells, faces.rows, faces.data)
  {
    records := [];
    for face := 0 to |rows|
      invariant |records| == face
      invariant forall n :: 0 <= n < face ==> RecordOk(cells, owners[n], faces.rows, faces.data, records[n])
    {
      assert RowSoFar(cells, owners[face], Slot(|cells|, 0), rows[face]);
      var r;
      ok, r := WriteRecord(faces, rows[face], cells, owners[face]);
      if !ok {
        return;
      }
      records := records + [r];
    }
    ok := true;
  }

  lemma ExportIsComplete(cells: seq<seq<int>>, faceRows: seq<seq<int>>, tags: seq<FaceTag>, owners: seq<Slot>,
                         records: seq<Record>)
    requires IsExport(cells, faceRows, tags, owners, records)
    ensures BoundaryComplete(cells, faceRows, tags)
  {
    forall s | IsSlot(cells, s) && !HasMate(cells, s)
      ensures exists id: int :: IsBoundary(cells, s, faceRows, tags, id)
    {
      assert IsOwned(cells, owners, s);
      var n :| 0 <= n < |owners| && (owners[n] == s || Mates(cells, owners[n], s));
      if owners[n] != s {
        MatesSymmetric(cells, owners[n], s);
      }
      assert RecordOk(cells, owners[n], faceRows, tags, records[n]);
      var id: int :| IsWrittenAs(cells, s, faceRows, tags, id, records[n]);
    }
  }

  const BLANK_CELL: seq<int> := [EMPTY, EMPTY, EMPTY, EMPTY]

  /** One side of a record read into a cell: the first face gives three nodes, a later one the node it lacks. */
  function PutSide(cell: seq<int>, first: seq<int>, nodes: seq<int>): (r: seq<int>)
    requires |cell| == 4 && |first| == |nodes| == 3
    ensures |r| == 4
  {
    if cell[0] == EMPTY then [first[0], first[1], first[2], cell[3]]
    else cell[3 := LastNew(nodes, cell)]
  }

  /** The last of three nodes that is not among the first three of a cell, or the fourth node of the cell. */
  function LastNew(nodes: seq<int>, cell: seq<int>): int
    requires |nodes| == 3 && |cell| == 4
  {
    if !In3(nodes[2], cell[..3]) then nodes[2]
    else if !In3(nodes[1], cell[..3]) then nodes[1]
    else if !In3(nodes[0], cell[..3]) then nodes[0]
    else cell[3]
  }

  /** A record of a file for ncell cells. */
  predicate IsReadable(r: Record, ncell: nat) {
    |r.nodes| == 3 && r.lc <= ncell && r.rc <= ncell
  }

  function ReadNodes(r: Record): (n: seq<int>)
    requires |r.nodes| == 3
    ensures |n| == 3
  {
    [r.nodes[0] - 1, r.nodes[1] - 1, r.nodes[2] - 1]
  }

  ghost function ReadRecord(c2n: seq<seq<int>>, r: Record): (s: seq<seq<int>>)
    requires IsReadable(r, |c2n|) && forall c :: 0 <= c < |c2n| ==> |c2n[c]| == 4
    ensures |s| == |c2n| && forall c :: 0 <= c < |s| ==> |s[c]| == 4
  {
    var n := ReadNodes(r);
    var left := if r.lc > 0 then c2n[r.lc - 1 := PutSide(c2n[r.lc - 1], Flip(n), n)] else c2n;
    if r.rc > 0 then left[r.rc - 1 := PutSide(left[r.rc - 1], n, n)] else left
  }

  ghost function ReadCells(ncell: nat, records: seq<Record>, k: nat): (c2n: seq<seq<int>>)
    requires k <= |records| && forall i :: 0 <= i < |records| ==> IsReadable(records[i], ncell)
    ensures |c2n| == ncell && forall c :: 0 <= c < ncell ==> |c2n[c]| == 4
  {
    if k == 0 then seq(ncell, _ => BLANK_CELL) else ReadRecord(ReadCells(ncell, records, k - 1), records[k - 1])
  }

  /** The boundary triangles of a record, left side first. */
  ghost function ReadSides(r: Record): seq<Triangle>
    requires |r.nodes| == 3
  {
    (if r.lc > 0 then [] else [Triangle(ReadNodes(r), ReadId(r.lc, r.bc))]) +
    (if r.rc > 0 then [] else [Triangle(ReadNodes(r), ReadId(r.rc, r.bc))])
  }

  ghost function ReadFaces(ncell: nat, records: seq<Record>, k: nat): seq<Triangle>
    requires k <= |records| && forall i :: 0 <= i < |records| ==> IsReadable(records[i], ncell)
  {
    if k == 0 then [] else ReadFaces(ncell, records, k - 1) + ReadSides(records[k - 1])
  }

  /** The loop over the nodes of a later face of a cell. */
  method FourthNode(cell: seq<int>, nodes: seq<int>) returns (r: seq<int>)
    requires |cell| == 4 && |nodes| == 3
    ensures r == cell[3 := LastNew(nodes, cell)]
  {
    r := cell;
    for node := 0 to 3
      invariant |r| == 4 && r[..3] == cell[..3]
      invariant r[3] == (if node >= 3 && !In3(nodes[2], cell[..3]) then nodes[2]
                         else if node >= 2 && !In3(nodes[1], cell[..3]) then nodes[1]
                         else if node >= 1 && !In3(nodes[0], cell[..3]) then nodes[0] else cell[3])
    {
      if nodes[node] != r[..3][0] && nodes[node] != r[..3][1] && nodes[node] != r[..3][2] {
        r := r[3 := nodes[node]];
      }
    }
    assert r == r[..3] + [r[3]] && cell[3 := LastNew(nodes, cell)] == cell[..3] + [LastNew(nodes, cell)];
  }

  /** One side of a record. */
  method TakeSide(c2n: seq<seq<int>>, cell: nat, first: seq<int>, nodes: seq<int>) returns (r: seq<seq<int>>)
    requires cell < |c2n| && |c2n[cell]| == 4 && |first| == |nodes| == 3
    ensures r == c2n[cell := PutSide(c2n[cell], first, nodes)]
  {
    if c2n[cell][0] == EMPTY {
      r := c2n[cell := [first[0], first[1], first[2], c2n[cell][3]]];
    } else {
      var row := FourthNode(c2n[cell], nodes);
      r := c2n[cell := row];
    }
  }

  /** gridImportNGP: the arguments of gridAddCell and gridAddFace, in the order of the calls. */
  method ImportNGP(ncell: nat, records: seq<Record>) returns (c2n: seq<seq<int>>, faces: seq<Triangle>)
    requires forall i :: 0 <= i < |records| ==> IsReadable(records[i], ncell)
    ensures c2n == ReadCells(ncell, records, |records|) && faces == ReadFaces(ncell, records, |records|)
  {
    c2n := seq(ncell, _ => BLANK_CELL);
    faces := [];
    for face := 0 to |records|
      invariant c2n == ReadCells(ncell, records, face) && faces == ReadFaces(ncell, records, face)
    {
      var r := records[face];
      var nodes := ReadNodes(r);
      if r.lc > 0 {
        c2n := TakeSide(c2n, r.lc - 1, [nodes[1], nodes[0], nodes[2]], nodes);
      } else {
        faces := faces + [Triangle(nodes, ReadId(r.lc, r.bc))];
      }
      if r.rc > 0 {
        c2n := TakeSide(c2n, r.rc - 1, nodes, nodes);
      } else {
        faces := faces + [Triangle(nodes, ReadId(r.rc, r.bc))];
      }
    }
  }

  /** A slot whose face is among the first k records. */
  ghost predicate Seen(cells: seq<seq<int>>, owners: seq<Slot>, k: nat, s: Slot)
    requires AllFour(cells) && k <= |owners|
  {
    exists n :: 0 <= n < k && (owners[n] == s || Mates(cells, owners[n], s))
  }

  /** Cell c rebuilt so far, from face `base` on. */
  ghost predicate BuiltFrom(cells: seq<seq<int>>, owners: seq<Slot>, k: nat, c: int, row: seq<int>, base: int)
    requires AllFour(cells) && k <= |owners| && 0 <= c < |cells| && |row| == 4 && 0 <= base < 4
  {
    && Seen(cells, owners, k, Slot(c, base))
    && Rotated3(FaceNodes(cells[c], base), row[..3])
    && ((exists f :: 0 <= f < 4 && f != base && Seen(cells, owners, k, Slot(c, f))) ==> row[3] == cells[c][base])
  }

  ghost predicate CellSoFar(cells: seq<seq<int>>, owners: seq<Slot>, k: nat, c: int, row: seq<int>)
    requires AllFour(cells) && k <= |owners| && 0 <= c < |cells| && |row| == 4
  {
    if row[0] == EMPTY then forall f :: 0 <= f < 4 ==> !Seen(cells, owners, k, Slot(c, f))
    else exists base :: 0 <= base < 4 && BuiltFrom(cells, owners, k, c, row, base)
  }

  /** With record k face f of cell c is seen, and no other face. */
  ghost predicate AddsFace(cells: seq<seq<int>>, owners: seq<Slot>, k: nat, c: int, f: int, g: int)
    requires AllFour(cells) && k < |owners|
  {
    Seen(cells, owners, k + 1, Slot(c, g)) <==> Seen(cells, owners, k, Slot(c, g)) || g == f
  }

  /** A new face of a cell read in. */
  lemma PutSideOk(cells: seq<seq<int>>, owners: seq<Slot>, k: nat, c: int, f: int, row: seq<int>, first: seq<int>,
                  nodes: seq<int>)
    requires AllFour(cells) && k < |owners| && 0 <= c < |cells| && 0 <= f < 4 && |row| == 4
    requires CellSoFar(cells, owners, k, c, row)
    requires |first| == |nodes| == 3 && Rotated3(FaceNodes(cells[c], f), first)
    requires Same3(nodes, FaceNodes(cells[c], f)) && Same3(FaceNodes(cells[c], f), nodes)
    requires forall g :: 0 <= g < 4 ==> AddsFace(cells, owners, k, c, f, g)
    ensures CellSoFar(cells, owners, k + 1, c, PutSide(row, first, nodes))
  {
    var row' := PutSide(row, first, nodes);
    var next := k + 1;
    Distinct3(cells[c], f);
    forall g | 0 <= g < 4
      ensures Seen(cells, owners, next, Slot(c, g)) <==> Seen(cells, owners, k, Slot(c, g)) || g == f
    {
      assert AddsFace(cells, owners, k, c, f, g);
    }
    if row[0] == EMPTY {
      assert row'[..3] == first;
      assert BuiltFrom(cells, owners, next, c, row', f);
    } else {
      var base :| 0 <= base < 4 && BuiltFrom(cells, owners, k, c, row, base);
      assert row'[..3] == row[..3];
      Distinct3(cells[c], base);
      LaterFace(cells[c], base, f, row, nodes);
      assert BuiltFrom(cells, owners, next, c, row', base);
    }
  }

  /** Another face of the cell brings exactly the node opposite to the first face. */
  lemma LaterFace(c: seq<int>, base: nat, f: nat, row: seq<int>, nodes: seq<int>)
    requires FourNodes(c) && base < 4 && f < 4 && |row| == 4 && |nodes| == 3
    requires Rotated3(FaceNodes(c, base), row[..3]) && Same3(nodes, FaceNodes(c, f)) && Same3(FaceNodes(c, f), nodes)
    ensures LastNew(nodes, row) == if f == base then row[3] else c[base]
  {
    var b := row[..3];
    forall x ensures In3(x, b) <==> In3(x, FaceNodes(c, base)) {
    }
    NewNode(c, base, f, nodes, b);
  }

  lemma NewNode(c: seq<int>, base: nat, f: nat, nodes: seq<int>, b: seq<int>)
    requires FourNodes(c) && base < 4 && f < 4 && |nodes| == |b| == 3
    requires Same3(nodes, FaceNodes(c, f)) && Same3(FaceNodes(c, f), nodes)
    requires forall x :: In3(x, b) <==> In3(x, FaceNodes(c, base))
    ensures forall i :: 0 <= i < 3 && !In3(nodes[i], b) ==> f != base && nodes[i] == c[base]
    ensures f != base ==> In3(c[base], nodes) && !In3(c[base], b)
  {
    Distinct3(c, base);
    Distinct3(c, f);
    forall i | 0 <= i < 3 && !In3(nodes[i], b) ensures f != base && nodes[i] == c[base] {
      assert In3(nodes[i], FaceNodes(c, f));
    }
  }

  /** The rebuilt cell is the old one, up to an even permutation. */
  lemma RebuiltTet(c: seq<int>, base: nat, row: seq<int>)
    requires FourNodes(c) && base < 4 && |row| == 4 && Rotated3(FaceNodes(c, base), row[..3]) && row[3] == c[base]
    ensures IsTurned(c, row)
  {
    assert row == [row[..3][0], row[..3][1], row[..3][2], row[3]];
  }

  lemma SeenStep(cells: seq<seq<int>>, owners: seq<Slot>, k: nat, s: Slot)
    requires AllFour(cells) && k < |owners|
    ensures var next := k + 1; Seen(cells, owners, next, s) <==>
      Seen(cells, owners, k, s) || owners[k] == s || Mates(cells, owners[k], s)
  {
    var next := k + 1;
    if Seen(cells, owners, k, s) {
      var n :| 0 <= n < k && (owners[n] == s || Mates(cells, owners[n], s));
      assert n < next;
    }
    if owners[k] == s || Mates(cells, owners[k], s) {
      assert k < next;
    }
  }

  /** No id of a boundary face is a multiple of 100. */
  ghost predicate IdsReadable(faceRows: seq<seq<int>>, tags: seq<FaceTag>) {
    forall f :: 0 <= f < |faceRows| && f < |tags| && |faceRows[f]| == 3 && Used(faceRows[f]) ==>
      tags[f].id % 100 != 0
  }

  /** A record that can be read, whatever the ids. */
  lemma RecordReads(cells: seq<seq<int>>, owner: Slot, faceRows: seq<seq<int>>, tags: seq<FaceTag>, r: Record)
    requires AllFour(cells) && IsSlot(cells, owner) && |faceRows| == |tags| && RecordOk(cells, owner, faceRows, tags, r)
    ensures IsReadable(r, |cells|) && ReadNodes(r) == NodesAt(cells, owner) && r.rc == owner.cell + 1
  {
    if HasMate(cells, owner) {
      var t :| Mates(cells, owner, t) && r.lc == t.cell + 1;
    } else {
      var id: int :| IsWrittenAs(cells, owner, faceRows, tags, id, r);
    }
  }

  lemma ExportReads(cells: seq<seq<int>>, faceRows: seq<seq<int>>, tags: seq<FaceTag>, owners: seq<Slot>,
                    records: seq<Record>)
    requires IsExport(cells, faceRows, tags, owners, records)
    ensures forall i :: 0 <= i < |records| ==>
      IsReadable(records[i], |cells|) && ReadNodes(records[i]) == NodesAt(cells, owners[i])
  {
    forall i | 0 <= i < |records|
      ensures IsReadable(records[i], |cells|) && ReadNodes(records[i]) == NodesAt(cells, owners[i])
    {
      assert RecordOk(cells, owners[i], faceRows, tags, records[i]);
      RecordReads(cells, owners[i], faceRows, tags, records[i]);
    }
  }

  /** What a readable id says of the far side of a record. */
  lemma RecordIsReadable(cells: seq<seq<int>>, owner: Slot, faceRows: seq<seq<int>>, tags: seq<FaceTag>, r: Record)
    requires AllFour(cells) && IsSlot(cells, owner) && |faceRows| == |tags| && RecordOk(cells, owner, faceRows, tags, r)
    requires IdsReadable(faceRows, tags)
    ensures IsReadable(r, |cells|) && ReadNodes(r) == NodesAt(cells, owner) && r.rc == owner.cell + 1
    ensures r.lc > 0 <==> HasMate(cells, owner)
    ensures r.lc > 0 ==> exists t :: Mates(cells, owner, t) && t.cell == r.lc - 1
    ensures r.lc <= 0 ==> IsBoundary(cells, owner, faceRows, tags, ReadId(r.lc, r.bc))
  {
    RecordReads(cells, owner, faceRows, tags, r);
    if HasMate(cells, owner) {
      var t :| Mates(cells, owner, t) && r.lc == t.cell + 1;
    } else {
      var id: int :| IsWrittenAs(cells, owner, faceRows, tags, id, r);
      var f :| 0 <= f < |faceRows| && IsFaceOn(NodesAt(cells, owner), faceRows[f]) && tags[f].id == id;
      IdRoundTrip(id);
    }
  }

  /** All cells on their way after k records; kept folded. */
  ghost predicate AllSoFar(cells: seq<seq<int>>, owners: seq<Slot>, k: nat, c2n: seq<seq<int>>) {
    && AllFour(cells) && k <= |owners| && |c2n| == |cells| && (forall c :: 0 <= c < |c2n| ==> |c2n[c]| == 4)
    && forall u :: Unfold(u) ==> forall c :: 0 <= c < |c2n| ==> CellSoFar(cells, owners, k, c, c2n[c])
  }

  /** Reading the next record keeps all cells on their way. */
  lemma ReadStep(cells: seq<seq<int>>, faceRows: seq<seq<int>>, tags: seq<FaceTag>, owners: seq<Slot>, r: Record,
                 k: nat,
                 c2n: seq<seq<int>>)
    requires Conforming(cells) && k < |owners| && IsSlot(cells, owners[k]) && |faceRows| == |tags|
    requires RecordOk(cells, owners[k], faceRows, tags, r) && IdsReadable(faceRows, tags)
    requires AllSoFar(cells, owners, k, c2n)
    ensures IsReadable(r, |cells|) && AllSoFar(cells, owners, k + 1, ReadRecord(c2n, r))
  {
    var next := k + 1;
    RecordIsReadable(cells, owners[k], faceRows, tags, r);
    var c2n' := ReadRecord(c2n, r);
    forall c | 0 <= c < |c2n| ensures CellSoFar(cells, owners, next, c, c2n'[c]) {
      assert Unfold(0);
      ReadStepAt(cells, owners, r, k, c2n, c);
    }
  }

  /** The faces of cell c seen with record k. */
  ghost predicate SeenOneMore(cells: seq<seq<int>>, owners: seq<Slot>, k: nat, c: int)
    requires AllFour(cells) && k < |owners|
  {
    forall f :: 0 <= f < 4 ==> SeenNext(cells, owners, k, Slot(c, f))
  }

  ghost predicate SeenNext(cells: seq<seq<int>>, owners: seq<Slot>, k: nat, s: Slot)
    requires AllFour(cells) && k < |owners|
  {
    Seen(cells, owners, k + 1, s) <==> Seen(cells, owners, k, s) || owners[k] == s || Mates(cells, owners[k], s)
  }

  /** What the next record does to a cell. */
  ghost function ReadCell(r: Record, c: nat, row: seq<int>): seq<int>
    requires |r.nodes| == 3 && |row| == 4
  {
    var left := if r.lc > 0 && c == r.lc - 1 then PutSide(row, Flip(ReadNodes(r)), ReadNodes(r)) else row;
    if r.rc > 0 && c == r.rc - 1 then PutSide(left, ReadNodes(r), ReadNodes(r)) else left
  }

  lemma ReadRecordAt(c2n: seq<seq<int>>, r: Record, c: nat)
    requires IsReadable(r, |c2n|) && c < |c2n| && forall c :: 0 <= c < |c2n| ==> |c2n[c]| == 4
    ensures ReadRecord(c2n, r)[c] == ReadCell(r, c, c2n[c])
  {
  }

  lemma ReadStepAt(cells: seq<seq<int>>, owners: seq<Slot>, r: Record, k: nat, c2n: seq<seq<int>>, c: nat)
    requires Conforming(cells) && k < |owners| && IsSlot(cells, owners[k]) && IsReadable(r, |cells|)
    requires ReadNodes(r) == NodesAt(cells, owners[k]) && r.rc == owners[k].cell + 1
    requires r.lc > 0 <==> HasMate(cells, owners[k])
    requires r.lc > 0 ==> exists t :: Mates(cells, owners[k], t) && t.cell == r.lc - 1
    requires |c2n| == |cells| && c < |cells| && (forall c :: 0 <= c < |c2n| ==> |c2n[c]| == 4)
    requires CellSoFar(cells, owners, k, c, c2n[c])
    ensures CellSoFar(cells, owners, k + 1, c, ReadRecord(c2n, r)[c])
  {
    forall f | 0 <= f < 4 ensures SeenNext(cells, owners, k, Slot(c, f)) {
      SeenStep(cells, owners, k, Slot(c, f));
    }
    ReadRecordAt(c2n, r, c);
    ReadCellStep(cells, owners, r, k, c, c2n[c]);
  }

  lemma ReadCellStep(cells: seq<seq<int>>, owners: seq<Slot>, r: Record, k: nat, c: nat, row: seq<int>)
    requires Conforming(cells) && k < |owners| && IsSlot(cells, owners[k]) && IsReadable(r, |cells|)
    requires SeenOneMore(cells, owners, k, c)
    requires ReadNodes(r) == NodesAt(cells, owners[k]) && r.rc == owners[k].cell + 1
    requires r.lc > 0 <==> HasMate(cells, owners[k])
    requires r.lc > 0 ==> exists t :: Mates(cells, owners[k], t) && t.cell == r.lc - 1
    requires c < |cells| && |row| == 4 && CellSoFar(cells, owners, k, c, row)
    ensures CellSoFar(cells, owners, k + 1, c, ReadCell(r, c, row))
  {
    var s := owners[k];
    NotFar(cells, s, r);
    if c == s.cell {
      NearSide(cells, owners, k, c, row, r);
    } else if r.lc > 0 && c == r.lc - 1 {
      var t :| Mates(cells, s, t) && t.cell == r.lc - 1;
      FarSide(cells, owners, k, t, row, r);
    } else {
      OtherCell(cells, owners, k, c, row, r);
    }
  }

  lemma NotFar(cells: seq<seq<int>>, s: Slot, r: Record)
    requires AllFour(cells) && (r.lc > 0 ==> exists t :: Mates(cells, s, t) && t.cell == r.lc - 1)
    ensures r.lc > 0 ==> s.cell != r.lc - 1
  {
  }

  lemma NearSide(cells: seq<seq<int>>, owners: seq<Slot>, k: nat, c: int, row: seq<int>, r: Record)
    requires Conforming(cells) && k < |owners| && IsSlot(cells, owners[k]) && c == owners[k].cell && |row| == 4
    requires CellSoFar(cells, owners, k, c, row) && |r.nodes| == 3 && ReadNodes(r) == NodesAt(cells, owners[k])
    requires SeenOneMore(cells, owners, k, c)
    ensures CellSoFar(cells, owners, k + 1, c, PutSide(row, ReadNodes(r), ReadNodes(r)))
  {
    var s, n := owners[k], ReadNodes(r);
    Distinct3(cells[c], s.face);
    forall g | 0 <= g < 4 ensures AddsFace(cells, owners, k, c, s.face, g) {
      assert SeenNext(cells, owners, k, Slot(c, g));
    }
    PutSideOk(cells, owners, k, c, s.face, row, n, n);
  }

  lemma FarSide(cells: seq<seq<int>>, owners: seq<Slot>, k: nat, t: Slot, row: seq<int>, r: Record)
    requires Conforming(cells) && k < |owners| && IsSlot(cells, owners[k]) && Mates(cells, owners[k], t) && |row| == 4
    requires CellSoFar(cells, owners, k, t.cell, row) && |r.nodes| == 3 && ReadNodes(r) == NodesAt(cells, owners[k])
    requires SeenOneMore(cells, owners, k, t.cell)
    ensures CellSoFar(cells, owners, k + 1, t.cell, PutSide(row, Flip(ReadNodes(r)), ReadNodes(r)))
  {
    var s, n := owners[k], ReadNodes(r);
    MatesSymmetric(cells, s, t);
    OppositeIsFlip(NodesAt(cells, s), NodesAt(cells, t));
    forall g | 0 <= g < 4 ensures AddsFace(cells, owners, k, t.cell, t.face, g) {
      assert SeenNext(cells, owners, k, Slot(t.cell, g));
    }
    PutSideOk(cells, owners, k, t.cell, t.face, row, Flip(n), n);
  }

  lemma OtherCell(cells: seq<seq<int>>, owners: seq<Slot>, k: nat, c: int, row: seq<int>, r: Record)
    requires Conforming(cells) && k < |owners| && IsSlot(cells, owners[k]) && 0 <= c < |cells| && |row| == 4
    requires CellSoFar(cells, owners, k, c, row) && c != owners[k].cell
    requires r.lc > 0 <==> HasMate(cells, owners[k])
    requires r.lc > 0 ==> exists t :: Mates(cells, owners[k], t) && t.cell == r.lc - 1
    requires r.lc > 0 ==> c != r.lc - 1
    requires SeenOneMore(cells, owners, k, c)
    ensures CellSoFar(cells, owners, k + 1, c, row)
  {
    var next := k + 1;
    forall f | 0 <= f < 4 ensures !Mates(cells, owners[k], Slot(c, f)) {
      if r.lc > 0 {
        var t :| Mates(cells, owners[k], t) && t.cell == r.lc - 1;
      }
    }
    forall f | 0 <= f < 4 ensures Seen(cells, owners, next, Slot(c, f)) <==> Seen(cells, owners, k, Slot(c, f)) {
      assert SeenNext(cells, owners, k, Slot(c, f));
    }
    if row[0] != EMPTY {
      var base :| 0 <= base < 4 && BuiltFrom(cells, owners, k, c, row, base);
      assert BuiltFrom(cells, owners, next, c, row, base);
    }
  }

  /** Records whose ids can all be read; kept folded. */
  ghost predicate IsReadableExport(cells: seq<seq<int>>, faceRows: seq<seq<int>>, tags: seq<FaceTag>, owners: seq<Slot>,
                                   records: seq<Record>) {
    |records| == |owners| && forall u :: Unfold(u) ==>
      IsExport(cells, faceRows, tags, owners, records) && IdsReadable(faceRows, tags)
  }

  lemma {:induction false} ReadSoFar(cells: seq<seq<int>>, faceRows: seq<seq<int>>, tags: seq<FaceTag>,
                                     owners: seq<Slot>,
                                     records: seq<Record>, k: nat)
    requires IsReadableExport(cells, faceRows, tags, owners, records) && k <= |records|
    requires forall i :: 0 <= i < |records| ==> IsReadable(records[i], |cells|)
    ensures AllSoFar(cells, owners, k, ReadCells(|cells|, records, k))
  {
    NoneSoFar(cells, faceRows, tags, owners, records);
    for n := 0 to k
      invariant AllSoFar(cells, owners, n, ReadCells(|cells|, records, n))
    {
      ReadNext(cells, faceRows, tags, owners, records, n);
    }
  }

  lemma {:induction false} NoneSoFar(cells: seq<seq<int>>, faceRows: seq<seq<int>>, tags: seq<FaceTag>,
    owners: seq<Slot>,
                  records: seq<Record>)
    requires IsReadableExport(cells, faceRows, tags, owners, records)
    requires forall i :: 0 <= i < |records| ==> IsReadable(records[i], |cells|)
    ensures AllSoFar(cells, owners, 0, ReadCells(|cells|, records, 0))
  {
    assert Unfold(0);
    NothingSoFar(cells, owners);
  }

  lemma NothingSoFar(cells: seq<seq<int>>, owners: seq<Slot>)
    requires AllFour(cells)
    ensures AllSoFar(cells, owners, 0, seq(|cells|, _ => BLANK_CELL))
  {
    forall c, f | 0 <= c < |cells| && 0 <= f < 4 ensures !Seen(cells, owners, 0, Slot(c, f)) {
    }
  }

  lemma ReadNext(cells: seq<seq<int>>, faceRows: seq<seq<int>>, tags: seq<FaceTag>, owners: seq<Slot>,
                 records: seq<Record>, k: nat)
    requires IsReadableExport(cells, faceRows, tags, owners, records) && k < |records|
    requires forall i :: 0 <= i < |records| ==> IsReadable(records[i], |cells|)
    requires AllSoFar(cells, owners, k, ReadCells(|cells|, records, k))
    ensures AllSoFar(cells, owners, k + 1, ReadCells(|cells|, records, k + 1))
  {
    assert Unfold(0);
    assert RecordOk(cells, owners[k], faceRows, tags, records[k]);
    ReadStep(cells, faceRows, tags, owners, records[k], k, ReadCells(|cells|, records, k));
  }

  /** A cell whose four faces have all been read. */
  lemma CellIsBack(cells: seq<seq<int>>, owners: seq<Slot>, c: nat, row: seq<int>)
    requires Conforming(cells) && OwnersOk(cells, owners) && c < |cells| && |row| == 4
    requires CellSoFar(cells, owners, |owners|, c, row)
    ensures IsTurned(cells[c], row)
  {
    var k := |owners|;
    forall f | 0 <= f < 4 ensures Seen(cells, owners, k, Slot(c, f)) {
      assert IsOwned(cells, owners, Slot(c, f));
    }
    assert Seen(cells, owners, k, Slot(c, 0));
    var base :| 0 <= base < 4 && BuiltFrom(cells, owners, k, c, row, base);
    assert Seen(cells, owners, k, Slot(c, if base == 0 then 1 else 0));
    RebuiltTet(cells[c], base, row);
  }

  /** Reading the records of a mesh gives every cell back, in its place, up to an even permutation. */
  lemma {:induction false} CellsComeBack(cells: seq<seq<int>>, faceRows: seq<seq<int>>, tags: seq<FaceTag>,
                                         owners: seq<Slot>,
                                         records: seq<Record>)
    requires IsExport(cells, faceRows, tags, owners, records)
    requires IdsReadable(faceRows, tags)
    ensures forall i :: 0 <= i < |records| ==> IsReadable(records[i], |cells|)
    ensures forall c :: 0 <= c < |cells| ==>
      |cells[c]| == 4 && IsTurned(cells[c], ReadCells(|cells|, records, |records|)[c])
  {
    ExportReads(cells, faceRows, tags, owners, records);
    var k := |records|;
    var c2n := ReadCells(|cells|, records, k);
    ReadSoFar(cells, faceRows, tags, owners, records, k);
    forall c | 0 <= c < |cells| ensures IsTurned(cells[c], c2n[c]) {
      assert Unfold(0);
      CellIsBack(cells, owners, c, c2n[c]);
    }
  }

  /** A triangle read is the face of a boundary slot, with the id of a boundary face on it. */
  ghost predicate ReadFrom(cells: seq<seq<int>>, s: Slot, faceRows: seq<seq<int>>, tags: seq<FaceTag>, t: Triangle)
    requires AllFour(cells) && IsSlot(cells, s) && |faceRows| == |tags|
  {
    t.nodes == NodesAt(cells, s) && IsBoundary(cells, s, faceRows, tags, t.id)
  }

  /** The triangles read so far belong to the faces `open`, those without a far cell among the first k; kept folded. */
  ghost predicate AllReadFrom(cells: seq<seq<int>>, faceRows: seq<seq<int>>, tags: seq<FaceTag>, owners: seq<Slot>,
                              k: nat,
                              open: seq<nat>, read: seq<Triangle>) {
    && AllFour(cells) && |faceRows| == |tags| && |open| == |read| && k <= |owners|
    && (forall n :: 0 <= n < |owners| ==> IsSlot(cells, owners[n]))
    && forall u :: Unfold(u) ==>
         && (forall j :: 0 <= j < |open| ==> open[j] < k && ReadFrom(cells, owners[open[j]], faceRows, tags, read[j]))
         && (forall i, j :: 0 <= i < j < |open| ==> open[i] < open[j])
         && (forall n :: 0 <= n < k && !HasMate(cells, owners[n]) ==> n in open)
  }

  /** The next record has a far cell. */
  lemma ReadNoTriangle(cells: seq<seq<int>>, faceRows: seq<seq<int>>, tags: seq<FaceTag>, owners: seq<Slot>, k: nat,
                       open: seq<nat>, read: seq<Triangle>)
    requires AllReadFrom(cells, faceRows, tags, owners, k, open, read) && k < |owners| && HasMate(cells, owners[k])
    ensures AllReadFrom(cells, faceRows, tags, owners, k + 1, open, read)
  {
    assert Unfold(0);
  }

  /** The next record is one of the boundary. */
  lemma ReadTriangle(cells: seq<seq<int>>, faceRows: seq<seq<int>>, tags: seq<FaceTag>, owners: seq<Slot>, k: nat,
                     open: seq<nat>, read: seq<Triangle>, t: Triangle)
    requires AllReadFrom(cells, faceRows, tags, owners, k, open, read) && k < |owners|
    requires ReadFrom(cells, owners[k], faceRows, tags, t)
    ensures AllReadFrom(cells, faceRows, tags, owners, k + 1, open + [k], read + [t])
  {
    assert Unfold(0);
    var open', read' := open + [k], read + [t];
    forall j | 0 <= j < |open'|
      ensures open'[j] < k + 1 && ReadFrom(cells, owners[open'[j]], faceRows, tags, read'[j])
    {
      assert j < |open| ==> ReadFrom(cells, owners[open[j]], faceRows, tags, read[j]);
    }
    forall n | 0 <= n < k + 1 && !HasMate(cells, owners[n]) ensures n in open' {
      assert n < k ==> n in open;
      assert open'[|open|] == k;
    }
  }

  lemma SidesOfRecord(cells: seq<seq<int>>, owner: Slot, faceRows: seq<seq<int>>, tags: seq<FaceTag>, r: Record)
    requires AllFour(cells) && IsSlot(cells, owner) && |faceRows| == |tags| && RecordOk(cells, owner, faceRows, tags, r)
    requires IdsReadable(faceRows, tags)
    ensures |r.nodes| == 3
    ensures HasMate(cells, owner) ==> ReadSides(r) == []
    ensures !HasMate(cells, owner) ==>
      ReadSides(r) == [Triangle(ReadNodes(r), ReadId(r.lc, r.bc))] &&
        ReadFrom(cells, owner, faceRows, tags, ReadSides(r)[0])
  {
    RecordIsReadable(cells, owner, faceRows, tags, r);
  }

  lemma {:induction false} FacesRead(cells: seq<seq<int>>, faceRows: seq<seq<int>>, tags: seq<FaceTag>,
                                     owners: seq<Slot>,
                                     records: seq<Record>, k: nat) returns (open: seq<nat>)
    requires IsExport(cells, faceRows, tags, owners, records) && k <= |records| && IdsReadable(faceRows, tags)
    requires forall i :: 0 <= i < |records| ==> IsReadable(records[i], |cells|)
    ensures AllReadFrom(cells, faceRows, tags, owners, k, open, ReadFaces(|cells|, records, k))
  {
    if k == 0 {
      open := [];
    } else {
      open := FacesRead(cells, faceRows, tags, owners, records, k - 1);
      open := NextRead(cells, faceRows, tags, owners, k - 1, open, ReadFaces(|cells|, records, k - 1), records[k - 1]);
    }
  }

  lemma NextRead(cells: seq<seq<int>>, faceRows: seq<seq<int>>, tags: seq<FaceTag>, owners: seq<Slot>, k: nat,
                 open: seq<nat>, read: seq<Triangle>, r: Record) returns (open': seq<nat>)
    requires AllReadFrom(cells, faceRows, tags, owners, k, open, read) && k < |owners|
    requires RecordOk(cells, owners[k], faceRows, tags, r) && IdsReadable(faceRows, tags)
    ensures |r.nodes| == 3 && AllReadFrom(cells, faceRows, tags, owners, k + 1, open', read + ReadSides(r))
  {
    SidesOfRecord(cells, owners[k], faceRows, tags, r);
    if HasMate(cells, owners[k]) {
      ReadNoTriangle(cells, faceRows, tags, owners, k, open, read);
      assert read + [] == read;
      open' := open;
    } else {
      ReadTriangle(cells, faceRows, tags, owners, k, open, read, ReadSides(r)[0]);
      open' := open + [k];
    }
  }

  /** Boundary faces have different node sets, and each is the face of some cell that no other cell shares. */
  ghost predicate BoundaryExact(cells: seq<seq<int>>, faceRows: seq<seq<int>>, tags: seq<FaceTag>)
    requires AllFour(cells) && |faceRows| == |tags|
  {
    && (forall f :: 0 <= f < |faceRows| ==> |faceRows[f]| == 3)
    && (forall f, g :: 0 <= f < |faceRows| && 0 <= g < |faceRows| && f != g ==> FacesApart(faceRows[f], faceRows[g]))
    && (forall f :: 0 <= f < |faceRows| && Used(faceRows[f]) ==> exists s :: IsOpenSlot(cells, s, faceRows[f]))
  }

  ghost predicate FacesApart(a: seq<int>, b: seq<int>)
    requires |a| == |b| == 3
  {
    Used(a) && Used(b) ==> !Same3(a, b)
  }

  /** A face of a cell on the nodes of a boundary face, with no cell on its other side. */
  ghost predicate IsOpenSlot(cells: seq<seq<int>>, s: Slot, row: seq<int>)
    requires AllFour(cells)
  {
    IsSlot(cells, s) && !HasMate(cells, s) && IsFaceOn(NodesAt(cells, s), row)
  }

  /** A triangle read for a face of the table: the same nodes, the same id. */
  ghost predicate IsFace(t: Triangle, row: seq<int>, tag: FaceTag) {
    |t.nodes| == 3 && IsFaceOn(t.nodes, row) && t.id == tag.id
  }

  lemma SameTwice(a: seq<int>, b: seq<int>, c: seq<int>)
    requires |a| == |b| == |c| == 3 && Same3(a, b) && Same3(b, c)
    ensures Same3(a, c)
  {
  }

  /** Two owners on the same nodes are one. */
  lemma OwnersDiffer(cells: seq<seq<int>>, owners: seq<Slot>, n: nat, m: nat)
    requires Conforming(cells) && OwnersOk(cells, owners) && n < |owners| && m < |owners|
    requires Same3(NodesAt(cells, owners[n]), NodesAt(cells, owners[m]))
    ensures n == m
  {
    var s, t := owners[n], owners[m];
    if s.cell == t.cell {
      FacesDiffer(cells[s.cell], s.face, t.face);
    } else {
      assert Mates(cells, s, t);
      MatesSymmetric(cells, s, t);
    }
  }

  ghost predicate IsKnown(t: Triangle, faceRows: seq<seq<int>>, tags: seq<FaceTag>) {
    exists f :: 0 <= f < |faceRows| && f < |tags| && IsFace(t, faceRows[f], tags[f])
  }

  ghost predicate IsRead(read: seq<Triangle>, row: seq<int>, tag: FaceTag) {
    exists j :: 0 <= j < |read| && IsFace(read[j], row, tag)
  }

  ghost predicate TrianglesApart(s: Triangle, t: Triangle) {
    |s.nodes| == |t.nodes| == 3 && !Same3(s.nodes, t.nodes)
  }

  /**
   The triangles read are those of the table: each is a face with the same nodes and id, no two are on
   the same nodes, and every face is read.
   */
  ghost predicate SameBoundary(read: seq<Triangle>, faceRows: seq<seq<int>>, tags: seq<FaceTag>) {
    && |faceRows| == |tags|
    && (forall j :: 0 <= j < |read| ==> IsKnown(read[j], faceRows, tags))
    && (forall i, j :: 0 <= i < j < |read| ==> TrianglesApart(read[i], read[j]))
    && (forall f :: 0 <= f < |faceRows| && |faceRows[f]| == 3 && Used(faceRows[f]) ==>
      IsRead(read, faceRows[f], tags[f]))
  }

  /** Reading the records gives the boundary triangles back. */
  lemma {:induction false} BoundaryComesBack(cells: seq<seq<int>>, faceRows: seq<seq<int>>, tags: seq<FaceTag>,
                                             owners: seq<Slot>, records: seq<Record>)
    requires IsExport(cells, faceRows, tags, owners, records) && IdsReadable(faceRows, tags)
    requires BoundaryExact(cells, faceRows, tags)
    requires forall i :: 0 <= i < |records| ==> IsReadable(records[i], |cells|)
    ensures SameBoundary(ReadFaces(|cells|, records, |records|), faceRows, tags)
  {
    var k := |records|;
    var read := ReadFaces(|cells|, records, k);
    var open := FacesRead(cells, faceRows, tags, owners, records, k);
    forall j | 0 <= j < |read| ensures IsKnown(read[j], faceRows, tags) {
      TriangleIsKnown(cells, faceRows, tags, owners, k, open, read, j);
    }
    forall i, j | 0 <= i < j < |read| ensures TrianglesApart(read[i], read[j]) {
      TrianglesDiffer(cells, faceRows, tags, owners, k, open, read, i, j);
    }
    forall f | 0 <= f < |faceRows| && |faceRows[f]| == 3 && Used(faceRows[f])
      ensures IsRead(read, faceRows[f], tags[f])
    {
      var s :| IsOpenSlot(cells, s, faceRows[f]);
      FaceIsRead(cells, faceRows, tags, owners, k, open, read, f, s);
    }
  }

  lemma TriangleIsKnown(cells: seq<seq<int>>, faceRows: seq<seq<int>>, tags: seq<FaceTag>, owners: seq<Slot>, k: nat,
                        open: seq<nat>, read: seq<Triangle>, j: nat)
    requires AllReadFrom(cells, faceRows, tags, owners, k, open, read) && j < |read|
    ensures IsKnown(read[j], faceRows, tags)
  {
    assert Unfold(0);
    assert ReadFrom(cells, owners[open[j]], faceRows, tags, read[j]);
    var f :| 0 <= f < |faceRows| && IsFaceOn(NodesAt(cells, owners[open[j]]), faceRows[f]) && tags[f].id == read[j].id;
    assert IsFace(read[j], faceRows[f], tags[f]);
  }

  lemma TrianglesDiffer(cells: seq<seq<int>>, faceRows: seq<seq<int>>, tags: seq<FaceTag>, owners: seq<Slot>, k: nat,
                        open: seq<nat>, read: seq<Triangle>, i: nat, j: nat)
    requires AllReadFrom(cells, faceRows, tags, owners, k, open, read) && i < j < |read| && Conforming(cells)
    requires OwnersOk(cells, owners)
    ensures TrianglesApart(read[i], read[j])
  {
    assert Unfold(0);
    assert ReadFrom(cells, owners[open[i]], faceRows, tags, read[i]);
    assert ReadFrom(cells, owners[open[j]], faceRows, tags, read[j]);
    if Same3(read[i].nodes, read[j].nodes) {
      OwnersDiffer(cells, owners, open[i], open[j]);
    }
  }

  lemma FaceIsRead(cells: seq<seq<int>>, faceRows: seq<seq<int>>, tags: seq<FaceTag>, owners: seq<Slot>, k: nat,
                   open: seq<nat>, read: seq<Triangle>, f: nat, s: Slot)
    requires AllReadFrom(cells, faceRows, tags, owners, k, open, read) && k == |owners| && Conforming(cells)
    requires OwnersOk(cells, owners)
    requires BoundaryExact(cells, faceRows, tags) && f < |faceRows| && Used(faceRows[f])
    requires IsOpenSlot(cells, s, faceRows[f])
    ensures IsRead(read, faceRows[f], tags[f])
  {
    var n := OwnerOfOpen(cells, owners, s);
    assert Unfold(0);
    var j :| 0 <= j < |open| && open[j] == n;
    assert ReadFrom(cells, owners[open[j]], faceRows, tags, read[j]);
    var g :| 0 <= g < |faceRows| && IsFaceOn(NodesAt(cells, s), faceRows[g]) && tags[g].id == read[j].id;
    SameFaceOn(cells, s, faceRows[f], faceRows[g]);
    assert f != g ==> FacesApart(faceRows[f], faceRows[g]);
    assert IsFace(read[j], faceRows[f], tags[f]);
  }

  /** A face without a mate is its own owner. */
  lemma OwnerOfOpen(cells: seq<seq<int>>, owners: seq<Slot>, s: Slot) returns (n: nat)
    requires Conforming(cells) && OwnersOk(cells, owners) && IsSlot(cells, s) && !HasMate(cells, s)
    ensures n < |owners| && owners[n] == s
  {
    assert IsOwned(cells, owners, s);
    n :| 0 <= n < |owners| && (owners[n] == s || Mates(cells, owners[n], s));
    if owners[n] != s {
      MatesSymmetric(cells, owners[n], s);
    }
  }

  lemma SameFaceOn(cells: seq<seq<int>>, s: Slot, a: seq<int>, b: seq<int>)
    requires AllFour(cells) && IsSlot(cells, s) && IsFaceOn(NodesAt(cells, s), a) && IsFaceOn(NodesAt(cells, s), b)
    ensures Same3(a, b)
  {
    Distinct3(cells[s.cell], s.face);
    SameIsMutual(NodesAt(cells, s), a);
    SameTwice(a, NodesAt(cells, s), b);
  }

  /** Every triangle read comes from a record whose left or right side is no cell. */
  lemma {:induction false} TriangleFrom(ncell: nat, records: seq<Record>, k: nat, j: nat) returns (n: nat)
    requires k <= |records| && forall i :: 0 <= i < |records| ==> IsReadable(records[i], ncell)
    requires j < |ReadFaces(ncell, records, k)|
    ensures n < k && (records[n].lc <= 0 || records[n].rc <= 0)
    ensures ReadFaces(ncell, records, k)[j].nodes == ReadNodes(records[n])
  {
    var before := ReadFaces(ncell, records, k - 1);
    if j < |before| {
      n := TriangleFrom(ncell, records, k - 1, j);
    } else {
      n := k - 1;
      assert ReadFaces(ncell, records, k)[j] == ReadSides(records[n])[j - |before|];
    }
  }

  /** The record of a boundary face holds the id of that face. */
  lemma RecordOfFace(cells: seq<seq<int>>, faceRows: seq<seq<int>>, tags: seq<FaceTag>, s: Slot, r: Record, f: nat)
    requires AllFour(cells) && |faceRows| == |tags| && BoundaryExact(cells, faceRows, tags) && f < |faceRows|
    requires IsOpenSlot(cells, s, faceRows[f]) && RecordOk(cells, s, faceRows, tags, r)
    ensures tags[f].id >= 1 && r.lc == WrittenSide(BoundarySide(tags[f].id))
  {
    var id: int :| IsWrittenAs(cells, s, faceRows, tags, id, r);
    var g :| 0 <= g < |faceRows| && IsFaceOn(NodesAt(cells, s), faceRows[g]) && tags[g].id == id;
    SameFaceOn(cells, s, faceRows[f], faceRows[g]);
    SameFaceIsOne(cells, faceRows, tags, f, g);
  }

  lemma SameFaceIsOne(cells: seq<seq<int>>, faceRows: seq<seq<int>>, tags: seq<FaceTag>, f: nat, g: nat)
    requires AllFour(cells) && |faceRows| == |tags| && BoundaryExact(cells, faceRows, tags) && f < |faceRows|
    requires g < |faceRows|
    requires Used(faceRows[f]) && Used(faceRows[g]) && Same3(faceRows[f], faceRows[g])
    ensures f == g
  {
  }

  /** The triangle of a boundary face whose id is a multiple of 100 is not read. */
  lemma {:induction false} HundredIsNotRead(cells: seq<seq<int>>, faceRows: seq<seq<int>>, tags: seq<FaceTag>,
    owners: seq<Slot>,
                         records: seq<Record>, f: nat)
    requires IsExport(cells, faceRows, tags, owners, records) && BoundaryExact(cells, faceRows, tags)
    requires forall i :: 0 <= i < |records| ==> IsReadable(records[i], |cells|)
    requires f < |faceRows| && Used(faceRows[f]) && tags[f].id % 100 == 0
    ensures !IsRead(ReadFaces(|cells|, records, |records|), faceRows[f], tags[f])
  {
    var s :| IsOpenSlot(cells, s, faceRows[f]);
    var m := OwnerOfOpen(cells, owners, s);
    assert RecordOk(cells, owners[m], faceRows, tags, records[m]);
    RecordOfFace(cells, faceRows, tags, s, records[m], f);
    ExportReads(cells, faceRows, tags, owners, records);
    var read := ReadFaces(|cells|, records, |records|);
    forall j | 0 <= j < |read| ensures !IsFace(read[j], faceRows[f], tags[f]) {
      if IsFace(read[j], faceRows[f], tags[f]) {
        var n := TriangleFrom(|cells|, records, |records|, j);
        SameOwner(cells, faceRows, tags, owners, records, f, m, n);
      }
    }
  }

  lemma SameOwner(cells: seq<seq<int>>, faceRows: seq<seq<int>>, tags: seq<FaceTag>, owners: seq<Slot>,
                  records: seq<Record>,
                  f: nat, m: nat, n: nat)
    requires IsExport(cells, faceRows, tags, owners, records) && f < |faceRows| && m < |owners| && n < |owners|
    requires IsFaceOn(NodesAt(cells, owners[m]), faceRows[f]) && IsFaceOn(NodesAt(cells, owners[n]), faceRows[f])
    ensures n == m && records[n].rc > 0
  {
    assert RecordOk(cells, owners[n], faceRows, tags, records[n]);
    Distinct3(cells[owners[m].cell], owners[m].face);
    SameIsMutual(NodesAt(cells, owners[m]), faceRows[f]);
    SameTwice(NodesAt(cells, owners[n]), faceRows[f], NodesAt(cells, owners[m]));
    OwnersDiffer(cells, owners, n, m);
  }

  /** The boundary comes back exactly if no id is a multiple of 100. */
  lemma {:induction false} BoundaryComesBackIff(cells: seq<seq<int>>, faceRows: seq<seq<int>>, tags: seq<FaceTag>,
                                                owners: seq<Slot>,
                                                records: seq<Record>)
    requires IsExport(cells, faceRows, tags, owners, records) && BoundaryExact(cells, faceRows, tags)
    ensures forall i :: 0 <= i < |records| ==> IsReadable(records[i], |cells|)
    ensures SameBoundary(ReadFaces(|cells|, records, |records|), faceRows, tags) <==> IdsReadable(faceRows, tags)
  {
    ExportReads(cells, faceRows, tags, owners, records);
    if IdsReadable(faceRows, tags) {
      BoundaryComesBack(cells, faceRows, tags, owners, records);
    } else {
      var f :| 0 <= f < |faceRows| && f < |tags| && |faceRows[f]| == 3 && Used(faceRows[f]) &&
        tags[f].id % 100 == 0;
      HundredIsNotRead(cells, faceRows, tags, owners, records, f);
    }
  }

  /** One cell, and a face table of its four faces, of which the first has id 100. */
  const ONE_TET: seq<seq<int>> := [[0, 1, 2, 3]]
  const ITS_FACES: seq<seq<int>> := [[1, 3, 2], [0, 2, 3], [0, 3, 1], [0, 1, 2]]
  const ITS_TAGS: seq<FaceTag> := [Tag(100, []), Tag(1, []), Tag(2, []), Tag(3, [])]

  /** This mesh can be exported, and whatever its export, the boundary read back is not the one written. */
  lemma {:induction false} HundredLosesFace(owners: seq<Slot>, records: seq<Record>)
    ensures Conforming(ONE_TET) && BoundaryExact(ONE_TET, ITS_FACES, ITS_TAGS)
    ensures BoundaryComplete(ONE_TET, ITS_FACES, ITS_TAGS)
    ensures IsExport(ONE_TET, ITS_FACES, ITS_TAGS, owners, records) ==>
      (forall i :: 0 <= i < |records| ==> IsReadable(records[i], 1)) &&
        !SameBoundary(ReadFaces(1, records, |records|), ITS_FACES, ITS_TAGS)
  {
    OneTetIsMesh();
    if IsExport(ONE_TET, ITS_FACES, ITS_TAGS, owners, records) {
      BoundaryComesBackIff(ONE_TET, ITS_FACES, ITS_TAGS, owners, records);
      assert ITS_TAGS[0].id % 100 == 0 && |ITS_FACES[0]| == 3 && Used(ITS_FACES[0]);
    }
  }

  /** Its cell is read back inside out: the first record gives its face to both sides of the cell. */
  lemma {:induction false} HundredTurnsCell(owners: seq<Slot>, records: seq<Record>)
    requires IsExport(ONE_TET, ITS_FACES, ITS_TAGS, owners, records) && InSlotOrder(owners)
    ensures forall i :: 0 <= i < |records| ==> IsReadable(records[i], 1)
    ensures ReadCells(1, records, |records|) == [[3, 1, 2, 0]] && !IsTurned(ONE_TET[0], [3, 1, 2, 0])
  {
    OneTetOwners(owners);
    ExportReads(ONE_TET, ITS_FACES, ITS_TAGS, owners, records);
    forall i | 0 <= i < 4 ensures OneTetReads(i, records[i]) {
      OneTetFaces(i);
      assert RecordOk(ONE_TET, owners[i], ITS_FACES, ITS_TAGS, records[i]);
      OneTetRecord(i, records[i]);
    }
    OneTetSteps(records);
  }

  lemma {:induction false} OneTetOrder(owners: seq<Slot>, n: nat)
    requires AllFour(ONE_TET) && OwnersOk(ONE_TET, owners) && InSlotOrder(owners) && n < |owners|
    ensures owners[n].cell == 0 && n <= owners[n].face < 4
  {
    assert IsSlot(ONE_TET, owners[n]);
    if n > 0 {
      OneTetOrder(owners, n - 1);
      assert Before(owners[n - 1], owners[n]);
    }
  }

  lemma OneTetOwner(owners: seq<Slot>, f: nat) returns (n: nat)
    requires AllFour(ONE_TET) && OwnersOk(ONE_TET, owners) && InSlotOrder(owners) && f < 4
    ensures n < |owners| && owners[n] == Slot(0, f) && n <= f
  {
    assert IsOwned(ONE_TET, owners, Slot(0, f));
    n :| 0 <= n < |owners| && (owners[n] == Slot(0, f) || Mates(ONE_TET, owners[n], Slot(0, f)));
    OneTetAlone(owners[n]);
    OneTetOrder(owners, n);
  }

  lemma OneTetOwners(owners: seq<Slot>)
    requires AllFour(ONE_TET) && OwnersOk(ONE_TET, owners) && InSlotOrder(owners)
    ensures owners == [Slot(0, 0), Slot(0, 1), Slot(0, 2), Slot(0, 3)]
  {
    var a := OneTetOwner(owners, 0);
    var b := OneTetOwner(owners, 1);
    var c := OneTetOwner(owners, 2);
    var d := OneTetOwner(owners, 3);
    assert a != b && b != c && a != c && a != d && b != d && c != d;
    OneTetOrder(owners, |owners| - 1);
  }

  ghost predicate OneTetReads(i: int, r: Record)
    requires 0 <= i < 4
  {
    |r.nodes| == 3 && ReadNodes(r) == ITS_FACES[i] && r.rc == 1 && (if i == 0 then r.lc == 1 else r.lc <= 0)
  }

  /** What is written for a face of the cell. */
  lemma OneTetRecord(i: int, r: Record)
    requires 0 <= i < 4 && AllFour(ONE_TET) && RecordOk(ONE_TET, Slot(0, i), ITS_FACES, ITS_TAGS, r)
    ensures OneTetReads(i, r)
  {
    OneTetFaces(i);
    OneTetAlone(Slot(0, i));
    RecordReads(ONE_TET, Slot(0, i), ITS_FACES, ITS_TAGS, r);
    var id: int :| IsWrittenAs(ONE_TET, Slot(0, i), ITS_FACES, ITS_TAGS, id, r);
    var f :| 0 <= f < |ITS_FACES| && IsFaceOn(ITS_FACES[i], ITS_FACES[f]) && ITS_TAGS[f].id == id;
    if f != i {
      OneTetApart(f, i);
      OneTetApart(i, f);
      assert false;
    }
  }

  lemma OneTetStep(i: int, cell: seq<int>, r: Record)
    requires 0 <= i < 4 && |cell| == 4 && IsReadable(r, 1) && OneTetReads(i, r)
    requires if i == 0 then cell == BLANK_CELL else cell == [3, 1, 2, EMPTY] || cell == [3, 1, 2, 0]
    ensures ReadRecord([cell], r) == [if i == 0 then [3, 1, 2, EMPTY] else [3, 1, 2, 0]]
  {
    var n := ReadNodes(r);
    if i == 0 {
      assert PutSide(BLANK_CELL, Flip(n), n) == [3, 1, 2, EMPTY];
      assert [3, 1, 2, EMPTY][..3] == [3, 1, 2];
      assert PutSide([3, 1, 2, EMPTY], n, n) == [3, 1, 2, EMPTY];
    } else {
      assert cell[..3] == [3, 1, 2];
      assert LastNew(n, cell) == 0 && cell[3 := 0] == [3, 1, 2, 0];
    }
  }

  lemma {:induction false} OneTetSteps(records: seq<Record>)
    requires |records| == 4 && forall i :: 0 <= i < 4 ==> IsReadable(records[i], 1) && OneTetReads(i, records[i])
    ensures ReadCells(1, records, 4) == [[3, 1, 2, 0]]
  {
    assert ReadCells(1, records, 0) == [BLANK_CELL];
    OneTetStep(0, BLANK_CELL, records[0]);
    assert ReadCells(1, records, 1) == [[3, 1, 2, EMPTY]];
    OneTetStep(1, [3, 1, 2, EMPTY], records[1]);
    assert ReadCells(1, records, 2) == [[3, 1, 2, 0]];
    OneTetStep(2, [3, 1, 2, 0], records[2]);
    assert ReadCells(1, records, 3) == [[3, 1, 2, 0]];
    OneTetStep(3, [3, 1, 2, 0], records[3]);
  }

  lemma OneTetFaces(f: int)
    requires 0 <= f < 4
    ensures AllFour(ONE_TET) && NodesAt(ONE_TET, Slot(0, f)) == ITS_FACES[f] && Used(ITS_FACES[f])
  {
    assert FourNodes(ONE_TET[0]);
  }

  lemma OneTetAlone(s: Slot)
    requires AllFour(ONE_TET)
    ensures !HasMate(ONE_TET, s)
  {
    forall t ensures !Mates(ONE_TET, s, t) {
    }
  }

  lemma OneTetOpen(f: int)
    requires 0 <= f < 4
    ensures AllFour(ONE_TET) && IsOpenSlot(ONE_TET, Slot(0, f), ITS_FACES[f])
  {
    OneTetFaces(f);
    OneTetAlone(Slot(0, f));
  }

  lemma OneTetApart(f: int, g: int)
    requires 0 <= f < 4 && 0 <= g < 4 && f != g
    ensures FacesApart(ITS_FACES[f], ITS_FACES[g])
  {
    assert !In3(f, ITS_FACES[f]) && In3(f, ITS_FACES[g]) && In3(g, ITS_FACES[f]) && !In3(g, ITS_FACES[g]);
  }

  lemma OneTetIsMesh()
    ensures Conforming(ONE_TET) && BoundaryExact(ONE_TET, ITS_FACES, ITS_TAGS)
    ensures BoundaryComplete(ONE_TET, ITS_FACES, ITS_TAGS)
  {
    OneTetFaces(0);
    forall s, t ensures !Mates(ONE_TET, s, t) {
    }
    forall f | 0 <= f < |ITS_FACES| ensures exists s :: IsOpenSlot(ONE_TET, s, ITS_FACES[f]) {
      OneTetOpen(f);
    }
    forall f, g | 0 <= f < |ITS_FACES| && 0 <= g < |ITS_FACES| && f != g
      ensures FacesApart(ITS_FACES[f], ITS_FACES[g])
    {
      OneTetApart(f, g);
    }
    forall s | IsSlot(ONE_TET, s) ensures IsBoundary(ONE_TET, s, ITS_FACES, ITS_TAGS, ITS_TAGS[s.face].id) {
      OneTetFaces(s.face);
      assert s == Slot(0, s.face);
      OneTetOpen(s.face);
    }
  }

  /** Out and back: what gridImportNGP makes of what gridExportNGP wrote. */
  method RoundTrip(store: Store<seq<int>>, faces: Store<FaceTag>, ghost cells: seq<seq<int>>)
    returns (ok: bool, c2n: seq<seq<int>>, triangles: seq<Triangle>)
    requires IsPackedCells(store, cells) && Conforming(cells) && faces.Valid() && faces.per == 3
    requires forall f :: 0 <= f < |faces.rows| && |faces.rows[f]| >= 2 && Used(faces.rows[f]) ==> faces.data[f].id >= 1
    requires BoundaryExact(cells, faces.rows, faces.data)
    ensures ok <==> BoundaryComplete(cells, faces.rows, faces.data)
    ensures ok ==> (SameBoundary(triangles, faces.rows, faces.data) <==> IdsReadable(faces.rows, faces.data))
    ensures ok && IdsReadable(faces.rows, faces.data) ==>
      |c2n| == |cells| && forall c :: 0 <= c < |cells| ==> IsTurned(cells[c], c2n[c])
  {
    var records;
    ghost var owners;
    ok, records, owners := ExportNGP(store, faces, cells);
    c2n, triangles := [], [];
    if ok {
      BoundaryComesBackIff(cells, faces.rows, faces.data, owners, records);
      c2n, triangles := ImportNGP(store.count, records);
      if IdsReadable(faces.rows, faces.data) {
        CellsComeBack(cells, faces.rows, faces.data, owners, records);
      }
    }
  }
}
