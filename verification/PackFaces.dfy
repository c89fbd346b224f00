/** The face part of gridPack (one/grid.c): faces are regrouped in place by ascending face id. */
module FacePacking {
  import opened Common
  import opened Adjacency
  import opened ItemStore
  import opened Packing

  /** Faces carry their id and the uv parameters at their three nodes. */
  type FaceTag = Tag<(real, real)>

  /** A valid face, or None for a free row. */
  datatype Face = NoFace | Face(nodes: seq<int>, tag: FaceTag)

  /** The regrouping under way: rows below `pack` have new node numbers, the others old ones. */
  datatype Regroup = Regroup(rows: seq<seq<int>>, data: seq<FaceTag>, pairs: multiset<(int, int)>, pack: nat)

  ghost predicate Shaped(g: Regroup) {
    && |g.rows| == |g.data| && g.pack <= |g.rows| && Wide(g.rows, 3)
  }

  /** Row c read with new node numbers throughout. */
  ghost function FaceAt(g: Regroup, o2n: seq<int>, c: int): Face
    requires Shaped(g) && 0 <= c < |g.rows|
  {
    if !Used(g.rows[c]) || !InRange(g.rows[c], |o2n|) then NoFace
    else Face(if c < g.pack then g.rows[c] else Mapped(g.rows[c], o2n), g.data[c])
  }

  ghost function Faces(g: Regroup, o2n: seq<int>): (s: seq<Face>)
    requires Shaped(g)
    ensures |s| == |g.rows| && forall c :: 0 <= c < |s| ==> s[c] == FaceAt(g, o2n, c)
  {
    seq(|g.rows|, c requires 0 <= c < |g.rows| => FaceAt(g, o2n, c))
  }

  ghost predicate CanMap(row: seq<int>, o2n: seq<int>) {
    InRange(row, |o2n|) && InRange(Mapped(row, o2n), |o2n|)
  }

  /** Row c during the sweep for face id `iface`, the rows below `scanned` being done. */
  ghost predicate FaceOk(g: Regroup, o2n: seq<int>, top: int, iface: int, scanned: int, c: int)
    requires Shaped(g) && 0 <= c < |g.rows|
  {
    var id := g.data[c].id;
    if c < g.pack then
      Used(g.rows[c]) && InRange(g.rows[c], |o2n|) && 1 <= id <= iface && id <= top && (id == iface ==> c < scanned)
    else
      Used(g.rows[c]) ==>
        CanMap(g.rows[c], o2n) && id <= top && (id < 1 || id >= iface) && (c < scanned ==> id != iface)
  }

  ghost predicate InOrder(data: seq<FaceTag>, c: int, d: int)
    requires 0 <= c < |data| && 0 <= d < |data|
  {
    data[c].id <= data[d].id
  }

  ghost predicate SweepInv(g: Regroup, o2n: seq<int>, top: int, iface: int, scanned: int, all: multiset<Face>,
                           count: nat) {
    && Shaped(g)
    && forall u :: Unfold(u) ==>
         && (forall c :: 0 <= c < |g.rows| ==> FaceOk(g, o2n, top, iface, scanned, c))
         && (forall c, d :: 0 <= c < d < g.pack ==> InOrder(g.data, c, d))
         && Inverse(g.pairs, g.rows)
         && multiset(Faces(g, o2n)) == all
         && NUsed(g.rows) == count
  }

  /** A face table that is packed already, and whose nodes the map leaves where they are. */
  ghost predicate IsSettled(rows: seq<seq<int>>, data: seq<FaceTag>, o2n: seq<int>, count: nat) {
    && |rows| == |data| && count <= |rows| && Wide(rows, 3) && Compact(rows, count)
    && (forall c :: 0 <= c < count ==> IsFixed(rows[c], o2n) && data[c].id >= 1)
    && forall c, d :: 0 <= c < d < count ==> InOrder(data, c, d)
  }

  ghost predicate IsFixed(row: seq<int>, o2n: seq<int>) {
    InRange(row, |o2n|) && Mapped(row, o2n) == row
  }

  /** During the sweeps over such a table nothing moves: the faces dealt with are the first ones. */
  ghost predicate Unmoved(g: Regroup, g0: Regroup, o2n: seq<int>, iface: int, scanned: int, count: nat) {
    forall u :: Unfold(u) ==> IsSettled(g0.rows, g0.data, o2n, count) ==>
      && g.rows == g0.rows && g.data == g0.data && g.pack <= count
      && forall c :: 0 <= c < count ==> (c < g.pack <==> IsDealtWith(g0.data, iface, scanned, c))
  }

  ghost predicate IsDealtWith(data: seq<FaceTag>, iface: int, scanned: int, c: nat)
    requires c < |data|
  {
    data[c].id < iface || (data[c].id == iface && c < scanned)
  }

  lemma UnmovedStart(g: Regroup, o2n: seq<int>, count: nat)
    requires g.pack == 0
    ensures Unmoved(g, g, o2n, 1, 0, count)
  {
  }

  lemma UnmovedNext(g: Regroup, g0: Regroup, o2n: seq<int>, iface: int, count: nat)
    requires Unmoved(g, g0, o2n, iface, |g0.rows|, count)
    ensures Unmoved(g, g0, o2n, iface + 1, 0, count)
  {
    assert Unfold(0);
    var next := iface + 1;
    if IsSettled(g0.rows, g0.data, o2n, count) {
      forall c | 0 <= c < count ensures c < g.pack <==> IsDealtWith(g0.data, next, 0, c) {
        assert c < g.pack <==> IsDealtWith(g0.data, iface, |g0.rows|, c);
      }
    }
  }

  lemma UnmovedSkip(g: Regroup, g0: Regroup, o2n: seq<int>, iface: int, orig: nat, count: nat)
    requires Unmoved(g, g0, o2n, iface, orig, count) && Shaped(g) && orig < |g.rows|
    requires !(g.data[orig].id == iface && Used(g.rows[orig]))
    ensures Unmoved(g, g0, o2n, iface, orig + 1, count)
  {
    assert Unfold(0);
    var scanned := orig + 1;
    if IsSettled(g0.rows, g0.data, o2n, count) {
      forall c | 0 <= c < count ensures c < g.pack <==> IsDealtWith(g0.data, iface, scanned, c) {
        assert c < g.pack <==> IsDealtWith(g0.data, iface, orig, c);
      }
    }
  }

  /** The face found is the next one already. */
  lemma UnmovedSwap(g: Regroup, g0: Regroup, o2n: seq<int>, iface: int, orig: nat, count: nat)
    requires Unmoved(g, g0, o2n, iface, orig, count) && Shaped(g) && g.pack <= orig < |g.rows|
    requires g.data[orig].id == iface && Used(g.rows[orig]) && CanMap(g.rows[orig], o2n)
    ensures Unmoved(Swapped(g, o2n, orig), g0, o2n, iface, orig + 1, count)
  {
    assert Unfold(0);
    var scanned := orig + 1;
    if IsSettled(g0.rows, g0.data, o2n, count) {
      NextIsHere(g, g0, o2n, iface, orig, count);
      forall c | 0 <= c < count ensures c < g.pack + 1 <==> IsDealtWith(g0.data, iface, scanned, c) {
        assert c < g.pack <==> IsDealtWith(g0.data, iface, orig, c);
      }
    }
  }

  lemma NextIsHere(g: Regroup, g0: Regroup, o2n: seq<int>, iface: int, orig: nat, count: nat)
    requires Unmoved(g, g0, o2n, iface, orig, count) && Shaped(g) && g.pack <= orig < |g.rows|
    requires g.data[orig].id == iface && Used(g.rows[orig]) && CanMap(g.rows[orig], o2n)
    requires IsSettled(g0.rows, g0.data, o2n, count)
    ensures orig == g.pack < count
    ensures Swapped(g, o2n, orig).rows == g0.rows && Swapped(g, o2n, orig).data == g0.data
  {
    assert Unfold(0);
    assert orig < count;
    assert g.pack < g.pack <==> IsDealtWith(g0.data, iface, orig, g.pack);
    assert g.pack < orig ==> InOrder(g0.data, g.pack, orig);
    assert IsFixed(g0.rows[orig], o2n);
  }

  /** The free list rebuilt over the tail is the one there was. */
  lemma TailStays(g0: Regroup, g: Regroup, o2n: seq<int>, iface: int, count: nat, final: seq<seq<int>>)
    requires Unmoved(g, g0, o2n, iface, 0, count) && IsSettled(g0.rows, g0.data, o2n, count) && g.pack == count
    requires (forall c :: 0 <= c < |g.rows| ==> |g.rows[c]| >= 2) && IsFinal(g.rows, final, g.pack)
    ensures final == g0.rows && g.data == g0.data
  {
    assert Unfold(0);
    forall c | 0 <= c < |final| ensures final[c] == g0.rows[c] {
      if c >= count {
        assert g0.rows[c][0 := EMPTY][1 := NextFree(c, |final|)] == g0.rows[c];
      }
    }
  }

  /** The largest id of a valid face, 0 if there is none. */
  method LargestFaceId(rows: seq<seq<int>>, data: seq<FaceTag>) returns (top: int)
    requires |rows| == |data| && forall c :: 0 <= c < |rows| ==> |rows[c]| >= 2
    ensures top >= 0 && forall c :: 0 <= c < |rows| && Used(rows[c]) ==> data[c].id <= top
  {
    top := 0;
    for origface := 0 to |rows|
      invariant top >= 0 && forall c :: 0 <= c < origface && Used(rows[c]) ==> data[c].id <= top
    {
      if Used(rows[origface]) {
        top := Max(top, data[origface].id);
      }
    }
  }

  lemma SweepStart(g: Regroup, o2n: seq<int>, top: int)
    requires Shaped(g) && g.pack == 0 && Inverse(g.pairs, g.rows)
    requires forall c :: 0 <= c < |g.rows| && Used(g.rows[c]) ==> CanMap(g.rows[c], o2n) && g.data[c].id <= top
    ensures SweepInv(g, o2n, top, 1, 0, multiset(Faces(g, o2n)), NUsed(g.rows))
  {
    forall c | 0 <= c < |g.rows| ensures FaceOk(g, o2n, top, 1, 0, c) {
    }
  }

  lemma NextSweep(g: Regroup, o2n: seq<int>, top: int, iface: int, all: multiset<Face>, count: nat)
    requires SweepInv(g, o2n, top, iface, |g.rows|, all, count)
    ensures SweepInv(g, o2n, top, iface + 1, 0, all, count)
  {
    assert Unfold(0);
    var next := iface + 1;
    forall c | 0 <= c < |g.rows| ensures FaceOk(g, o2n, top, next, 0, c) {
      assert FaceOk(g, o2n, top, iface, |g.rows|, c);
    }
  }

  lemma SkipFace(g: Regroup, o2n: seq<int>, top: int, iface: int, orig: nat, all: multiset<Face>, count: nat)
    requires SweepInv(g, o2n, top, iface, orig, all, count) && orig < |g.rows|
    requires !(g.data[orig].id == iface && Used(g.rows[orig]))
    ensures SweepInv(g, o2n, top, iface, orig + 1, all, count)
  {
    assert Unfold(0);
    var scanned := orig + 1;
    forall c | 0 <= c < |g.rows| ensures FaceOk(g, o2n, top, iface, scanned, c) {
      assert FaceOk(g, o2n, top, iface, orig, c);
    }
  }

  /** Whether a second face has to make way. */
  ghost predicate Displaces(rows: seq<seq<int>>, pack: nat, orig: nat)
    requires pack <= orig < |rows| && |rows[pack]| >= 2
  {
    pack < orig && Used(rows[pack])
  }

  ghost function SwappedPairs(pairs: multiset<(int, int)>, rows: seq<seq<int>>, pack: nat, orig: nat,
                              row: seq<int>): multiset<(int, int)>
    requires pack <= orig < |rows| && |rows[pack]| >= 2
  {
    if Displaces(rows, pack, orig) then
      pairs - RowPairs(rows[orig], orig) - RowPairs(rows[pack], pack) + RowPairs(rows[pack], orig) + RowPairs(row, pack)
    else
      pairs - RowPairs(rows[orig], orig) + RowPairs(row, pack)
  }

  /** Face `orig` goes to place `pack`, what was there goes to `orig`. */
  ghost function Swapped(g: Regroup, o2n: seq<int>, orig: nat): (g': Regroup)
    requires Shaped(g) && g.pack <= orig < |g.rows| && CanMap(g.rows[orig], o2n)
    ensures Shaped(g')
  {
    Regroup(g.rows[orig := g.rows[g.pack]][g.pack := Mapped(g.rows[orig], o2n)],
            g.data[orig := g.data[g.pack]][g.pack := g.data[orig]],
            SwappedPairs(g.pairs, g.rows, g.pack, orig, Mapped(g.rows[orig], o2n)),
            g.pack + 1)
  }

  ghost predicate CanSwap(g: Regroup, o2n: seq<int>, top: int, iface: int, orig: nat, all: multiset<Face>, count: nat) {
    && SweepInv(g, o2n, top, iface, orig, all, count)
    && orig < |g.rows| && g.data[orig].id == iface >= 1 && Used(g.rows[orig])
  }

  lemma SwapIsAhead(g: Regroup, o2n: seq<int>, top: int, iface: int, orig: nat, all: multiset<Face>, count: nat)
    requires CanSwap(g, o2n, top, iface, orig, all, count)
    ensures g.pack <= orig && CanMap(g.rows[orig], o2n) && Inverse(g.pairs, g.rows)
  {
    assert Unfold(0) && FaceOk(g, o2n, top, iface, orig, orig);
  }

  lemma SwapInverse(pairs: multiset<(int, int)>, rows: seq<seq<int>>, pack: nat, orig: nat, row: seq<int>)
    requires Wide(rows, 3) && Inverse(pairs, rows) && pack <= orig < |rows| && Used(rows[orig]) && |row| == 3
    requires Used(row)
    ensures Inverse(SwappedPairs(pairs, rows, pack, orig, row), rows[orig := rows[pack]][pack := row])
  {
    var none := NoRow(3);
    InverseDrop(pairs, rows, orig, none);
    var rest, rows' := pairs - RowPairs(rows[orig], orig), rows[orig := none];
    if Displaces(rows, pack, orig) {
      SwapInverseTwo(rest, rows', pack, orig, row);
      assert rows'[orig := rows'[pack]] == rows[orig := rows[pack]];
    } else {
      SwapInverseOne(rest, rows', rows[pack], pack, orig, row);
      assert rows'[orig := rows[pack]] == rows[orig := rows[pack]];
    }
  }

  lemma SwapInverseOne(pairs: multiset<(int, int)>, rows: seq<seq<int>>, other: seq<int>, pack: nat, orig: nat,
                       row: seq<int>)
    requires Wide(rows, 3) && Inverse(pairs, rows) && pack <= orig < |rows| && !Used(rows[orig]) && !Used(rows[pack])
    requires |row| == |other| == 3 && Used(row) && (pack < orig ==> !Used(other))
    ensures Inverse(pairs + RowPairs(row, pack), rows[orig := other][pack := row])
  {
    InverseAdd(pairs, rows, pack, row);
    InverseSame(pairs + RowPairs(row, pack), rows[pack := row], rows[orig := other][pack := row]);
  }

  lemma SwapInverseTwo(pairs: multiset<(int, int)>, rows: seq<seq<int>>, pack: nat, orig: nat, row: seq<int>)
    requires Wide(rows, 3) && Inverse(pairs, rows) && pack < orig < |rows| && !Used(rows[orig]) && Used(rows[pack])
    requires |row| == 3 && Used(row)
    ensures Inverse(pairs - RowPairs(rows[pack], pack) + RowPairs(rows[pack], orig) + RowPairs(row, pack),
                    rows[orig := rows[pack]][pack := row])
  {
    var none := NoRow(3);
    InverseDrop(pairs, rows, pack, none);
    var pairs2 := pairs - RowPairs(rows[pack], pack);
    InverseAdd(pairs2, rows[pack := none], orig, rows[pack]);
    InverseAdd(pairs2 + RowPairs(rows[pack], orig), rows[pack := none][orig := rows[pack]], pack, row);
    assert rows[pack := none][orig := rows[pack]][pack := row] == rows[orig := rows[pack]][pack := row];
  }

  lemma MultisetSwap<T>(s: seq<T>, i: nat, j: nat)
    requires i < |s| && j < |s|
    ensures multiset(s[i := s[j]][j := s[i]]) == multiset(s)
  {
  }

  lemma SwapFaces(g: Regroup, o2n: seq<int>, orig: nat)
    requires Shaped(g) && g.pack <= orig < |g.rows| && Used(g.rows[orig]) && CanMap(g.rows[orig], o2n)
    ensures multiset(Faces(Swapped(g, o2n, orig), o2n)) == multiset(Faces(g, o2n))
  {
    var s := Faces(g, o2n);
    assert Faces(Swapped(g, o2n, orig), o2n) == s[orig := s[g.pack]][g.pack := s[orig]];
    MultisetSwap(s, orig, g.pack);
  }

  lemma SwapOk(g: Regroup, o2n: seq<int>, top: int, iface: int, orig: nat, all: multiset<Face>, count: nat, c: nat)
    requires CanSwap(g, o2n, top, iface, orig, all, count) && c < |g.rows|
    requires g.pack <= orig && CanMap(g.rows[orig], o2n)
    ensures FaceOk(Swapped(g, o2n, orig), o2n, top, iface, orig + 1, c)
  {
    assert Unfold(0);
    assert FaceOk(g, o2n, top, iface, orig, c) && FaceOk(g, o2n, top, iface, orig, g.pack);
    assert FaceOk(g, o2n, top, iface, orig, orig);
  }

  lemma SwapOrder(g: Regroup, o2n: seq<int>, top: int, iface: int, orig: nat, all: multiset<Face>, count: nat, c: nat,
                  d: nat)
    requires CanSwap(g, o2n, top, iface, orig, all, count) && c < d <= g.pack
    requires g.pack <= orig && CanMap(g.rows[orig], o2n)
    ensures InOrder(Swapped(g, o2n, orig).data, c, d)
  {
    assert Unfold(0);
    assert FaceOk(g, o2n, top, iface, orig, c);
    if d < g.pack {
      assert InOrder(g.data, c, d);
    }
  }

  lemma SwapUsed(g: Regroup, o2n: seq<int>, orig: nat)
    requires Shaped(g) && g.pack <= orig < |g.rows| && Used(g.rows[orig]) && CanMap(g.rows[orig], o2n)
    ensures NUsed(Swapped(g, o2n, orig).rows) == NUsed(g.rows)
  {
    NUsedUpdate(g.rows, orig, g.rows[g.pack]);
    NUsedUpdate(g.rows[orig := g.rows[g.pack]], g.pack, Mapped(g.rows[orig], o2n));
  }

  lemma SwapFace(g: Regroup, o2n: seq<int>, top: int, iface: int, orig: nat, all: multiset<Face>, count: nat)
    requires CanSwap(g, o2n, top, iface, orig, all, count)
    ensures g.pack <= orig && CanMap(g.rows[orig], o2n)
    ensures SweepInv(Swapped(g, o2n, orig), o2n, top, iface, orig + 1, all, count)
  {
    SwapIsAhead(g, o2n, top, iface, orig, all, count);
    var g' := Swapped(g, o2n, orig);
    SwapUsed(g, o2n, orig);
    SwapInverse(g.pairs, g.rows, g.pack, orig, Mapped(g.rows[orig], o2n));
    SwapFaces(g, o2n, orig);
    var scanned := orig + 1;
    forall c | 0 <= c < |g'.rows| ensures FaceOk(g', o2n, top, iface, scanned, c) {
      SwapOk(g, o2n, top, iface, orig, all, count, c);
    }
    forall c, d | 0 <= c < d < g'.pack ensures InOrder(g'.data, c, d) {
      SwapOrder(g, o2n, top, iface, orig, all, count, c, d);
    }
    SameTotals(g, o2n, top, iface, orig, all, count);
  }

  lemma SameTotals(g: Regroup, o2n: seq<int>, top: int, iface: int, orig: nat, all: multiset<Face>, count: nat)
    requires SweepInv(g, o2n, top, iface, orig, all, count)
    ensures multiset(Faces(g, o2n)) == all && NUsed(g.rows) == count
  {
    assert Unfold(0);
  }

  /** The parts of the adjacency a swap takes out are there. */
  lemma SwapRests(pairs: multiset<(int, int)>, rows: seq<seq<int>>, pack: nat, orig: nat)
    requires Wide(rows, 3) && Inverse(pairs, rows) && pack <= orig < |rows| && Used(rows[orig])
    ensures pairs == pairs - RowPairs(rows[orig], orig) + RowPairs(rows[orig], orig)
    ensures Displaces(rows, pack, orig) ==> var rest := pairs - RowPairs(rows[orig], orig);
      rest == rest - RowPairs(rows[pack], pack) + RowPairs(rows[pack], pack)
  {
    InverseDrop(pairs, rows, orig, NoRow(3));
    if Displaces(rows, pack, orig) {
      InverseDrop(pairs - RowPairs(rows[orig], orig), rows[orig := NoRow(3)], pack, NoRow(3));
    }
  }

  lemma RowPairsPrefix(row: seq<int>, id: int, i: nat)
    requires i < |row|
    ensures RowPairs(row[..i + 1], id) == RowPairs(row[..i], id) + multiset{(row[i], id)}
  {
    assert PairSeq(row[..i + 1], id) == PairSeq(row[..i], id) + [(row[i], id)];
  }

  /** Slot by slot, an item leaves one node's list and another enters a list. */
  method MoveNodes(adj: Adj, row: seq<int>, from: int, row': seq<int>, to: int, ghost rest: multiset<(int, int)>)
    requires adj.Valid() && |row'| == |row| && InRange(row', adj.nnode)
    requires adj.Pairs == rest + RowPairs(row, from)
    modifies adj
    ensures adj.Valid() && adj.nnode == old(adj.nnode)
    ensures adj.Pairs == rest + RowPairs(row', to)
  {
    for i := 0 to |row|
      invariant adj.Valid() && adj.nnode == old(adj.nnode)
      invariant adj.Pairs == rest + RowPairs(row[i..], from) + RowPairs(row'[..i], to)
    {
      RowPairsStep(row, from, i);
      RowPairsPrefix(row', to, i);
      MoveNode(adj, row[i], from, row'[i], to, rest, RowPairs(row[i + 1..], from), RowPairs(row'[..i], to));
    }
    assert row'[..|row|] == row';
  }

  method MoveNode(adj: Adj, node: int, from: int, node': int, to: int,
                  ghost rest: multiset<(int, int)>, ghost todo: multiset<(int, int)>, ghost done: multiset<(int, int)>)
    requires adj.Valid() && 0 <= node' < adj.nnode
    requires adj.Pairs == rest + (multiset{(node, from)} + todo) + done
    modifies adj
    ensures adj.Valid() && adj.nnode == old(adj.nnode)
    ensures adj.Pairs == rest + todo + (done + multiset{(node', to)})
  {
    assert (node, from) in adj.Pairs;
    var _ := adj.Remove(node, from);
    var _ := adj.Register(node', to);
  }

  /** The swap in the sweep of gridPack. */
  method SwapItems(s: Store<FaceTag>, o2n: seq<int>, origface: nat, packface: nat)
    requires s.adj.Valid() && |o2n| == s.adj.nnode
    requires Wide(s.rows, 3) && |s.rows| == |s.data| && packface <= origface < |s.rows|
    requires Used(s.rows[origface]) && CanMap(s.rows[origface], o2n) && Inverse(s.adj.Pairs, s.rows)
    requires Used(s.rows[packface]) ==> InRange(s.rows[packface], |o2n|)
    modifies s`rows, s`data, s.adj
    ensures s.adj.Valid() && s.adj.nnode == old(s.adj.nnode)
    ensures s.rows == old(s.rows)[origface := old(s.rows)[packface]][packface := Mapped(old(s.rows)[origface], o2n)]
    ensures s.data == old(s.data)[origface := old(s.data)[packface]][packface := old(s.data)[origface]]
    ensures s.adj.Pairs == SwappedPairs(old(s.adj.Pairs), old(s.rows), packface, origface, s.rows[packface])
  {
    var n, tag := s.rows[origface], s.data[origface];
    SwapInAdjacency(s.adj, s.rows, packface, origface, Mapped(n, o2n));
    if origface != packface {
      s.rows := s.rows[origface := s.rows[packface]];
      s.data := s.data[origface := s.data[packface]];
    }
    s.rows := s.rows[packface := Mapped(n, o2n)];
    s.data := s.data[packface := tag];
  }

  /** The adjacency updates of a swap. */
  method SwapInAdjacency(adj: Adj, rows: seq<seq<int>>, packface: nat, origface: nat, row': seq<int>)
    requires adj.Valid() && Wide(rows, 3) && packface <= origface < |rows| && Used(rows[origface])
    requires Inverse(adj.Pairs, rows)
    requires |row'| == 3 && InRange(row', adj.nnode) && (Used(rows[packface]) ==> InRange(rows[packface], adj.nnode))
    modifies adj
    ensures adj.Valid() && adj.nnode == old(adj.nnode)
    ensures adj.Pairs == SwappedPairs(old(adj.Pairs), rows, packface, origface, row')
  {
    ghost var pairs := adj.Pairs;
    ghost var rest := pairs - RowPairs(rows[origface], origface);
    SwapRests(pairs, rows, packface, origface);
    if origface == packface {
      MoveNodes(adj, rows[origface], packface, row', packface, rest);
    } else {
      SwapAdjacency(adj, rows[origface], origface, rows[packface], packface, row', rest);
    }
  }

  /** The adjacency updates of a swap between two rows. */
  method SwapAdjacency(adj: Adj, row: seq<int>, origface: nat, other: seq<int>, packface: nat, row': seq<int>,
                       ghost rest: multiset<(int, int)>)
    requires adj.Valid() && adj.Pairs == rest + RowPairs(row, origface) && |other| >= 2
    requires InRange(row', adj.nnode)
    requires Used(other) ==> InRange(other, adj.nnode)
    requires Used(other) ==> rest == rest - RowPairs(other, packface) + RowPairs(other, packface)
    modifies adj
    ensures adj.Valid() && adj.nnode == old(adj.nnode)
    ensures adj.Pairs == (if Used(other) then rest - RowPairs(other, packface) + RowPairs(other, origface) else rest)
                           + RowPairs(row', packface)
  {
    RemoveRow(adj, row, origface, rest);
    if Used(other) {
      MoveNodes(adj, other, packface, other, origface, rest - RowPairs(other, packface));
    }
    RegisterRow(adj, row', packface);
  }

  /** The faces of a table, read with the node numbers of `o2n`. */
  ghost function AllFaces(rows: seq<seq<int>>, data: seq<FaceTag>, o2n: seq<int>): multiset<Face>
    requires |rows| == |data| && Wide(rows, 3)
  {
    multiset(Faces(Regroup(rows, data, multiset{}, 0), o2n))
  }

  /** The faces of a table as they are. */
  ghost function ValidFaces(rows: seq<seq<int>>, data: seq<FaceTag>): multiset<Face>
    requires |rows| == |data| && Wide(rows, 3)
  {
    multiset(seq(|rows|, c requires 0 <= c < |rows| => if Used(rows[c]) then Face(rows[c], data[c]) else NoFace))
  }

  /** A face regrouped is somewhere in the new table, with its nodes renumbered and its own tag. */
  lemma FaceArrives(rows0: seq<seq<int>>, data0: seq<FaceTag>, rows: seq<seq<int>>, data: seq<FaceTag>, o2n: seq<int>,
                    c: nat)
    returns (d: nat)
    requires |rows0| == |data0| && Wide(rows0, 3) && |rows| == |data| && Wide(rows, 3)
    requires ValidFaces(rows, data) == AllFaces(rows0, data0, o2n)
    requires c < |rows0| && Used(rows0[c]) && InRange(rows0[c], |o2n|)
    ensures d < |rows| && Used(rows[d]) && data[d] == data0[c]
    ensures forall i :: 0 <= i < 3 ==> rows[d][i] == o2n[rows0[c][i]]
  {
    var s0 := Faces(Regroup(rows0, data0, multiset{}, 0), o2n);
    var s := seq(|rows|, d requires 0 <= d < |rows| => if Used(rows[d]) then Face(rows[d], data[d]) else NoFace);
    assert s0[c] in multiset(s);
    d :| 0 <= d < |s| && s[d] == s0[c];
  }

  /** And nothing else is there. */
  lemma FaceComesFrom(rows0: seq<seq<int>>, data0: seq<FaceTag>, rows: seq<seq<int>>, data: seq<FaceTag>,
                      o2n: seq<int>, d: nat)
    returns (c: nat)
    requires |rows0| == |data0| && Wide(rows0, 3) && |rows| == |data| && Wide(rows, 3)
    requires ValidFaces(rows, data) == AllFaces(rows0, data0, o2n) && d < |rows| && Used(rows[d])
    ensures c < |rows0| && Used(rows0[c]) && InRange(rows0[c], |o2n|) && data[d] == data0[c]
    ensures forall i :: 0 <= i < 3 ==> rows[d][i] == o2n[rows0[c][i]]
  {
    var s0 := Faces(Regroup(rows0, data0, multiset{}, 0), o2n);
    var s := seq(|rows|, d requires 0 <= d < |rows| => if Used(rows[d]) then Face(rows[d], data[d]) else NoFace);
    assert s[d] in multiset(s0);
    c :| 0 <= c < |s0| && s0[c] == s[d];
  }

  /** pack used rows come first; there are no others exactly when the count says so. */
  lemma {:induction false} NoneLeft(rows: seq<seq<int>>, pack: nat)
    requires forall c :: 0 <= c < |rows| ==> |rows[c]| >= 2
    requires pack <= |rows| && forall c :: 0 <= c < pack ==> Used(rows[c])
    ensures NUsed(rows) == pack <==> forall c :: pack <= c < |rows| ==> !Used(rows[c])
  {
    assert rows[..|rows|] == rows;
    NUsedOfCompact(rows[..pack], pack);
    forall c | pack <= c < |rows| && Used(rows[c]) ensures NUsed(rows) > pack {
      NewPlaceMonotone(rows, c, |rows|);
      if pack < c {
        NewPlaceMonotone(rows, pack, c);
      }
    }
    if forall c :: pack <= c < |rows| ==> !Used(rows[c]) {
      NUsedOfCompact(rows, pack);
    }
  }

  /** The ids of the faces left over after the last sweep are below 1; they are ids of the original table. */
  lemma SweepDone(g0: Regroup, g: Regroup, o2n: seq<int>, top: int, count: nat)
    requires Shaped(g0) && g0.pack == 0 && top >= 0
    requires forall c :: 0 <= c < |g0.rows| && Used(g0.rows[c]) ==> CanMap(g0.rows[c], o2n)
    requires SweepInv(g, o2n, top, top + 1, 0, multiset(Faces(g0, o2n)), count)
    ensures g.pack == count <==> forall c :: 0 <= c < |g0.rows| && Used(g0.rows[c]) ==> g0.data[c].id >= 1
    ensures g.pack == count ==> forall c :: g.pack <= c < |g.rows| ==> !Used(g.rows[c])
  {
    PackedAreUsed(g, o2n, top, top + 1, 0, multiset(Faces(g0, o2n)), count);
    NoneLeft(g.rows, g.pack);
    if c :| g.pack <= c < |g.rows| && Used(g.rows[c]) {
      var d := LeftOverIsBelow(g0, g, o2n, top, count, c);
    }
    if d :| 0 <= d < |g0.rows| && Used(g0.rows[d]) && g0.data[d].id < 1 {
      var c := BelowIsLeftOver(g0, g, o2n, top, count, d);
    }
  }

  lemma PackedAreUsed(g: Regroup, o2n: seq<int>, top: int, iface: int, orig: nat, all: multiset<Face>, count: nat)
    requires SweepInv(g, o2n, top, iface, orig, all, count)
    ensures NUsed(g.rows) == count && forall c :: 0 <= c < g.pack ==> Used(g.rows[c])
  {
    assert Unfold(0);
    forall c | 0 <= c < g.pack ensures Used(g.rows[c]) {
      assert FaceOk(g, o2n, top, iface, orig, c);
    }
  }

  /** A face left over after the last sweep has an id below 1. */
  lemma LeftOverIsBelow(g0: Regroup, g: Regroup, o2n: seq<int>, top: int, count: nat, c: nat) returns (d: nat)
    requires Shaped(g0) && g0.pack == 0 && SweepInv(g, o2n, top, top + 1, 0, multiset(Faces(g0, o2n)), count)
    requires g.pack <= c < |g.rows| && Used(g.rows[c])
    ensures d < |g0.rows| && Used(g0.rows[d]) && g0.data[d].id < 1
  {
    assert Unfold(0);
    var s0, s, next := Faces(g0, o2n), Faces(g, o2n), top + 1;
    assert FaceOk(g, o2n, top, next, 0, c);
    assert s[c] in multiset(s0);
    d :| 0 <= d < |s0| && s0[d] == s[c];
  }

  /** A face with an id below 1 is left over. */
  lemma BelowIsLeftOver(g0: Regroup, g: Regroup, o2n: seq<int>, top: int, count: nat, d: nat) returns (c: nat)
    requires Shaped(g0) && g0.pack == 0 && SweepInv(g, o2n, top, top + 1, 0, multiset(Faces(g0, o2n)), count)
    requires d < |g0.rows| && Used(g0.rows[d]) && CanMap(g0.rows[d], o2n) && g0.data[d].id < 1
    ensures g.pack <= c < |g.rows| && Used(g.rows[c])
  {
    assert Unfold(0);
    var s0, s, next := Faces(g0, o2n), Faces(g, o2n), top + 1;
    assert s0[d] in multiset(s);
    c :| 0 <= c < |s| && s[c] == s0[d];
    assert FaceOk(g, o2n, top, next, 0, c);
  }

  /** What the finished table says, once the rows left over are chained into the free list. */
  lemma SweepResult(g: Regroup, o2n: seq<int>, top: int, iface: int, all: multiset<Face>, count: nat,
                    final: seq<seq<int>>)
    requires SweepInv(g, o2n, top, iface, 0, all, count) && g.pack == count
    requires forall c :: g.pack <= c < |g.rows| ==> !Used(g.rows[c])
    requires IsFinal(g.rows, final, g.pack)
    ensures Wide(final, 3) && Compact(final, count) && Inverse(g.pairs, final)
    ensures TableOk(CompactTable(final, count), 3, |o2n|)
    ensures ValidFaces(final, g.data) == all
    ensures forall c, d :: 0 <= c < d < count ==> g.data[c].id <= g.data[d].id
  {
    assert Unfold(0);
    forall c | 0 <= c < g.pack ensures Used(final[c]) && InRange(final[c], |o2n|) {
      assert FaceOk(g, o2n, top, iface, 0, c);
    }
    CompactIsOk(final, 3, |o2n|, count);
    InverseSame(g.pairs, g.rows, final);
    assert Faces(g, o2n) == seq(|final|,
      c requires 0 <= c < |final| => if Used(final[c]) then Face(final[c], g.data[c]) else NoFace);
    forall c, d | 0 <= c < d < count ensures g.data[c].id <= g.data[d].id {
      assert InOrder(g.data, c, d);
    }
  }

  lemma DisplacedInRange(g: Regroup, o2n: seq<int>, top: int, iface: int, orig: nat, all: multiset<Face>, count: nat)
    requires CanSwap(g, o2n, top, iface, orig, all, count) && g.pack <= orig
    ensures Used(g.rows[g.pack]) ==> InRange(g.rows[g.pack], |o2n|)
  {
    assert Unfold(0) && FaceOk(g, o2n, top, iface, orig, g.pack);
  }

  /** A face with the id being swept goes to the next place. */
  method SwapNext(s: Store<FaceTag>, o2n: seq<int>, iface: int, origface: nat, packface: nat,
                  ghost top: int, ghost all: multiset<Face>, ghost count: nat, ghost g0: Regroup)
    requires s.adj.Valid() && |o2n| == s.adj.nnode
    requires CanSwap(Regroup(s.rows, s.data, s.adj.Pairs, packface), o2n, top, iface, origface, all, count)
    requires Unmoved(Regroup(s.rows, s.data, s.adj.Pairs, packface), g0, o2n, iface, origface, count)
    modifies s`rows, s`data, s.adj
    ensures s.adj.Valid() && s.adj.nnode == old(s.adj.nnode) && |s.rows| == |old(s.rows)|
    ensures SweepInv(Regroup(s.rows, s.data, s.adj.Pairs, packface + 1), o2n, top, iface, origface + 1, all, count)
    ensures Unmoved(Regroup(s.rows, s.data, s.adj.Pairs, packface + 1), g0, o2n, iface, origface + 1, count)
  {
    ghost var g := Regroup(s.rows, s.data, s.adj.Pairs, packface);
    SwapFace(g, o2n, top, iface, origface, all, count);
    SwapIsAhead(g, o2n, top, iface, origface, all, count);
    DisplacedInRange(g, o2n, top, iface, origface, all, count);
    UnmovedSwap(g, g0, o2n, iface, origface, count);
    ghost var row := Mapped(s.rows[origface], o2n);
    g := Swapped(g, o2n, origface);
    SwapItems(s, o2n, origface, packface);
    assert s.rows[packface] == row;
    assert Regroup(s.rows, s.data, s.adj.Pairs, packface + 1) == g;
  }

  /** One sweep: the faces with id `iface` go to the next free places. */
  method Sweep(s: Store<FaceTag>, o2n: seq<int>, iface: int, packface0: nat, ghost top: int, ghost all: multiset<Face>,
               ghost count: nat, ghost g0: Regroup)
    returns (packface: nat)
    requires s.adj.Valid() && |o2n| == s.adj.nnode && iface >= 1
    requires SweepInv(Regroup(s.rows, s.data, s.adj.Pairs, packface0), o2n, top, iface, 0, all, count)
    requires Unmoved(Regroup(s.rows, s.data, s.adj.Pairs, packface0), g0, o2n, iface, 0, count) && |g0.rows| == |s.rows|
    modifies s`rows, s`data, s.adj
    ensures s.adj.Valid() && s.adj.nnode == old(s.adj.nnode) && |s.rows| == |old(s.rows)|
    ensures SweepInv(Regroup(s.rows, s.data, s.adj.Pairs, packface), o2n, top, iface + 1, 0, all, count)
    ensures Unmoved(Regroup(s.rows, s.data, s.adj.Pairs, packface), g0, o2n, iface + 1, 0, count)
  {
    packface := packface0;
    ghost var g := Regroup(s.rows, s.data, s.adj.Pairs, packface);
    for origface := 0 to |s.rows|
      invariant s.adj.Valid() && s.adj.nnode == |o2n| && |s.rows| == |old(s.rows)|
      invariant g == Regroup(s.rows, s.data, s.adj.Pairs, packface)
      invariant SweepInv(g, o2n, top, iface, origface, all, count) && Unmoved(g, g0, o2n, iface, origface, count)
    {
      if s.data[origface].id == iface && Used(s.rows[origface]) {
        SwapNext(s, o2n, iface, origface, packface, top, all, count, g0);
        packface := packface + 1;
        g := Regroup(s.rows, s.data, s.adj.Pairs, packface);
      } else {
        SkipFace(g, o2n, top, iface, origface, all, count);
        UnmovedSkip(g, g0, o2n, iface, origface, count);
      }
    }
    NextSweep(g, o2n, top, iface, all, count);
    UnmovedNext(g, g0, o2n, iface, count);
  }

  /**
   The face part of gridPack; it reports an error exactly when a face id is below 1. A table that is packed
   already stays as it is.
   */
  method PackFaces(s: Store<FaceTag>, o2n: seq<int>) returns (ok: bool)
    requires s.Valid() && s.per == 3 && |o2n| == s.adj.nnode
    requires forall c :: 0 <= c < |s.rows| && Used(s.rows[c]) ==> CanMap(s.rows[c], o2n)
    modifies s, s.adj
    ensures ok <==> forall c :: 0 <= c < |old(s.rows)| && Used(old(s.rows)[c]) ==> old(s.data)[c].id >= 1
    ensures ok ==> s.Valid() && s.adj.nnode == old(s.adj.nnode) && s.max == old(s.max) && s.count == old(s.count)
    ensures ok ==> Compact(s.rows, s.count) && s.Value() == CompactTable(s.rows, s.count)
    ensures ok ==> ValidFaces(s.rows, s.data) == AllFaces(old(s.rows), old(s.data), o2n)
    ensures ok ==> forall c, d :: 0 <= c < d < s.count ==> s.data[c].id <= s.data[d].id
    ensures ok && IsSettled(old(s.rows), old(s.data), o2n, old(s.count)) ==>
      s.rows == old(s.rows) && s.data == old(s.data)
  {
    var top := LargestFaceId(s.rows, s.data);
    ghost var g0 := Regroup(s.rows, s.data, s.adj.Pairs, 0);
    ghost var all, count := multiset(Faces(g0, o2n)), s.count;
    SweepStart(g0, o2n, top);
    CountIs(s.Value(), s.per, s.adj.nnode);
    assert Faces(g0, o2n) == Faces(Regroup(s.rows, s.data, multiset{}, 0), o2n);
    UnmovedStart(g0, o2n, count);
    var packface := 0;
    for iface := 1 to top + 1
      invariant s.adj.Valid() && s.adj.nnode == |o2n| && |s.rows| == s.max == old(s.max) && s.count == count
      invariant SweepInv(Regroup(s.rows, s.data, s.adj.Pairs, packface), o2n, top, iface, 0, all, count)
      invariant Unmoved(Regroup(s.rows, s.data, s.adj.Pairs, packface), g0, o2n, iface, 0, count)
    {
      packface := Sweep(s, o2n, iface, packface, top, all, count, g0);
    }
    ghost var g := Regroup(s.rows, s.data, s.adj.Pairs, packface);
    SweepDone(g0, g, o2n, top, count);
    ok := s.count == packface;
    if ok {
      RebuildFreeList(s, packface);
      SweepResult(g, o2n, top, top + 1, all, count, s.rows);
      if IsSettled(g0.rows, g0.data, o2n, count) {
        TailStays(g0, g, o2n, top + 1, count, s.rows);
      }
    }
  }
}
