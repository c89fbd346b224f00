/** Compaction of the item tables, the part of gridPack (one/grid.c) after the nodes are renumbered. */
module Packing {
  import opened Common
  import opened Adjacency
  import opened ItemStore

  /** A row with its nodes renumbered. */
  function Mapped(row: seq<int>, o2n: seq<int>): (r: seq<int>)
    requires InRange(row, |o2n|)
    ensures |r| == |row| && forall i :: 0 <= i < |row| ==> r[i] == o2n[row[i]]
  {
    seq(|row|, i requires 0 <= i < |row| => o2n[row[i]])
  }

  /** Every node a used row names survives the renumbering. */
  ghost predicate Survives(rows: seq<seq<int>>, o2n: seq<int>, c: int)
    requires 0 <= c < |rows| && |rows[c]| >= 2
  {
    Used(rows[c]) ==> InRange(rows[c], |o2n|) && InRange(Mapped(rows[c], o2n), |o2n|)
  }

  /** The position of row c once the unused rows are squeezed out. */
  ghost function NewPlace(rows: seq<seq<int>>, c: nat): nat
    requires c <= |rows| && forall c :: 0 <= c < |rows| ==> |rows[c]| >= 2
  {
    NUsed(rows[..c])
  }

  lemma NewPlaceStep(rows: seq<seq<int>>, c: nat)
    requires c < |rows| && forall c :: 0 <= c < |rows| ==> |rows[c]| >= 2
    ensures NewPlace(rows, c + 1) == NewPlace(rows, c) + if Used(rows[c]) then 1 else 0
    ensures NewPlace(rows, c) <= c
  {
    assert rows[..c + 1][..c] == rows[..c];
    NUsedBound(rows[..c]);
  }

  lemma {:induction false} NUsedBound(rows: seq<seq<int>>)
    requires forall c :: 0 <= c < |rows| ==> |rows[c]| >= 2
    ensures NUsed(rows) <= |rows|
  {
    if rows != [] {
      NUsedBound(rows[..|rows| - 1]);
    }
  }

  /** New places keep the order, and are distinct for used rows. */
  lemma {:induction false} NewPlaceMonotone(rows: seq<seq<int>>, c: nat, d: nat)
    requires c < d <= |rows| && forall c :: 0 <= c < |rows| ==> |rows[c]| >= 2
    ensures NewPlace(rows, c) <= NewPlace(rows, d)
    ensures Used(rows[c]) ==> NewPlace(rows, c) < NewPlace(rows, d)
  {
    NewPlaceStep(rows, d - 1);
    if c < d - 1 {
      NewPlaceMonotone(rows, c, d - 1);
    }
  }

  /** The new places of the used rows are exactly 0 .. NUsed - 1. */
  lemma {:induction false} NewPlaceOnto(rows: seq<seq<int>>, p: nat, d: nat) returns (c: nat)
    requires d <= |rows| && forall c :: 0 <= c < |rows| ==> |rows[c]| >= 2
    requires p < NewPlace(rows, d)
    ensures c < d && Used(rows[c]) && NewPlace(rows, c) == p
  {
    NewPlaceStep(rows, d - 1);
    if NewPlace(rows, d - 1) > p {
      c := NewPlaceOnto(rows, p, d - 1);
    } else {
      c := d - 1;
    }
  }

  /** The table the adjacency is inverse to while the loop is at `orig`: packed rows, then nothing, then old rows. */
  ghost function Midway(rows: seq<seq<int>>, rows0: seq<seq<int>>, pack: nat, orig: nat, per: nat): (vt: seq<seq<int>>)
    requires pack <= orig <= |rows0| == |rows| && per >= 2
    ensures |vt| == |rows|
    ensures forall c :: 0 <= c < |rows| ==>
      vt[c] == if c < pack then rows[c] else if c < orig then NoRow(per) else rows0[c]
  {
    seq(|rows|, c requires 0 <= c < |rows| => if c < pack then rows[c] else if c < orig then NoRow(per) else rows0[c])
  }

  function NoRow(per: nat): (r: seq<int>)
    requires per >= 2
    ensures |r| == per && !Used(r)
  {
    seq(per, _ => EMPTY)
  }

  /** A packing loop under way: the table before and now, the places given so far, the adjacency. */
  datatype Progress<P> = Progress(rows0: seq<seq<int>>, data0: seq<P>, rows: seq<seq<int>>, data: seq<P>,
                                  i2n: seq<int>, pairs: multiset<(int, int)>, pack: nat)

  ghost predicate Shape<P>(g: Progress<P>, per: nat) {
    && Wide(g.rows0, per) && Wide(g.rows, per)
    && |g.rows| == |g.data| == |g.rows0| == |g.data0|
    && g.pack <= |g.i2n| <= |g.rows0|
  }

  /** Row c is at its new place, with its data and renumbered nodes. */
  ghost predicate Moved<P>(g: Progress<P>, per: nat, o2n: seq<int>, c: int)
    requires Shape(g, per) && 0 <= c < |g.i2n|
  {
    if Used(g.rows0[c]) then
      && g.i2n[c] == NewPlace(g.rows0, c) < |g.rows|
      && InRange(g.rows0[c], |o2n|) && InRange(Mapped(g.rows0[c], o2n), |o2n|)
      && g.rows[g.i2n[c]] == Mapped(g.rows0[c], o2n)
      && g.data[g.i2n[c]] == g.data0[c]
    else g.i2n[c] == EMPTY
  }

  ghost predicate PackedRow<P>(g: Progress<P>, per: nat, o2n: seq<int>, c: int)
    requires Shape(g, per) && 0 <= c < |g.rows|
  {
    if c < g.pack then Used(g.rows[c]) && InRange(g.rows[c], |o2n|)
    else g.rows[c] == g.rows0[c] && g.data[c] == g.data0[c]
  }

  /** The rows below |i2n| are dealt with, the rows below `pack` filled; kept folded. */
  ghost predicate PackInv<P>(g: Progress<P>, per: nat, o2n: seq<int>) {
    && Shape(g, per)
    && forall u :: Unfold(u) ==>
         && g.pack == NewPlace(g.rows0, |g.i2n|)
         && (forall c :: 0 <= c < |g.rows| ==> PackedRow(g, per, o2n, c))
         && (forall c :: 0 <= c < |g.i2n| ==> Moved(g, per, o2n, c))
         && Inverse(g.pairs, Midway(g.rows, g.rows0, g.pack, |g.i2n|, per))
  }

  lemma PackStart<P>(rows: seq<seq<int>>, data: seq<P>, o2n: seq<int>, pairs: multiset<(int, int)>, per: nat)
    requires Wide(rows, per) && |data| == |rows| && Inverse(pairs, rows)
    ensures PackInv(Progress(rows, data, rows, data, [], pairs, 0), per, o2n)
  {
    assert Midway(rows, rows, 0, 0, per) == rows;
  }

  lemma StillThere<P>(g: Progress<P>, per: nat, o2n: seq<int>)
    requires PackInv(g, per, o2n) && |g.i2n| < |g.rows0|
    ensures g.rows[|g.i2n|] == g.rows0[|g.i2n|] && g.data[|g.i2n|] == g.data0[|g.i2n|]
  {
    assert Unfold(0) && PackedRow(g, per, o2n, |g.i2n|);
  }

  lemma PackSkip<P>(g: Progress<P>, per: nat, o2n: seq<int>)
    requires PackInv(g, per, o2n) && |g.i2n| < |g.rows0| && !Used(g.rows[|g.i2n|])
    ensures PackInv(g.(i2n := g.i2n + [EMPTY]), per, o2n)
  {
    StillThere(g, per, o2n);
    PlaceIs(g, per, o2n);
    NewPlaceStep(g.rows0, |g.i2n|);
    var g' := g.(i2n := g.i2n + [EMPTY]);
    MidwayInverse(g, per, o2n);
    var vt, vt' := Midway(g.rows, g.rows0, g.pack, |g.i2n|, per), Midway(g.rows, g.rows0, g.pack, |g'.i2n|, per);
    InverseSame(g.pairs, vt, vt');
    SkipParts(g, per, o2n);
  }

  lemma SkipParts<P>(g: Progress<P>, per: nat, o2n: seq<int>)
    requires PackInv(g, per, o2n) && |g.i2n| < |g.rows0| && !Used(g.rows0[|g.i2n|])
    ensures var g' := g.(i2n := g.i2n + [EMPTY]); forall c :: 0 <= c < |g.rows| ==> PackedRow(g', per, o2n, c)
    ensures var g' := g.(i2n := g.i2n + [EMPTY]); forall c :: 0 <= c < |g'.i2n| ==> Moved(g', per, o2n, c)
  {
    assert Unfold(0);
    var g' := g.(i2n := g.i2n + [EMPTY]);
    forall c | 0 <= c < |g.rows| ensures PackedRow(g', per, o2n, c) {
      assert PackedRow(g, per, o2n, c);
    }
    forall c | 0 <= c < |g'.i2n| ensures Moved(g', per, o2n, c) {
      if c < |g.i2n| {
        assert Moved(g, per, o2n, c);
      }
    }
  }

  /** Rows that are used in neither table do not matter to the adjacency. */
  lemma InverseSame(pairs: multiset<(int, int)>, rows: seq<seq<int>>, rows': seq<seq<int>>)
    requires forall c :: 0 <= c < |rows| ==> |rows[c]| >= 2
    requires forall c :: 0 <= c < |rows'| ==> |rows'[c]| >= 2
    requires |rows| == |rows'| && Inverse(pairs, rows)
    requires forall c :: 0 <= c < |rows| ==> rows'[c] == rows[c] || (!Used(rows[c]) && !Used(rows'[c]))
    ensures Inverse(pairs, rows')
  {
    forall n, c ensures pairs[(n, c)] == Mentions(rows', n, c) {
      assert pairs[(n, c)] == Mentions(rows, n, c);
    }
  }

  /** The progress made by moving the next row to place `pack`. */
  ghost function Advanced<P>(g: Progress<P>, row: seq<int>): (g': Progress<P>)
    requires g.pack <= |g.i2n| < |g.rows| == |g.data|
  {
    var c := |g.i2n|;
    g.(rows := g.rows[g.pack := row], data := g.data[g.pack := g.data[c]], i2n := g.i2n + [g.pack], pack := g.pack + 1,
       pairs := g.pairs - RowPairs(g.rows[c], c) + RowPairs(row, g.pack))
  }

  ghost predicate CanAdvance<P>(g: Progress<P>, per: nat, o2n: seq<int>) {
    && PackInv(g, per, o2n)
    && |g.i2n| < |g.rows|
    && Used(g.rows[|g.i2n|]) && InRange(g.rows[|g.i2n|], |o2n|) && InRange(Mapped(g.rows[|g.i2n|], o2n), |o2n|)
  }

  lemma MoveInverse(pairs: multiset<(int, int)>, vt: seq<seq<int>>, c: nat, pack: nat, row: seq<int>, per: nat)
    requires Wide(vt, per) && Inverse(pairs, vt) && pack <= c < |vt| && Used(vt[c]) && (pack < c ==> !Used(vt[pack]))
    requires |row| == per && Used(row)
    ensures pairs == pairs - RowPairs(vt[c], c) + RowPairs(vt[c], c)
    ensures Inverse(pairs - RowPairs(vt[c], c) + RowPairs(row, pack), vt[c := NoRow(per)][pack := row])
  {
    InverseDrop(pairs, vt, c, NoRow(per));
    InverseAdd(pairs - RowPairs(vt[c], c), vt[c := NoRow(per)], pack, row);
  }

  lemma MidwayStep(rows: seq<seq<int>>, rows0: seq<seq<int>>, pack: nat, orig: nat, per: nat, row: seq<int>)
    requires pack <= orig < |rows0| == |rows| && per >= 2
    ensures Midway(rows[pack := row], rows0, pack + 1, orig + 1, per)
      == Midway(rows, rows0, pack, orig, per)[orig := NoRow(per)][pack := row]
  {
  }

  lemma AdvancePairs(pairs: multiset<(int, int)>, rows0: seq<seq<int>>, rows: seq<seq<int>>, pack: nat, c: nat,
                     row: seq<int>, per: nat)
    requires Wide(rows0, per) && Wide(rows, per) && |rows| == |rows0| && pack <= c < |rows|
    requires rows[c] == rows0[c] && Used(rows[c]) && |row| == per && Used(row)
    requires Inverse(pairs, Midway(rows, rows0, pack, c, per))
    ensures pairs == pairs - RowPairs(rows[c], c) + RowPairs(rows[c], c)
    ensures Inverse(pairs - RowPairs(rows[c], c) + RowPairs(row, pack),
      Midway(rows[pack := row], rows0, pack + 1, c + 1, per))
  {
    var vt := Midway(rows, rows0, pack, c, per);
    assert vt[c] == rows[c];
    MoveInverse(pairs, vt, c, pack, row, per);
    MidwayStep(rows, rows0, pack, c, per, row);
  }

  lemma AdvanceInverse<P>(g: Progress<P>, per: nat, o2n: seq<int>)
    requires CanAdvance(g, per, o2n)
    ensures var c := |g.i2n|; g.pairs == g.pairs - RowPairs(g.rows[c], c) + RowPairs(g.rows[c], c)
    ensures g.pack + 1 <= |g.i2n| + 1 <= |g.rows0| == |g.rows| && per >= 2
    ensures var c, row := |g.i2n|, Mapped(g.rows[|g.i2n|], o2n); Inverse(
      g.pairs - RowPairs(g.rows[c], c) + RowPairs(row, g.pack),
        Midway(g.rows[g.pack := row], g.rows0, g.pack + 1, c + 1, per))
  {
    StillThere(g, per, o2n);
    MidwayInverse(g, per, o2n);
    AdvancePairs(g.pairs, g.rows0, g.rows, g.pack, |g.i2n|, Mapped(g.rows[|g.i2n|], o2n), per);
  }

  lemma AdvanceShape<P>(g: Progress<P>, per: nat, o2n: seq<int>)
    requires CanAdvance(g, per, o2n)
    ensures Shape(g, per) && Shape(Advanced(g, Mapped(g.rows[|g.i2n|], o2n)), per)
  {
    StillThere(g, per, o2n);
  }

  lemma MidwayInverse<P>(g: Progress<P>, per: nat, o2n: seq<int>)
    requires PackInv(g, per, o2n)
    ensures Inverse(g.pairs, Midway(g.rows, g.rows0, g.pack, |g.i2n|, per))
  {
    assert Unfold(0);
  }

  lemma AdvanceMoved<P>(g: Progress<P>, per: nat, o2n: seq<int>, c: nat)
    requires CanAdvance(g, per, o2n) && c <= |g.i2n|
    ensures var g' := Advanced(g, Mapped(g.rows[|g.i2n|], o2n)); Shape(g', per) && Moved(g', per, o2n, c)
  {
    assert Unfold(0);
    StillThere(g, per, o2n);
    if c < |g.i2n| {
      assert Moved(g, per, o2n, c);
      NewPlaceMonotone(g.rows0, c, |g.i2n|);
    }
  }

  lemma PackAdvance<P>(g: Progress<P>, per: nat, o2n: seq<int>)
    requires CanAdvance(g, per, o2n)
    ensures PackInv(Advanced(g, Mapped(g.rows[|g.i2n|], o2n)), per, o2n)
  {
    var g' := Advanced(g, Mapped(g.rows[|g.i2n|], o2n));
    AdvanceInverse(g, per, o2n);
    AdvanceShape(g, per, o2n);
    forall c | 0 <= c < |g'.i2n| ensures Moved(g', per, o2n, c) {
      AdvanceMoved(g, per, o2n, c);
    }
    AdvanceRows(g, per, o2n);
  }

  lemma AdvanceRows<P>(g: Progress<P>, per: nat, o2n: seq<int>)
    requires CanAdvance(g, per, o2n) && Shape(Advanced(g, Mapped(g.rows[|g.i2n|], o2n)), per)
    ensures var g' := Advanced(g, Mapped(g.rows[|g.i2n|], o2n)); g'.pack == NewPlace(g'.rows0, |g'.i2n|)
    ensures var g' := Advanced(g, Mapped(g.rows[|g.i2n|], o2n)); forall c :: 0 <= c < |g'.rows| ==>
      PackedRow(g', per, o2n, c)
  {
    var g' := Advanced(g, Mapped(g.rows[|g.i2n|], o2n));
    NewPlaceStep(g.rows0, |g.i2n|);
    StillThere(g, per, o2n);
    PlaceIs(g, per, o2n);
    forall c | 0 <= c < |g'.rows| ensures PackedRow(g', per, o2n, c) {
      AdvanceRow(g, per, o2n, c);
    }
  }

  lemma PlaceIs<P>(g: Progress<P>, per: nat, o2n: seq<int>)
    requires PackInv(g, per, o2n)
    ensures g.pack == NewPlace(g.rows0, |g.i2n|)
  {
    assert Unfold(0);
  }

  lemma AdvanceRow<P>(g: Progress<P>, per: nat, o2n: seq<int>, c: nat)
    requires CanAdvance(g, per, o2n) && Shape(Advanced(g, Mapped(g.rows[|g.i2n|], o2n)), per) && c < |g.rows|
    ensures PackedRow(Advanced(g, Mapped(g.rows[|g.i2n|], o2n)), per, o2n, c)
  {
    assert Unfold(0) && PackedRow(g, per, o2n, c);
  }

  /** Rebuilding the free list over the rows that are left over. */
  function Tail(row: seq<int>, next: int): seq<int>
    requires |row| >= 2
  {
    row[0 := EMPTY][1 := next]
  }

  function NextFree(c: nat, n: nat): int {
    if c == n - 1 then EMPTY else c + 1
  }

  /** The rows above the packed ones keep everything but their links. */
  ghost predicate TailKept<P>(rows0: seq<seq<int>>, data0: seq<P>, rows: seq<seq<int>>, data: seq<P>, pack: nat) {
    && |rows| == |rows0| == |data| == |data0|
    && forall c :: pack <= c < |rows| ==>
         |rows0[c]| >= 2 && rows[c] == Tail(rows0[c], NextFree(c, |rows|)) && data[c] == data0[c]
  }

  ghost predicate IsFinal(rows: seq<seq<int>>, final: seq<seq<int>>, pack: nat)
    requires forall c :: 0 <= c < |rows| ==> |rows[c]| >= 2
  {
    && |final| == |rows|
    && forall c :: 0 <= c < |rows| ==>
         final[c] == if c < pack then rows[c] else Tail(rows[c], if c == |rows| - 1 then EMPTY else c + 1)
  }

  lemma PackDone<P>(g: Progress<P>, per: nat, o2n: seq<int>, final: seq<seq<int>>)
    requires PackInv(g, per, o2n) && |g.i2n| == |g.rows0| && IsFinal(g.rows, final, g.pack)
    ensures g.pack == NUsed(g.rows0)
    ensures Wide(final, per) && Compact(final, g.pack) && Inverse(g.pairs, final)
    ensures TableOk(CompactTable(final, g.pack), per, |o2n|)
    ensures forall c :: 0 <= c < |g.rows0| ==> Moved(g.(rows := final), per, o2n, c)
    ensures TailKept(g.rows0, g.data0, final, g.data, g.pack)
  {
    PlaceIs(g, per, o2n);
    assert g.rows0[..|g.rows0|] == g.rows0;
    MidwayInverse(g, per, o2n);
    PackedRows(g, per, o2n);
    forall c | 0 <= c < |g.rows0| ensures Moved(g.(rows := final), per, o2n, c) {
      MovedToFinal(g, per, o2n, final, c);
    }
    InverseSame(g.pairs, Midway(g.rows, g.rows0, g.pack, |g.rows0|, per), final);
    CompactIsOk(final, per, |o2n|, g.pack);
  }

  lemma PackedRows<P>(g: Progress<P>, per: nat, o2n: seq<int>)
    requires PackInv(g, per, o2n)
    ensures forall c :: 0 <= c < g.pack ==> InRange(g.rows[c], |o2n|) && Used(g.rows[c])
    ensures forall c :: g.pack <= c < |g.rows0| ==> g.rows[c] == g.rows0[c] && g.data[c] == g.data0[c]
  {
    assert Unfold(0);
    forall c | 0 <= c < |g.rows0|
      ensures if c < g.pack then InRange(g.rows[c], |o2n|) && Used(g.rows[c])
              else g.rows[c] == g.rows0[c] && g.data[c] == g.data0[c]
    {
      assert PackedRow(g, per, o2n, c);
    }
  }

  lemma MovedToFinal<P>(g: Progress<P>, per: nat, o2n: seq<int>, final: seq<seq<int>>, c: nat)
    requires PackInv(g, per, o2n) && |g.i2n| == |g.rows0| && IsFinal(g.rows, final, g.pack) && c < |g.rows0|
    requires g.pack == NewPlace(g.rows0, |g.rows0|) && Wide(final, per)
    ensures Moved(g.(rows := final), per, o2n, c)
  {
    assert Unfold(0) && Moved(g, per, o2n, c);
    if Used(g.rows0[c]) {
      NewPlaceMonotone(g.rows0, c, |g.rows0|);
    }
  }

  /** The loop rebuilding the free list, and its head. */
  method RebuildFreeList<P>(s: Store<P>, pack: nat)
    requires Wide(s.rows, s.per) && |s.rows| == s.max >= 1 && pack <= s.max
    modifies s`rows, s`blank, s`rank, s`nfree
    ensures IsFinal(old(s.rows), s.rows, pack)
    ensures s.Value() == CompactTable(s.rows, pack)
  {
    ghost var rows0 := s.rows;
    for i := pack to s.max
      modifies s`rows
      invariant |s.rows| == |rows0| == s.max
      invariant forall c :: 0 <= c < s.max && !(pack <= c < i) ==> s.rows[c] == rows0[c]
      invariant forall c :: pack <= c < i ==> s.rows[c] == Tail(rows0[c], c + 1)
    {
      s.rows := s.rows[i := s.rows[i][0 := EMPTY][1 := i + 1]];
    }
    if s.max == pack {
      s.blank := EMPTY;
    } else {
      var last := s.max - 1;
      assert s.rows[last] == Tail(rows0[last], last + 1);
      assert Tail(rows0[last], last + 1)[1 := EMPTY] == Tail(rows0[last], EMPTY);
      s.rows := s.rows[last := s.rows[last][1 := EMPTY]];
      s.blank := pack;
    }
    ghost var t := CompactTable(s.rows, pack);
    s.rank, s.nfree := t.rank, t.nfree;
  }

  /** Whether all nodes of a row survive. */
  method AllSurvive(row: seq<int>, o2n: seq<int>) returns (all: bool)
    requires InRange(row, |o2n|)
    ensures all <==> forall i :: 0 <= i < |row| ==> 0 <= o2n[row[i]]
  {
    all := true;
    for i := 0 to |row|
      invariant all <==> forall j :: 0 <= j < i ==> 0 <= o2n[row[j]]
    {
      if o2n[row[i]] < 0 {
        all := false;
      }
    }
  }

  /** The packing loop of gridPack for cells, whose nodes all survive; it makes no test. */
  method PackCells<P>(s: Store<P>, o2n: seq<int>) returns (i2n: seq<int>)
    requires s.Valid() && |o2n| == s.adj.nnode && forall n :: 0 <= n < |o2n| ==> EMPTY <= o2n[n] < |o2n|
    requires forall c :: 0 <= c < |s.rows| ==> |s.rows[c]| >= 2 && Survives(s.rows, o2n, c)
    modifies s, s.adj
    ensures s.Valid() && s.adj.nnode == old(s.adj.nnode) && s.max == old(s.max) && s.count == old(s.count)
    ensures Compact(s.rows, s.count) && |i2n| == |old(s.rows)|
    ensures var g := Progress(old(s.rows), old(s.data), s.rows, s.data, i2n, s.adj.Pairs, s.count);
      Shape(g, s.per) && forall c :: 0 <= c < |i2n| ==> Moved(g, s.per, o2n, c)
    ensures s.Value() == CompactTable(s.rows, s.count)
    ensures TailKept(old(s.rows), old(s.data), s.rows, s.data, s.count)
  {
    ghost var g := Progress(s.rows, s.data, s.rows, s.data, [], s.adj.Pairs, 0);
    PackStart(s.rows, s.data, o2n, s.adj.Pairs, s.per);
    CountIs(s.Value(), s.per, s.adj.nnode);
    i2n := [];
    var packcell := 0;
    for origcell := 0 to s.max
      invariant s.adj.Valid() && s.adj.nnode == |o2n| && s.max == old(s.max) && s.count == old(s.count)
      invariant g == Progress(old(s.rows), old(s.data), s.rows, s.data, i2n, s.adj.Pairs, packcell)
      invariant PackInv(g, s.per, o2n) && |i2n| == origcell
    {
      StillThere(g, s.per, o2n);
      if Used(s.rows[origcell]) {
        assert Survives(old(s.rows), o2n, origcell);
        g := MoveItem(s, o2n, origcell, packcell, g);
        i2n := i2n + [packcell];
        packcell := packcell + 1;
      } else {
        PackSkip(g, s.per, o2n);
        i2n := i2n + [EMPTY];
        g := g.(i2n := i2n);
      }
    }
    RebuildFreeList(s, packcell);
    PackDone(g, s.per, o2n, s.rows);
  }

  /** The packing loop of gridPack for edges: it gives up at the first edge whose nodes do not all survive. */
  method PackEdges<P>(s: Store<P>, o2n: seq<int>) returns (ok: bool, i2n: seq<int>)
    requires s.Valid() && |o2n| == s.adj.nnode && forall n :: 0 <= n < |o2n| ==> EMPTY <= o2n[n] < |o2n|
    modifies s, s.adj
    ensures ok <==> forall c :: 0 <= c < |old(s.rows)| ==> |old(s.rows)[c]| >= 2 && Survives(old(s.rows), o2n, c)
    ensures ok ==> s.Valid() && s.adj.nnode == old(s.adj.nnode) && s.max == old(s.max) && s.count == old(s.count)
    ensures ok ==> Compact(s.rows, s.count) && |i2n| == |old(s.rows)|
    ensures ok ==> var g := Progress(old(s.rows), old(s.data), s.rows, s.data, i2n, s.adj.Pairs, s.count);
      Shape(g, s.per) && forall c :: 0 <= c < |i2n| ==> Moved(g, s.per, o2n, c)
    ensures ok ==> s.Value() == CompactTable(s.rows, s.count)
    ensures ok ==> TailKept(old(s.rows), old(s.data), s.rows, s.data, s.count)
  {
    ghost var g := Progress(s.rows, s.data, s.rows, s.data, [], s.adj.Pairs, 0);
    PackStart(s.rows, s.data, o2n, s.adj.Pairs, s.per);
    CountIs(s.Value(), s.per, s.adj.nnode);
    i2n := [];
    var packedge := 0;
    for origedge := 0 to s.max
      invariant s.adj.Valid() && s.adj.nnode == |o2n| && s.max == old(s.max) && s.count == old(s.count)
      invariant g == Progress(old(s.rows), old(s.data), s.rows, s.data, i2n, s.adj.Pairs, packedge)
      invariant PackInv(g, s.per, o2n) && |i2n| == origedge
    {
      StillThere(g, s.per, o2n);
      if Used(s.rows[origedge]) {
        UsedInRange(old(s.Value()), s.per, |o2n|, origedge);
        ok := AllSurvive(s.rows[origedge], o2n);
        if !ok {
          assert !Survives(old(s.rows), o2n, origedge);
          return;
        }
        g := MoveItem(s, o2n, origedge, packedge, g);
        i2n := i2n + [packedge];
        packedge := packedge + 1;
      } else {
        PackSkip(g, s.per, o2n);
        i2n := i2n + [EMPTY];
        g := g.(i2n := i2n);
      }
    }
    RebuildFreeList(s, packedge);
    PackDone(g, s.per, o2n, s.rows);
    ok := true;
    AllMovedSurvive(g.(rows := s.rows), s.per, o2n);
  }

  lemma AllMovedSurvive<P>(g: Progress<P>, per: nat, o2n: seq<int>)
    requires Shape(g, per) && |g.i2n| == |g.rows0| && forall c :: 0 <= c < |g.rows0| ==> Moved(g, per, o2n, c)
    ensures forall c :: 0 <= c < |g.rows0| ==> Survives(g.rows0, o2n, c)
  {
    forall c | 0 <= c < |g.rows0| ensures Survives(g.rows0, o2n, c) {
      assert Moved(g, per, o2n, c);
    }
  }

  /** One item: out of the adjacency, to its new row with new node numbers, back into the adjacency. */
  method MoveItem<P>(s: Store<P>, o2n: seq<int>, origrow: nat, packrow: nat, ghost g: Progress<P>)
    returns (ghost g': Progress<P>)
    requires s.adj.Valid() && s.adj.nnode == |o2n| && CanAdvance(g, s.per, o2n)
    requires g.rows == s.rows && g.data == s.data && g.pairs == s.adj.Pairs && |g.i2n| == origrow && g.pack == packrow
    modifies s`rows, s`data, s.adj
    ensures s.adj.Valid() && s.adj.nnode == old(s.adj.nnode)
    ensures PackInv(g', s.per, o2n)
    ensures g' == Progress(g.rows0, g.data0, s.rows, s.data, g.i2n + [packrow], s.adj.Pairs, packrow + 1)
  {
    AdvanceInverse(g, s.per, o2n);
    PackAdvance(g, s.per, o2n);
    g' := Advanced(g, Mapped(s.rows[origrow], o2n));
    RemoveRow(s.adj, s.rows[origrow], origrow, s.adj.Pairs - RowPairs(s.rows[origrow], origrow));
    s.rows := s.rows[packrow := Mapped(s.rows[origrow], o2n)];
    s.data := s.data[packrow := s.data[origrow]];
    RegisterRow(s.adj, s.rows[packrow], packrow);
  }

  lemma CountIs(t: Table, per: nat, nnode: nat)
    requires TableOk(t, per, nnode)
    ensures NUsed(t.rows) + t.nfree == |t.rows|
  {
    assert Unfold(0);
  }

  /** The places of a table that is packed already. */
  lemma NewPlaceOfCompact(rows: seq<seq<int>>, from: nat, c: nat)
    requires forall c :: 0 <= c < |rows| ==> |rows[c]| >= 2
    requires from <= |rows| && Compact(rows, from) && c <= from
    ensures NewPlace(rows, c) == c
  {
    NUsedOfCompact(rows[..c], c);
  }

  /** Packing a packed table by a map that leaves its nodes where they are changes nothing. */
  lemma PackAgain<P>(g: Progress<P>, per: nat, o2n: seq<int>, count: nat)
    requires Shape(g, per) && |g.i2n| == |g.rows0| && forall c :: 0 <= c < |g.i2n| ==> Moved(g, per, o2n, c)
    requires count <= |g.rows0| && Compact(g.rows0, count) && TailKept(g.rows0, g.data0, g.rows, g.data, count)
    requires forall c, i :: 0 <= c < count && 0 <= i < per && 0 <= g.rows0[c][i] < |o2n| ==>
      o2n[g.rows0[c][i]] == g.rows0[c][i]
    ensures g.rows == g.rows0 && g.data == g.data0
  {
    forall c | 0 <= c < |g.rows| ensures g.rows[c] == g.rows0[c] && g.data[c] == g.data0[c] {
      if c < count {
        assert Moved(g, per, o2n, c);
        NewPlaceOfCompact(g.rows0, count, c);
        assert Mapped(g.rows0[c], o2n) == g.rows0[c];
      } else {
        assert g.rows[c] == Tail(g.rows0[c], NextFree(c, |g.rows|));
        assert g.rows0[c][0] == EMPTY && g.rows0[c][1] == NextFree(c, |g.rows|);
        assert Tail(g.rows0[c], NextFree(c, |g.rows|)) == g.rows0[c];
      }
    }
  }
}
