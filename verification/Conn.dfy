/** The numbering of cell edges in one/grid.c: gridCreateConn, gridConn2Node and gridFindConn. */
module Connections {
  import opened Common
  import opened Geometry
  import opened ItemStore
  import opened NodeStore

  /** The ends of the six edges of a cell. */
  const EDGE0: seq<nat> := [0, 0, 0, 1, 1, 2]
  const EDGE1: seq<nat> := [1, 2, 3, 2, 3, 3]

  /** An edge of a cell as its smaller and its larger node. */
  function EdgePair(nodes: seq<int>, index: nat): (int, int)
    requires |nodes| == 4 && index < 6
  {
    Ordered(nodes[EDGE0[index]], nodes[EDGE1[index]])
  }

  function Ordered(a: int, b: int): (int, int) {
    (Min(a, b), Max(a, b))
  }

  ghost predicate Slots(rows: seq<seq<int>>, cell2conn: seq<seq<int>>) {
    Wide(rows, 4) && |cell2conn| == |rows| && forall c :: 0 <= c < |cell2conn| ==> |cell2conn[c]| == 6
  }

  /** Row c after all its edges equal to `pair` got number conn. */
  function Marked(row: seq<int>, nodes: seq<int>, pair: (int, int), conn: int): (r: seq<int>)
    requires |row| == 6 && |nodes| == 4
    ensures |r| == 6 && forall i :: 0 <= i < 6 ==> r[i] == if EdgePair(nodes, i) == pair then conn else row[i]
  {
    seq(6, i requires 0 <= i < 6 => if EdgePair(nodes, i) == pair then conn else row[i])
  }

  /** Cell c during the spread of a number: done, or not yet. */
  ghost predicate Spreading(rows: seq<seq<int>>, before: seq<seq<int>>, now: seq<seq<int>>, pair: (int, int), conn: int,
                            c: int)
    requires Slots(rows, before) && Slots(rows, now) && 0 <= c < |rows|
  {
    now[c] == before[c] || (Used(rows[c]) && now[c] == Marked(before[c], rows[c], pair, conn))
  }

  ghost predicate Spread(rows: seq<seq<int>>, before: seq<seq<int>>, now: seq<seq<int>>, pair: (int, int), conn: int,
                         c: int)
    requires Slots(rows, before) && Slots(rows, now) && 0 <= c < |rows|
  {
    Used(rows[c]) ==> now[c] == Marked(before[c], rows[c], pair, conn)
  }

  /** The numbers given so far, for the pairs met so far. */
  ghost predicate NumbersOk(rows: seq<seq<int>>, cell2conn: seq<seq<int>>, pairs: seq<(int, int)>) {
    && Slots(rows, cell2conn)
    && forall u :: Unfold(u) ==>
         && (forall c :: 0 <= c < |rows| ==> CellNumbers(rows, cell2conn, pairs, c))
         && (forall i, j :: 0 <= i < j < |pairs| ==> pairs[i] != pairs[j])
         && (forall n :: 0 <= n < |pairs| ==> IsTaken(rows, cell2conn, n))
  }

  /** An edge has a number exactly when its pair has been met, and it is the number of the pair. */
  ghost predicate CellNumbers(rows: seq<seq<int>>, cell2conn: seq<seq<int>>, pairs: seq<(int, int)>, c: int)
    requires Slots(rows, cell2conn) && 0 <= c < |rows|
  {
    Used(rows[c]) ==> forall i :: 0 <= i < 6 ==>
      if cell2conn[c][i] == EMPTY then EdgePair(rows[c], i) !in pairs
      else 0 <= cell2conn[c][i] < |pairs| && pairs[cell2conn[c][i]] == EdgePair(rows[c], i)
  }

  /** Some edge has number n. */
  ghost predicate IsTaken(rows: seq<seq<int>>, cell2conn: seq<seq<int>>, n: int)
    requires Slots(rows, cell2conn)
  {
    exists c, i :: 0 <= c < |rows| && 0 <= i < 6 && Used(rows[c]) && cell2conn[c][i] == n
  }

  /** All edges below a position have numbers. */
  ghost predicate NumberedUpto(rows: seq<seq<int>>, cell2conn: seq<seq<int>>, cell: int, index: int)
    requires Slots(rows, cell2conn)
  {
    forall c, i :: 0 <= c < |rows| && 0 <= i < 6 && Used(rows[c]) && (c < cell || (c == cell && i < index)) ==>
      cell2conn[c][i] != EMPTY
  }

  lemma SpreadNumbers(rows: seq<seq<int>>, before: seq<seq<int>>, now: seq<seq<int>>, pairs: seq<(int, int)>,
                      pair: (int, int), cell: nat, index: nat)
    requires NumbersOk(rows, before, pairs) && Slots(rows, now)
    requires forall c :: 0 <= c < |rows| ==> Spread(rows, before, now, pair, |pairs|, c)
    requires cell < |rows| && Used(rows[cell]) && index < 6 && before[cell][index] == EMPTY
    requires pair == EdgePair(rows[cell], index)
    requires NumberedUpto(rows, before, cell, index)
    ensures NumbersOk(rows, now, pairs + [pair])
    ensures var next := index + 1; NumberedUpto(rows, now, cell, next)
  {
    assert Unfold(0);
    var pairs' := pairs + [pair];
    assert CellNumbers(rows, before, pairs, cell);
    forall c | 0 <= c < |rows| ensures CellNumbers(rows, now, pairs', c) {
      assert CellNumbers(rows, before, pairs, c) && Spread(rows, before, now, pair, |pairs|, c);
    }
    forall n | 0 <= n < |pairs'| ensures IsTaken(rows, now, n) {
      if n < |pairs| {
        assert IsTaken(rows, before, n);
        var c, i :| 0 <= c < |rows| && 0 <= i < 6 && Used(rows[c]) && before[c][i] == n;
        assert CellNumbers(rows, before, pairs, c) && Spread(rows, before, now, pair, |pairs|, c);
        assert now[c][i] == n;
      } else {
        assert Spread(rows, before, now, pair, |pairs|, cell);
        assert now[cell][index] == n;
      }
    }
    forall c, i | 0 <= c < |rows| && 0 <= i < 6 && Used(rows[c]) && (c < cell || (c == cell && i < index + 1))
      ensures now[c][i] != EMPTY
    {
      assert Spread(rows, before, now, pair, |pairs|, c);
    }
  }

  /** The finished numbering: conn2node gives back the ends of every number. */
  ghost predicate ConnsOk(rows: seq<seq<int>>, cell2conn: seq<seq<int>>, conn2node: seq<(int, int)>) {
    && NumbersOk(rows, cell2conn, conn2node)
    && forall u :: Unfold(u) ==> NumberedUpto(rows, cell2conn, |rows|, 0)
  }

  lemma SlotNumbers(rows: seq<seq<int>>, cell2conn: seq<seq<int>>, conn2node: seq<(int, int)>, c: nat, i: nat,
                           d: nat, j: nat)
    requires ConnsOk(rows, cell2conn, conn2node) && c < |rows| && d < |rows| && Used(rows[c]) && Used(rows[d]) && i < 6
    requires j < 6
    ensures 0 <= cell2conn[c][i] < |conn2node| && conn2node[cell2conn[c][i]] == EdgePair(rows[c], i)
    ensures cell2conn[c][i] == cell2conn[d][j] <==> EdgePair(rows[c], i) == EdgePair(rows[d], j)
  {
    assert Unfold(0);
    assert CellNumbers(rows, cell2conn, conn2node, c) && CellNumbers(rows, cell2conn, conn2node, d);
    assert cell2conn[c][i] != EMPTY && cell2conn[d][j] != EMPTY;
  }

  /** Number n is that of an edge between two nodes, and its ends are given smaller first. */
  ghost predicate HasEnds(conn2node: seq<(int, int)>, n: int, a: int, b: int) {
    0 <= n < |conn2node| && conn2node[n] == if a < b then (a, b) else (b, a)
  }

  /** The numbers of the six edges of a cell. */
  ghost predicate SixEdges(nodes: seq<int>, numbers: seq<int>, conn2node: seq<(int, int)>) {
    && |nodes| == 4 && |numbers| == 6
    && HasEnds(conn2node, numbers[0], nodes[0], nodes[1])
    && HasEnds(conn2node, numbers[1], nodes[0], nodes[2])
    && HasEnds(conn2node, numbers[2], nodes[0], nodes[3])
    && HasEnds(conn2node, numbers[3], nodes[1], nodes[2])
    && HasEnds(conn2node, numbers[4], nodes[1], nodes[3])
    && HasEnds(conn2node, numbers[5], nodes[2], nodes[3])
  }

  lemma CellHasSixEdges(rows: seq<seq<int>>, cell2conn: seq<seq<int>>, conn2node: seq<(int, int)>, c: nat)
    requires ConnsOk(rows, cell2conn, conn2node) && c < |rows| && Used(rows[c])
    ensures |cell2conn| == |rows| && SixEdges(rows[c], cell2conn[c], conn2node)
  {
    forall i: nat | i < 6
      ensures HasEnds(conn2node, cell2conn[c][i], rows[c][EDGE0[i]], rows[c][EDGE1[i]])
    {
      SlotNumbers(rows, cell2conn, conn2node, c, i, c, i);
    }
  }

  /** Slot i of a cell is for the edge between its columns a and b. */
  predicate IsSlot(i: int, a: int, b: int) {
    || (i == 0 && a == 0 && b == 1) || (i == 1 && a == 0 && b == 2) || (i == 2 && a == 0 && b == 3)
    || (i == 3 && a == 1 && b == 2) || (i == 4 && a == 1 && b == 3) || (i == 5 && a == 2 && b == 3)
  }

  /** Two edges of two cells, or of one, share a number exactly when they are between the same two nodes. */
  lemma SameNumberSameEnds(rows: seq<seq<int>>, cell2conn: seq<seq<int>>, conn2node: seq<(int, int)>,
                           c: nat, i: nat, c0: nat, c1: nat, d: nat, j: nat, d0: nat, d1: nat)
    requires ConnsOk(rows, cell2conn, conn2node) && c < |rows| && d < |rows| && Used(rows[c]) && Used(rows[d])
    requires IsSlot(i, c0, c1) && IsSlot(j, d0, d1)
    ensures |cell2conn| == |rows| && |cell2conn[c]| == |cell2conn[d]| == 6 && |rows[c]| == |rows[d]| == 4
    ensures HasEnds(conn2node, cell2conn[c][i], rows[c][c0], rows[c][c1])
    ensures cell2conn[c][i] == cell2conn[d][j] <==>
      multiset{rows[c][c0], rows[c][c1]} == multiset{rows[d][d0], rows[d][d1]}
  {
    CellHasSixEdges(rows, cell2conn, conn2node, c);
    CellHasSixEdges(rows, cell2conn, conn2node, d);
    SlotNumbers(rows, cell2conn, conn2node, c, i, d, j);
    SameTwo(rows[c][c0], rows[c][c1], rows[d][d0], rows[d][d1]);
  }

  lemma SameTwo(a: int, b: int, c: int, d: int)
    ensures multiset{a, b} == multiset{c, d} <==> (a == c && b == d) || (a == d && b == c)
  {
    if multiset{a, b} == multiset{c, d} {
      assert a in multiset{c, d} && b in multiset{c, d} && c in multiset{a, b} && d in multiset{a, b};
    }
  }

  lemma EveryNumberIsTaken(rows: seq<seq<int>>, cell2conn: seq<seq<int>>, conn2node: seq<(int, int)>, n: nat)
    requires ConnsOk(rows, cell2conn, conn2node) && n < |conn2node|
    ensures IsTaken(rows, cell2conn, n)
  {
    assert Unfold(0);
  }

  /** Some cell has an edge between two nodes. */
  ghost predicate HasEdge(rows: seq<seq<int>>, node0: int, node1: int)
    requires Wide(rows, 4)
  {
    exists c, i :: 0 <= c < |rows| && 0 <= i < 6 && IsEdge(rows, c, i, node0, node1)
  }

  ghost predicate IsEdge(rows: seq<seq<int>>, c: int, i: int, node0: int, node1: int)
    requires Wide(rows, 4) && 0 <= c < |rows| && 0 <= i < 6
  {
    Used(rows[c]) && EdgePair(rows[c], i) == Ordered(node0, node1)
  }

  /** Some cell names two nodes, in two of its columns. */
  ghost predicate NamesBoth(rows: seq<seq<int>>, node0: int, node1: int)
    requires Wide(rows, 4)
  {
    exists c, a, b :: 0 <= c < |rows| && InColumns(rows, c, a, b, node0, node1)
  }

  ghost predicate InColumns(rows: seq<seq<int>>, c: int, a: int, b: int, node0: int, node1: int)
    requires Wide(rows, 4) && 0 <= c < |rows|
  {
    Used(rows[c]) && 0 <= a < 4 && 0 <= b < 4 && a != b && rows[c][a] == node0 && rows[c][b] == node1
  }

  /** Any two columns of a cell are those of one of its edges. */
  lemma EdgeIffBoth(rows: seq<seq<int>>, node0: int, node1: int)
    requires Wide(rows, 4)
    ensures HasEdge(rows, node0, node1) <==> NamesBoth(rows, node0, node1)
    ensures node0 != node1 ==> (NamesBoth(rows, node0, node1) <==>
      exists c :: 0 <= c < |rows| && Used(rows[c]) && node0 in rows[c] && node1 in rows[c])
  {
    if HasEdge(rows, node0, node1) {
      var c, i :| 0 <= c < |rows| && 0 <= i < 6 && IsEdge(rows, c, i, node0, node1);
      assert InColumns(rows, c, EDGE0[i], EDGE1[i], node0, node1) ||
        InColumns(rows, c, EDGE1[i], EDGE0[i], node0, node1);
    }
    if c, a, b :| 0 <= c < |rows| && InColumns(rows, c, a, b, node0, node1) {
      var i := SlotBetween(a, b);
      assert IsEdge(rows, c, i, node0, node1);
      assert node0 in rows[c] && node1 in rows[c];
    }
    if c :| node0 != node1 && 0 <= c < |rows| && Used(rows[c]) && node0 in rows[c] && node1 in rows[c] {
      var a, b :| 0 <= a < 4 && 0 <= b < 4 && rows[c][a] == node0 && rows[c][b] == node1;
      assert InColumns(rows, c, a, b, node0, node1);
    }
  }

  lemma SlotBetween(a: int, b: int) returns (i: int)
    requires 0 <= a < 4 && 0 <= b < 4 && a != b
    ensures 0 <= i < 6
    ensures (EDGE0[i] == a && EDGE1[i] == b) || (EDGE0[i] == b && EDGE1[i] == a)
  {
    var low, high := Min(a, b), Max(a, b);
    i := if low == 0 then high - 1 else if low == 1 then high + 1 else 5;
  }

  /** An end of an edge is named by its cell, so the adjacency of the node leads to the cell. */
  lemma EdgeIsAdjacent(pairs: multiset<(int, int)>, rows: seq<seq<int>>, c: nat, i: nat, node0: int, node1: int)
    requires Wide(rows, 4) && Inverse(pairs, rows) && c < |rows| && i < 6 && Used(rows[c])
    requires EdgePair(rows[c], i) == Ordered(node0, node1)
    ensures (node0, c) in pairs
  {
    assert node0 in rows[c] by {
      assert rows[c][EDGE0[i]] == node0 || rows[c][EDGE1[i]] == node0;
    }
    assert pairs[(node0, c)] == Mentions(rows, node0, c);
  }

  class Conns {
    const cells: Store<seq<int>>
    /** NULL in the program until created. */
    var created: bool
    var cell2conn: seq<seq<int>>
    var conn2node: seq<(int, int)>
    var nconn: nat

    ghost predicate ValidCells()
      reads cells, cells.adj
    {
      cells.Valid() && cells.per == 4
    }

    /** The numbering is that of the present cells. */
    ghost predicate Fresh()
      reads this, cells, cells.adj
    {
      ValidCells() && created && nconn == |conn2node| && ConnsOk(cells.rows, cell2conn, conn2node)
    }

    constructor (cells: Store<seq<int>>)
      requires cells.Valid() && cells.per == 4
      ensures ValidCells() && this.cells == cells && !created
    {
      this.cells := cells;
      created, cell2conn, conn2node, nconn := false, [], [], 0;
    }

    lemma CellsAre()
      requires ValidCells()
      ensures Wide(cells.rows, 4) && |cells.rows| == cells.max
      ensures forall c, n :: 0 <= c < |cells.rows| && Used(cells.rows[c]) && n in cells.rows[c] ==>
        0 <= n < cells.adj.nnode
    {
      forall c, n | 0 <= c < |cells.rows| && Used(cells.rows[c]) && n in cells.rows[c]
        ensures 0 <= n < cells.adj.nnode
      {
        UsedInRange(cells.Value(), cells.per, cells.adj.nnode, c);
      }
    }

    /** The numbers of one cell. */
    method MarkCell(cell: nat, conn: int, node0: int, node1: int)
      requires Slots(cells.rows, cell2conn) && cell < |cell2conn|
      modifies this`cell2conn
      ensures cell2conn == old(cell2conn)[cell := Marked(old(cell2conn)[cell], cells.rows[cell],
        Ordered(node0, node1), conn)]
    {
      ghost var row := cell2conn[cell];
      for iconn := 0 to 6
        invariant |cell2conn| == |old(cell2conn)| && |cell2conn[cell]| == 6
        invariant forall c :: 0 <= c < |cell2conn| && c != cell ==> cell2conn[c] == old(cell2conn)[c]
        invariant forall i :: 0 <= i < 6 ==>
          cell2conn[cell][i] ==
          if i < iconn && EdgePair(cells.rows[cell], i) == Ordered(node0, node1) then conn else row[i]
      {
        var local0, local1 := cells.rows[cell][EDGE0[iconn]], cells.rows[cell][EDGE1[iconn]];
        if Min(local0, local1) == Min(node0, node1) && Max(local0, local1) == Max(node0, node1) {
          cell2conn := cell2conn[cell := cell2conn[cell][iconn := conn]];
        }
      }
      assert cell2conn[cell] == Marked(row, cells.rows[cell], Ordered(node0, node1), conn);
    }

    /** gridAddConnToCell2Conn: the number goes to every edge of every cell with these two ends. */
    method AddConnToCell2Conn(conn: int, node0: int, node1: int)
      requires ValidCells() && Slots(cells.rows, cell2conn)
      modifies this`cell2conn
      ensures Slots(cells.rows, cell2conn)
      ensures forall c :: 0 <= c < |cells.rows| ==>
        Spread(cells.rows, old(cell2conn), cell2conn, Ordered(node0, node1), conn, c)
    {
      ghost var before, pair := cell2conn, Ordered(node0, node1);
      var it := cells.adj.First(node0);
      cells.adj.FirstAt(node0);
      ghost var k: nat := cells.adj.Todo(node0);
      while it != EMPTY
        invariant cells.adj.At(node0, it, k) && k <= cells.adj.Todo(node0) && Slots(cells.rows, cell2conn)
        invariant forall c :: 0 <= c < |cells.rows| ==> Spreading(cells.rows, before, cell2conn, pair, conn, c)
        invariant forall j :: k <= j < cells.adj.Todo(node0) ==>
          0 <= cells.adj.Items[node0][j] < |cells.rows| &&
          Spread(cells.rows, before, cell2conn, pair, conn, cells.adj.Items[node0][j])
        decreases k
      {
        var cell := cells.adj.Item(node0, it, k);
        cells.adj.PairsInRange(node0, cell);
        AdjacentIsCell(cells.adj.Pairs, cells.rows, node0, cell);
        ghost var now := cell2conn;
        MarkCell(cell, conn, node0, node1);
        MarkedStep(cells.rows, before, now, cell2conn, pair, conn, cell);
        it := cells.adj.Next(node0, it, k);
        k := k - 1;
      }
      forall c | 0 <= c < |cells.rows| ensures Spread(cells.rows, before, cell2conn, pair, conn, c) {
        cells.adj.PairsInRange(node0, c);
        SpreadAtEnd(cells.adj.Pairs, cells.rows, before, cell2conn, node0, node1, conn, c);
      }
    }

    /** The first two loops of gridCreateConn: every edge gets a number. */
    method NumberCells() returns (ghost pairs: seq<(int, int)>)
      requires ValidCells()
      modifies this`cell2conn, this`nconn
      ensures nconn == |pairs| && ConnsOk(cells.rows, cell2conn, pairs)
    {
      CellsAre();
      cell2conn := seq(cells.max, _ => seq(6, _ => EMPTY));
      nconn, pairs := 0, [];
      for cell := 0 to cells.max
        invariant nconn == |pairs| && NumbersOk(cells.rows, cell2conn, pairs)
        invariant NumberedUpto(cells.rows, cell2conn, cell, 0)
      {
        if Used(cells.rows[cell]) {
          for conn := 0 to 6
            invariant nconn == |pairs| && NumbersOk(cells.rows, cell2conn, pairs)
            invariant NumberedUpto(cells.rows, cell2conn, cell, conn)
          {
            if cell2conn[cell][conn] == EMPTY {
              pairs := NumberEdge(cell, conn, pairs);
            }
          }
        }
      }
    }

    /** A new number for one edge. */
    method NumberEdge(cell: nat, conn: nat, ghost pairs: seq<(int, int)>) returns (ghost pairs': seq<(int, int)>)
      requires ValidCells() && NumbersOk(cells.rows, cell2conn, pairs) && nconn == |pairs|
      requires cell < |cells.rows| && Used(cells.rows[cell]) && conn < 6 && cell2conn[cell][conn] == EMPTY
      requires NumberedUpto(cells.rows, cell2conn, cell, conn)
      modifies this`cell2conn, this`nconn
      ensures nconn == |pairs'| && NumbersOk(cells.rows, cell2conn, pairs')
      ensures var next := conn + 1; NumberedUpto(cells.rows, cell2conn, cell, next)
    {
      ghost var before, pair := cell2conn, EdgePair(cells.rows[cell], conn);
      cell2conn := cell2conn[cell := cell2conn[cell][conn := nconn]];
      ghost var first := cell2conn;
      AddConnToCell2Conn(nconn, cells.rows[cell][EDGE0[conn]], cells.rows[cell][EDGE1[conn]]);
      forall c | 0 <= c < |cells.rows| ensures Spread(cells.rows, before, cell2conn, pair, |pairs|, c) {
        assert Spread(cells.rows, first, cell2conn, pair, |pairs|, c);
        FirstMark(cells.rows, before, first, cell2conn, pair, |pairs|, cell, conn, c);
      }
      SpreadNumbers(cells.rows, before, cell2conn, pairs, pair, cell, conn);
      pairs' := pairs + [pair];
      nconn := nconn + 1;
    }

    /** gridCreateConn; it fails if there is a numbering already. */
    method CreateConn() returns (ok: bool)
      requires ValidCells()
      modifies this
      ensures ok == !old(created)
      ensures ok ==> Fresh()
      ensures ok ==> forall c :: 0 <= c < |cells.rows| && Used(cells.rows[c]) ==>
        SixEdges(cells.rows[c], cell2conn[c], conn2node)
      ensures ok ==> forall m, n :: 0 <= m < n < nconn ==> conn2node[m] != conn2node[n]
      ensures ok ==> forall n :: 0 <= n < nconn ==> IsTaken(cells.rows, cell2conn, n)
      ensures !ok ==> created && cell2conn == old(cell2conn) && conn2node == old(conn2node) && nconn == old(nconn)
    {
      if created {
        return false;
      }
      ghost var pairs := NumberCells();
      FillConn2Node(pairs);
      created := true;
      ok := true;
      assert Unfold(0);
      forall c | 0 <= c < |cells.rows| && Used(cells.rows[c])
        ensures SixEdges(cells.rows[c], cell2conn[c], conn2node)
      {
        CellHasSixEdges(cells.rows, cell2conn, conn2node, c);
      }
    }

    /** The last loops of gridCreateConn. */
    method FillConn2Node(ghost pairs: seq<(int, int)>)
      requires ValidCells() && nconn == |pairs| && ConnsOk(cells.rows, cell2conn, pairs)
      modifies this`conn2node
      ensures conn2node == pairs
    {
      CellsAre();
      conn2node := seq(nconn, _ => (EMPTY, EMPTY));
      for cell := 0 to cells.max
        invariant |conn2node| == nconn
        invariant forall c, i :: 0 <= c < cell && 0 <= i < 6 && Used(cells.rows[c]) ==>
          0 <= cell2conn[c][i] < nconn && conn2node[cell2conn[c][i]] == pairs[cell2conn[c][i]]
      {
        if Used(cells.rows[cell]) {
          for conn := 0 to 6
            invariant |conn2node| == nconn
            invariant forall c, i ::
              0 <= c < |cells.rows| && 0 <= i < 6 && Used(cells.rows[c]) && (c < cell || (c == cell && i < conn)) ==>
              0 <= cell2conn[c][i] < nconn && conn2node[cell2conn[c][i]] == pairs[cell2conn[c][i]]
          {
            SlotNumbers(cells.rows, cell2conn, pairs, cell, conn, cell, conn);
            var node0 := Min(cells.rows[cell][EDGE0[conn]], cells.rows[cell][EDGE1[conn]]);
            var node1 := Max(cells.rows[cell][EDGE0[conn]], cells.rows[cell][EDGE1[conn]]);
            conn2node := conn2node[cell2conn[cell][conn] := (node0, node1)];
          }
        }
      }
      forall n | 0 <= n < nconn ensures conn2node[n] == pairs[n] {
        EveryNumberIsTaken(cells.rows, cell2conn, pairs, n);
      }
    }

    /** gridConn2Node */
    method Conn2Node(conn: int) returns (ok: bool, nodes: (int, int))
      requires ValidCells() && (created ==> Fresh())
      modifies this
      ensures Fresh() && (old(created) ==> conn2node == old(conn2node))
      ensures ok <==> 0 <= conn < nconn
      ensures ok ==> nodes == conn2node[conn]
    {
      if !created {
        var _ := CreateConn();
      }
      ok, nodes := 0 <= conn < nconn, (EMPTY, EMPTY);
      if ok {
        nodes := conn2node[conn];
      }
    }

    /** gridFindConn: for two valid nodes, the number of the edge between them, if some cell has it. */
    method FindConn(xyz: seq<Point>, node0: int, node1: int) returns (conn: int)
      requires created ==> Fresh()
      ensures !created || !IsValid(xyz, node0) || !IsValid(xyz, node1) ==> conn == EMPTY
      ensures created && IsValid(xyz, node0) && IsValid(xyz, node1) ==>
        (conn != EMPTY <==> NamesBoth(cells.rows, node0, node1))
      ensures created && IsValid(xyz, node0) && IsValid(xyz, node1) && node0 != node1 ==>
        (conn != EMPTY <==>
         exists c :: 0 <= c < |cells.rows| && Used(cells.rows[c]) && node0 in cells.rows[c] && node1 in cells.rows[c])
      ensures conn != EMPTY ==> HasEnds(conn2node, conn, node0, node1)
    {
      if !created || !IsValid(xyz, node0) || !IsValid(xyz, node1) {
        return EMPTY;
      }
      CellsAre();
      EdgeIffBoth(cells.rows, node0, node1);
      var it := cells.adj.First(node0);
      cells.adj.FirstAt(node0);
      ghost var k: nat := cells.adj.Todo(node0);
      while it != EMPTY
        invariant cells.adj.At(node0, it, k) && k <= cells.adj.Todo(node0)
        invariant forall j :: k <= j < cells.adj.Todo(node0) ==>
          NoEdgeIn(cells.rows, cells.adj.Items[node0][j], node0, node1)
        decreases k
      {
        var cell := cells.adj.Item(node0, it, k);
        cells.adj.PairsInRange(node0, cell);
        AdjacentIsCell(cells.adj.Pairs, cells.rows, node0, cell);
        conn := FindInCell(cell, node0, node1);
        if conn != EMPTY {
          return;
        }
        it := cells.adj.Next(node0, it, k);
        k := k - 1;
      }
      conn := EMPTY;
      forall c, i | 0 <= c < |cells.rows| && 0 <= i < 6 ensures !IsEdge(cells.rows, c, i, node0, node1) {
        if IsEdge(cells.rows, c, i, node0, node1) {
          EdgeIsAdjacent(cells.adj.Pairs, cells.rows, c, i, node0, node1);
          cells.adj.PairsInRange(node0, c);
        }
      }
    }

    /** The edges of one cell. */
    method FindInCell(cell: nat, node0: int, node1: int) returns (conn: int)
      requires Fresh() && cell < |cells.rows| && Used(cells.rows[cell])
      ensures conn == EMPTY <==> NoEdgeIn(cells.rows, cell, node0, node1)
      ensures conn != EMPTY ==>
        0 <= conn < |conn2node| && conn2node[conn] == Ordered(node0, node1) && HasEdge(cells.rows, node0, node1)
    {
      CellsAre();
      for index := 0 to 6
        invariant forall i :: 0 <= i < index ==> !IsEdge(cells.rows, cell, i, node0, node1)
      {
        SlotNumbers(cells.rows, cell2conn, conn2node, cell, index, cell, index);
        conn := cell2conn[cell][index];
        var conn0, conn1 := conn2node[conn].0, conn2node[conn].1;
        if (node0 == conn0 && node1 == conn1) || (node0 == conn1 && node1 == conn0) {
          assert IsEdge(cells.rows, cell, index, node0, node1);
          return;
        }
        assert !IsEdge(cells.rows, cell, index, node0, node1);
      }
      conn := EMPTY;
    }
  }

  ghost predicate NoEdgeIn(rows: seq<seq<int>>, c: int, node0: int, node1: int)
    requires Wide(rows, 4)
  {
    0 <= c < |rows| && forall i :: 0 <= i < 6 ==> !IsEdge(rows, c, i, node0, node1)
  }

  lemma AdjacentIsCell(pairs: multiset<(int, int)>, rows: seq<seq<int>>, node: int, c: int)
    requires Wide(rows, 4) && Inverse(pairs, rows) && (node, c) in pairs
    ensures 0 <= c < |rows| && Used(rows[c])
  {
    assert pairs[(node, c)] == Mentions(rows, node, c);
  }

  /** Marking a cell twice is marking it once. */
  lemma MarkedStep(rows: seq<seq<int>>, before: seq<seq<int>>, now: seq<seq<int>>, after: seq<seq<int>>,
                   pair: (int, int), conn: int, cell: nat)
    requires Slots(rows, before) && Slots(rows, now) && cell < |rows| && Used(rows[cell])
    requires forall c :: 0 <= c < |rows| ==> Spreading(rows, before, now, pair, conn, c)
    requires after == now[cell := Marked(now[cell], rows[cell], pair, conn)]
    ensures Slots(rows, after) && Spread(rows, before, after, pair, conn, cell)
    ensures forall c :: 0 <= c < |rows| ==> Spreading(rows, before, after, pair, conn, c)
    ensures forall c :: 0 <= c < |rows| && Spread(rows, before, now, pair, conn, c) ==>
      Spread(rows, before, after, pair, conn, c)
  {
    assert Spreading(rows, before, now, pair, conn, cell);
    assert Marked(now[cell], rows[cell], pair, conn) == Marked(before[cell], rows[cell], pair, conn);
    forall c | 0 <= c < |rows| ensures Spreading(rows, before, after, pair, conn, c) {
      assert Spreading(rows, before, now, pair, conn, c);
    }
  }

  lemma SpreadAtEnd(pairs: multiset<(int, int)>, rows: seq<seq<int>>, before: seq<seq<int>>, now: seq<seq<int>>,
                    node0: int, node1: int, conn: int, c: nat)
    requires Slots(rows, before) && Slots(rows, now) && Inverse(pairs, rows) && c < |rows|
    requires Spreading(rows, before, now, Ordered(node0, node1), conn, c)
    requires (node0, c) in pairs ==> Spread(rows, before, now, Ordered(node0, node1), conn, c)
    ensures Spread(rows, before, now, Ordered(node0, node1), conn, c)
  {
    if Used(rows[c]) && (node0, c) !in pairs {
      forall i | 0 <= i < 6 ensures EdgePair(rows[c], i) != Ordered(node0, node1) {
        if EdgePair(rows[c], i) == Ordered(node0, node1) {
          EdgeIsAdjacent(pairs, rows, c, i, node0, node1);
        }
      }
      assert Marked(before[c], rows[c], Ordered(node0, node1), conn) == before[c];
    }
  }

  lemma FirstMark(rows: seq<seq<int>>, before: seq<seq<int>>, first: seq<seq<int>>, now: seq<seq<int>>, pair: (int,
                  int), conn: int,
                  cell: nat, index: nat, c: nat)
    requires Slots(rows, before) && Slots(rows, first) && Slots(rows, now) && cell < |rows| && index < 6 && c < |rows|
    requires first == before[cell := before[cell][index := conn]] && EdgePair(rows[cell], index) == pair
    requires Spread(rows, first, now, pair, conn, c)
    ensures Spread(rows, before, now, pair, conn, c)
  {
    if Used(rows[c]) {
      assert Marked(first[c], rows[c], pair, conn) == Marked(before[c], rows[c], pair, conn);
    }
  }
}
