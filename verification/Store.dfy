/**
 The item tables of one/grid.c: cells (4 nodes an item), faces (3) and edges (2) are kept the same
 way, as rows of a table whose free rows form a last-in first-out list threaded through column 1.
 */
module ItemStore {
  import opened Common
  import opened Adjacency

  /** A table of `per` columns; `rank[c]` places the free row c in the free list of length nfree. */
  datatype Table = Table(rows: seq<seq<int>>, blank: int, rank: seq<int>, nfree: nat)

  /** What a face or an edge carries besides its nodes: the id of its surface or curve, and a parameter at each node. */
  datatype Tag<V> = Tag(id: int, par: seq<V>)

  predicate Used(row: seq<int>)
    requires |row| >= 2
  {
    row[0] != EMPTY
  }

  ghost predicate Wide(rows: seq<seq<int>>, per: nat) {
    per >= 2 && forall c :: 0 <= c < |rows| ==> |rows[c]| == per
  }

  predicate InRange(row: seq<int>, nnode: nat) {
    forall i :: 0 <= i < |row| ==> 0 <= row[i] < nnode
  }

  /** A used row names nodes in range. */
  ghost predicate RowOk(rows: seq<seq<int>>, per: nat, nnode: nat, c: int)
    requires Wide(rows, per) && 0 <= c < |rows|
  {
    Used(rows[c]) ==> InRange(rows[c], nnode)
  }

  /** A free row points to the next free row. */
  ghost predicate FreeOk(t: Table, per: nat, c: int)
    requires Wide(t.rows, per) && |t.rank| == |t.rows| && 0 <= c < |t.rows|
  {
    !Used(t.rows[c]) ==>
      && 0 <= t.rank[c] < t.nfree
      && if t.rank[c] == 0 then t.rows[c][1] == EMPTY
         else 0 <= t.rows[c][1] < |t.rows| && !Used(t.rows[t.rows[c][1]]) && t.rank[t.rows[c][1]] == t.rank[c] - 1
  }

  ghost predicate FreeApart(t: Table, per: nat, c: int, d: int)
    requires Wide(t.rows, per) && |t.rank| == |t.rows| && 0 <= c < |t.rows| && 0 <= d < |t.rows|
  {
    !Used(t.rows[c]) && !Used(t.rows[d]) && t.rank[c] == t.rank[d] ==> c == d
  }

  ghost predicate FreeHead(t: Table, per: nat)
    requires Wide(t.rows, per) && |t.rank| == |t.rows|
  {
    if t.nfree == 0 then t.blank == EMPTY
    else 0 <= t.blank < |t.rows| && !Used(t.rows[t.blank]) && t.rank[t.blank] == t.nfree - 1
  }

  /** The number of used rows. */
  ghost function NUsed(rows: seq<seq<int>>): nat
    requires forall c :: 0 <= c < |rows| ==> |rows[c]| >= 2
  {
    if rows == [] then 0 else NUsed(rows[..|rows| - 1]) + if Used(rows[|rows| - 1]) then 1 else 0
  }

  /** The free list is acyclic and holds exactly the unused rows. */
  ghost predicate FreeListOk(t: Table, per: nat)
    requires Wide(t.rows, per) && |t.rank| == |t.rows|
  {
    && FreeHead(t, per)
    && (forall c :: 0 <= c < |t.rows| ==> FreeOk(t, per, c))
    && (forall c, d :: 0 <= c < |t.rows| && 0 <= d < |t.rows| ==> FreeApart(t, per, c, d))
    && NUsed(t.rows) + t.nfree == |t.rows|
  }

  /** How often the used row c names node n. */
  ghost function Mentions(rows: seq<seq<int>>, n: int, c: int): nat
    requires forall c :: 0 <= c < |rows| ==> |rows[c]| >= 2
  {
    if 0 <= c < |rows| && Used(rows[c]) then multiset(rows[c])[n] else 0
  }

  /** The adjacency is the inverse of the table. */
  ghost predicate Inverse(pairs: multiset<(int, int)>, rows: seq<seq<int>>)
    requires forall c :: 0 <= c < |rows| ==> |rows[c]| >= 2
  {
    forall n, c :: pairs[(n, c)] == Mentions(rows, n, c)
  }

  /** The invariant of a table, kept folded: `assert Unfold(0)` opens it. */
  ghost predicate TableOk(t: Table, per: nat, nnode: nat) {
    && Wide(t.rows, per)
    && |t.rank| == |t.rows|
    && forall u :: Unfold(u) ==>
         FreeListOk(t, per) && forall c :: 0 <= c < |t.rows| ==> RowOk(t.rows, per, nnode, c)
  }

  lemma {:induction false} NUsedUpdate(rows: seq<seq<int>>, c: nat, row: seq<int>)
    requires c < |rows| && |row| >= 2 && forall c :: 0 <= c < |rows| ==> |rows[c]| >= 2
    ensures NUsed(rows[c := row]) == NUsed(rows) - (if Used(rows[c]) then 1 else 0) + if Used(row) then 1 else 0
  {
    var m := |rows| - 1;
    if c == m {
      assert rows[c := row][..m] == rows[..m];
    } else {
      assert rows[c := row][..m] == rows[..m][c := row];
      NUsedUpdate(rows[..m], c, row);
    }
  }

  /** Taking the head of the free list for a new item. */
  lemma TakeKeeps(t: Table, per: nat, nnode: nat, row: seq<int>)
    requires TableOk(t, per, nnode) && t.blank != EMPTY
    requires |row| == per && row[0] != EMPTY && InRange(row, nnode)
    ensures 0 <= t.blank < |t.rows| && !Used(t.rows[t.blank]) && t.nfree > 0
    ensures TableOk(Table(t.rows[t.blank := row], t.rows[t.blank][1], t.rank, t.nfree - 1), per, nnode)
  {
    assert Unfold(0);
    var b := t.blank;
    var t' := Table(t.rows[b := row], t.rows[b][1], t.rank, t.nfree - 1);
    assert FreeOk(t, per, b);
    NUsedUpdate(t.rows, b, row);
    forall c | 0 <= c < |t'.rows| ensures FreeOk(t', per, c) && RowOk(t'.rows, per, nnode, c) {
      assert FreeOk(t, per, c) && RowOk(t.rows, per, nnode, c) && FreeApart(t, per, c, b);
    }
    forall c, d | 0 <= c < |t'.rows| && 0 <= d < |t'.rows| ensures FreeApart(t', per, c, d) {
      assert FreeApart(t, per, c, d);
    }
  }

  /** Returning a row to the head of the free list. */
  lemma ReleaseKeeps(t: Table, per: nat, nnode: nat, id: nat)
    requires TableOk(t, per, nnode) && id < |t.rows| && Used(t.rows[id])
    ensures TableOk(Table(t.rows[id := t.rows[id][0 := EMPTY][1 := t.blank]], id, t.rank[id := t.nfree], t.nfree + 1),
      per, nnode)
  {
    assert Unfold(0);
    var row := t.rows[id][0 := EMPTY][1 := t.blank];
    var t' := Table(t.rows[id := row], id, t.rank[id := t.nfree], t.nfree + 1);
    NUsedUpdate(t.rows, id, row);
    forall c | 0 <= c < |t'.rows| ensures FreeOk(t', per, c) && RowOk(t'.rows, per, nnode, c) {
      assert FreeOk(t, per, c) && RowOk(t.rows, per, nnode, c);
    }
    forall c, d | 0 <= c < |t'.rows| && 0 <= d < |t'.rows| ensures FreeApart(t', per, c, d) {
      assert FreeApart(t, per, c, d) && FreeOk(t, per, c) && FreeOk(t, per, d);
    }
  }

  /** Renaming nodes inside a used row. */
  lemma RenameKeeps(t: Table, per: nat, nnode: nat, id: nat, row: seq<int>)
    requires TableOk(t, per, nnode) && id < |t.rows| && Used(t.rows[id])
    requires |row| == per && row[0] != EMPTY && InRange(row, nnode)
    ensures TableOk(t.(rows := t.rows[id := row]), per, nnode)
  {
    assert Unfold(0);
    var t' := t.(rows := t.rows[id := row]);
    NUsedUpdate(t.rows, id, row);
    forall c | 0 <= c < |t'.rows| ensures FreeOk(t', per, c) && RowOk(t'.rows, per, nnode, c) {
      assert FreeOk(t, per, c) && RowOk(t.rows, per, nnode, c);
    }
    forall c, d | 0 <= c < |t'.rows| && 0 <= d < |t'.rows| ensures FreeApart(t', per, c, d) {
      assert FreeApart(t, per, c, d);
    }
  }

  /** Rows [from, max) are free, chained upwards, and everything below is used. */
  ghost predicate Compact(rows: seq<seq<int>>, from: nat)
    requires from <= |rows| && forall c :: 0 <= c < |rows| ==> |rows[c]| >= 2
  {
    && (forall c :: 0 <= c < from ==> Used(rows[c]))
    && (forall c :: from <= c < |rows| ==>
      rows[c][0] == EMPTY && rows[c][1] == if c == |rows| - 1 then EMPTY else c + 1)
  }

  lemma {:induction false} NUsedOfCompact(rows: seq<seq<int>>, from: nat)
    requires from <= |rows| && forall c :: 0 <= c < |rows| ==> |rows[c]| >= 2
    requires forall c :: 0 <= c < |rows| ==> (Used(rows[c]) <==> c < from)
    ensures NUsed(rows) == from
  {
    if rows != [] {
      NUsedOfCompact(rows[..|rows| - 1], if from == |rows| then from - 1 else from);
    }
  }

  ghost function CompactTable(rows: seq<seq<int>>, from: nat): Table
    requires from <= |rows|
  {
    Table(rows, if from == |rows| then EMPTY else from, seq(|rows|, c => |rows| - 1 - c), |rows| - from)
  }

  lemma CompactIsOk(rows: seq<seq<int>>, per: nat, nnode: nat, from: nat)
    requires from <= |rows| && Wide(rows, per) && Compact(rows, from)
    requires forall c :: 0 <= c < from ==> InRange(rows[c], nnode)
    ensures TableOk(CompactTable(rows, from), per, nnode)
  {
    NUsedOfCompact(rows, from);
  }

  ghost predicate IsBlankRow(row: seq<int>, per: nat, next: int) {
    |row| == per >= 2 && row[0] == EMPTY && row[1] == next
  }

  /** A table extended by free rows when it had none left. */
  ghost predicate IsExtended(rows: seq<seq<int>>, rows': seq<seq<int>>, per: nat) {
    && |rows| < |rows'|
    && rows'[..|rows|] == rows
    && (forall c :: |rows| <= c < |rows'| ==> IsBlankRow(rows'[c], per, if c == |rows'| - 1 then EMPTY else c + 1))
  }

  lemma ExtendKeeps(t: Table, per: nat, nnode: nat, rows': seq<seq<int>>)
    requires TableOk(t, per, nnode) && t.blank == EMPTY && |t.rows| >= 1
    requires per >= 2 && IsExtended(t.rows, rows', per)
    ensures t.nfree == 0 && TableOk(CompactTable(rows', |t.rows|), per, nnode)
  {
    assert Unfold(0);
    forall c | 0 <= c < |t.rows| ensures Used(rows'[c]) && InRange(rows'[c], nnode) {
      assert rows'[c] == rows'[..|t.rows|][c];
      assert FreeOk(t, per, c) && RowOk(t.rows, per, nnode, c);
    }
    forall c | 0 <= c < |rows'| ensures |rows'[c]| == per {
      if c < |t.rows| {
        assert rows'[c] == rows'[..|t.rows|][c];
      }
    }
    CompactIsOk(rows', per, nnode, |t.rows|);
  }

  ghost function PairSeq(row: seq<int>, id: int): (s: seq<(int, int)>)
    ensures |s| == |row| && forall i :: 0 <= i < |s| ==> s[i] == (row[i], id)
  {
    seq(|row|, i requires 0 <= i < |row| => (row[i], id))
  }

  /** The pairs (row[i], id). */
  ghost function RowPairs(row: seq<int>, id: int): multiset<(int, int)> {
    multiset(PairSeq(row, id))
  }

  lemma {:induction false} RowPairsCount(row: seq<int>, id: int, n: int, c: int)
    ensures RowPairs(row, id)[(n, c)] == if c == id then multiset(row)[n] else 0
  {
    if row != [] {
      var rest := row[1..];
      RowPairsCount(rest, id, n, c);
      assert row == [row[0]] + rest;
      assert PairSeq(row, id) == [(row[0], id)] + PairSeq(rest, id);
      assert RowPairs(row, id) == multiset{(row[0], id)} + RowPairs(rest, id);
      assert multiset(row) == multiset{row[0]} + multiset(rest);
    }
  }

  lemma RowPairsStep(row: seq<int>, id: int, i: nat)
    requires i < |row|
    ensures RowPairs(row[i..], id) == multiset{(row[i], id)} + RowPairs(row[i + 1..], id)
  {
    assert PairSeq(row[i..], id) == [(row[i], id)] + PairSeq(row[i + 1..], id);
  }

  /** One adjRegister for every node of an item. */
  method RegisterRow(adj: Adj, row: seq<int>, id: int)
    requires adj.Valid() && InRange(row, adj.nnode)
    modifies adj
    ensures adj.Valid() && adj.nnode == old(adj.nnode)
    ensures adj.Pairs == old(adj.Pairs) + RowPairs(row, id)
  {
    for i := 0 to |row|
      invariant adj.Valid() && adj.nnode == old(adj.nnode)
      invariant adj.Pairs + RowPairs(row[i..], id) == old(adj.Pairs) + RowPairs(row, id)
    {
      RowPairsStep(row, id, i);
      var _ := adj.Register(row[i], id);
    }
  }

  /** One adjRemove for every node of an item. */
  method RemoveRow(adj: Adj, row: seq<int>, id: int, ghost rest: multiset<(int, int)>)
    requires adj.Valid() && adj.Pairs == rest + RowPairs(row, id)
    modifies adj
    ensures adj.Valid() && adj.nnode == old(adj.nnode)
    ensures adj.Pairs == rest
  {
    for i := 0 to |row|
      invariant adj.Valid() && adj.nnode == old(adj.nnode)
      invariant adj.Pairs == rest + RowPairs(row[i..], id)
    {
      RowPairsStep(row, id, i);
      assert (row[i], id) in adj.Pairs;
      var _ := adj.Remove(row[i], id);
    }
  }

  lemma InverseAdd(pairs: multiset<(int, int)>, rows: seq<seq<int>>, id: nat, row: seq<int>)
    requires forall c :: 0 <= c < |rows| ==> |rows[c]| >= 2
    requires Inverse(pairs, rows) && id < |rows| && !Used(rows[id]) && |row| >= 2 && Used(row)
    ensures Inverse(pairs + RowPairs(row, id), rows[id := row])
  {
    forall n, c ensures (pairs + RowPairs(row, id))[(n, c)] == Mentions(rows[id := row], n, c) {
      assert pairs[(n, c)] == Mentions(rows, n, c);
      RowPairsCount(row, id, n, c);
    }
  }

  lemma InverseDrop(pairs: multiset<(int, int)>, rows: seq<seq<int>>, id: nat, row: seq<int>)
    requires forall c :: 0 <= c < |rows| ==> |rows[c]| >= 2
    requires Inverse(pairs, rows) && id < |rows| && Used(rows[id]) && |row| >= 2 && !Used(row)
    ensures pairs == pairs - RowPairs(rows[id], id) + RowPairs(rows[id], id)
    ensures Inverse(pairs - RowPairs(rows[id], id), rows[id := row])
  {
    var gone := RowPairs(rows[id], id);
    forall n, c
      ensures gone[(n, c)] <= pairs[(n, c)]
      ensures (pairs - gone)[(n, c)] == Mentions(rows[id := row], n, c)
    {
      assert pairs[(n, c)] == Mentions(rows, n, c);
      RowPairsCount(rows[id], id, n, c);
    }
    forall p: (int, int) ensures gone[p] <= pairs[p] {
      assert p == (p.0, p.1);
    }
  }

  lemma InverseSwap(pairs: multiset<(int, int)>, rows: seq<seq<int>>, id: nat, row: seq<int>)
    requires forall c :: 0 <= c < |rows| ==> |rows[c]| >= 2
    requires Inverse(pairs, rows) && id < |rows| && Used(rows[id]) && |row| >= 2 && Used(row)
    ensures pairs == pairs - RowPairs(rows[id], id) + RowPairs(rows[id], id)
    ensures Inverse(pairs - RowPairs(rows[id], id) + RowPairs(row, id), rows[id := row])
  {
    var blank := row[0 := EMPTY];
    InverseDrop(pairs, rows, id, blank);
    InverseAdd(pairs - RowPairs(rows[id], id), rows[id := blank], id, row);
    assert rows[id := blank][id := row] == rows[id := row];
  }

  lemma RowPairsReplace(row: seq<int>, id: int, i: nat, node: int)
    requires i < |row|
    ensures (row[i], id) in RowPairs(row, id)
    ensures RowPairs(row[i := node], id) + multiset{(row[i], id)} == RowPairs(row, id) + multiset{(node, id)}
  {
    var s := PairSeq(row, id);
    assert s[i] in s;
    assert PairSeq(row[i := node], id) == s[i := (node, id)];
  }

  lemma MultisetShift<T>(rest: multiset<T>, a: multiset<T>, a': multiset<T>, x: T, y: T)
    requires x in a && a' + multiset{x} == a + multiset{y}
    ensures rest + a - multiset{x} + multiset{y} == rest + a'
  {
    forall z: T ensures (rest + a - multiset{x} + multiset{y})[z] == (rest + a')[z] {
      assert (a' + multiset{x})[z] == (a + multiset{y})[z];
    }
  }

  lemma {:induction false} WithoutLastLength(s: seq<int>, x: int)
    requires x in s
    ensures |WithoutLast(s, x)| == |s| - 1
  {
    if s[|s| - 1] != x {
      assert x in s[..|s| - 1];
      WithoutLastLength(s[..|s| - 1], x);
    }
  }

  lemma InverseGrow(pairs: multiset<(int, int)>, rows: seq<seq<int>>, rows': seq<seq<int>>, per: nat)
    requires forall c :: 0 <= c < |rows| ==> |rows[c]| >= 2
    requires forall c :: 0 <= c < |rows'| ==> |rows'[c]| >= 2
    requires IsExtended(rows, rows', per) && Inverse(pairs, rows)
    ensures Inverse(pairs, rows')
  {
    forall n, c ensures pairs[(n, c)] == Mentions(rows', n, c) {
      assert pairs[(n, c)] == Mentions(rows, n, c);
      if 0 <= c < |rows| {
        assert rows'[c] == rows'[..|rows|][c];
      }
    }
  }

  /** A node number replaced everywhere in a row. */
  function Replaced(row: seq<int>, oldNode: int, newNode: int): (r: seq<int>)
    ensures |r| == |row|
    ensures forall i :: 0 <= i < |row| ==> r[i] == if row[i] == oldNode then newNode else row[i]
  {
    seq(|row|, i requires 0 <= i < |row| => if row[i] == oldNode then newNode else row[i])
  }

  /** A used row with one node renamed; free rows are links, not nodes. */
  function Reconnected(row: seq<int>, oldNode: int, newNode: int): seq<int>
    requires |row| >= 2
  {
    if Used(row) then Replaced(row, oldNode, newNode) else row
  }

  /** Row c is as it was or has been reconnected. */
  ghost predicate HalfWay(rows0: seq<seq<int>>, rows: seq<seq<int>>, oldNode: int, newNode: int, c: int) {
    && 0 <= c < |rows0| == |rows| && |rows[c]| == |rows0[c]| >= 2
    && (rows[c] == rows0[c] || rows[c] == Reconnected(rows0[c], oldNode, newNode))
  }

  lemma NoMention(pairs: multiset<(int, int)>, rows: seq<seq<int>>, n: int, c: nat)
    requires forall c :: 0 <= c < |rows| ==> |rows[c]| >= 2
    requires Inverse(pairs, rows) && c < |rows| && Used(rows[c]) && (n, c) !in pairs
    ensures n !in rows[c]
  {
    assert pairs[(n, c)] == Mentions(rows, n, c);
  }

  /** The pairs of one row and the rest of the pairs; kept folded. */
  ghost predicate IsRest(pairs: multiset<(int, int)>, rest: multiset<(int, int)>, row: seq<int>, id: int) {
    forall u :: OpenRest(u) ==> pairs == rest + RowPairs(row, id)
  }

  ghost predicate OpenRest(u: int) {
    true
  }

  /** The first i slots of a row renamed. */
  ghost function Partly(row: seq<int>, i: nat, oldNode: int, newNode: int): (r: seq<int>)
    requires i <= |row|
    ensures |r| == |row|
    ensures forall j :: 0 <= j < |row| ==> r[j] == if j < i && row[j] == oldNode then newNode else row[j]
  {
    Replaced(row[..i], oldNode, newNode) + row[i..]
  }

  lemma PartlyStep(row: seq<int>, i: nat, oldNode: int, newNode: int)
    requires i < |row|
    ensures Partly(row, i, oldNode, newNode)[i] == row[i]
    ensures Partly(row, i + 1, oldNode, newNode) ==
      if row[i] == oldNode then Partly(row, i, oldNode, newNode)[i := newNode] else Partly(row, i, oldNode, newNode)
    ensures oldNode in row[..i + 1] <==> oldNode in row[..i] || row[i] == oldNode
  {
    assert row[..i + 1] == row[..i] + [row[i]];
  }

  lemma HalfWayStep(rows0: seq<seq<int>>, rows: seq<seq<int>>, rows': seq<seq<int>>, oldNode: int, newNode: int,
                    id: nat)
    requires forall c :: 0 <= c < |rows0| ==> HalfWay(rows0, rows, oldNode, newNode, c)
    requires |rows| == |rows0| && id < |rows| && oldNode != newNode && newNode != EMPTY
    requires |rows[id]| >= 2 && Used(rows[id]) && oldNode != EMPTY
    requires rows' == rows[id := Replaced(rows[id], oldNode, newNode)]
    ensures forall c :: 0 <= c < |rows0| ==> HalfWay(rows0, rows', oldNode, newNode, c)
  {
    forall c | 0 <= c < |rows0|
      ensures HalfWay(rows0, rows', oldNode, newNode, c)
    {
      assert HalfWay(rows0, rows, oldNode, newNode, c);
    }
  }

  lemma AllReconnected(pairs: multiset<(int, int)>, rows0: seq<seq<int>>, rows: seq<seq<int>>, oldNode: int,
                       newNode: int)
    requires |rows| == |rows0| && forall c :: 0 <= c < |rows0| ==> HalfWay(rows0, rows, oldNode, newNode, c)
    requires forall c :: 0 <= c < |rows| ==> |rows[c]| >= 2
    requires Inverse(pairs, rows) && forall c :: (oldNode, c) !in pairs
    ensures forall c :: 0 <= c < |rows| ==> |rows0[c]| >= 2 && rows[c] == Reconnected(rows0[c], oldNode, newNode)
  {
    forall c | 0 <= c < |rows| ensures |rows0[c]| >= 2 && rows[c] == Reconnected(rows0[c], oldNode, newNode) {
      assert HalfWay(rows0, rows, oldNode, newNode, c);
      if Used(rows[c]) {
        NoMention(pairs, rows, oldNode, c);
      }
    }
  }

  lemma RenamedOk(t: Table, pairs: multiset<(int, int)>, per: nat, nnode: nat, id: int, oldNode: int, newNode: nat)
    requires TableOk(t, per, nnode) && Inverse(pairs, t.rows) && (oldNode, id) in pairs && newNode < nnode
    ensures 0 <= id < |t.rows| && Used(t.rows[id]) && oldNode in t.rows[id]
    ensures pairs == pairs - RowPairs(t.rows[id], id) + RowPairs(t.rows[id], id)
    ensures var row' := Replaced(t.rows[id], oldNode, newNode);
      TableOk(t.(rows := t.rows[id := row']), per, nnode) &&
      Inverse(pairs - RowPairs(t.rows[id], id) + RowPairs(row', id), t.rows[id := row'])
  {
    assert pairs[(oldNode, id)] == Mentions(t.rows, oldNode, id);
    var row' := Replaced(t.rows[id], oldNode, newNode);
    UsedInRange(t, per, nnode, id);
    RenameKeeps(t, per, nnode, id, row');
    InverseSwap(pairs, t.rows, id, row');
  }

  class Store<P> {
    const per: nat
    const fill: P
    var max: nat
    var count: nat
    var blank: int
    var rows: seq<seq<int>>
    var data: seq<P>
    const adj: Adj
    ghost var rank: seq<int>
    ghost var nfree: nat

    ghost function Value(): Table
      reads this
    {
      Table(rows, blank, rank, nfree)
    }

    ghost predicate Valid()
      reads this, adj
    {
      && adj.Valid()
      && per >= 2
      && |rows| == |data| == max >= 1
      && count + nfree == max
      && TableOk(Value(), per, adj.nnode)
      && Inverse(adj.Pairs, rows)
    }

    constructor (per: nat, fill: P, maxnode: nat, max: int)
      requires per >= 2
      ensures Valid() && fresh(this.adj)
      ensures this.per == per && this.fill == fill && this.max == Max(max, 1) && count == 0
      ensures adj.nnode == Max(maxnode, 1)
      ensures Compact(rows, 0) && blank == 0
    {
      this.per := per;
      this.fill := fill;
      var n := Max(max, 1);
      this.max := n;
      count := 0;
      nfree := n;
      blank := 0;
      var table := Extended([], per, n);
      rows := table;
      data := seq(n, _ => fill);
      adj := new Adj(maxnode, per * n, 5000 * per);
      rank := seq(n, c => n - 1 - c);
      new;
      CompactIsOk(rows, per, adj.nnode, 0);
    }

    /** Free rows up to n are appended, chained upwards, the last one ending the list. */
    static method Extended(rows: seq<seq<int>>, per: nat, n: nat) returns (table: seq<seq<int>>)
      requires per >= 2 && |rows| < n
      ensures |table| == n && IsExtended(rows, table, per)
    {
      table := rows;
      for i := |rows| to n
        invariant |table| == i && table[..|rows|] == rows
        invariant forall c :: |rows| <= c < i ==> IsBlankRow(table[c], per, c + 1)
      {
        table := table + [seq(per, j => if j == 0 then EMPTY else i + 1)];
      }
      table := table[n - 1 := table[n - 1][1 := EMPTY]];
    }

    /** A table without a free row grows: max(5000, max/6) free rows are appended. */
    method Grow()
      requires Valid() && blank == EMPTY
      modifies this
      ensures Valid() && count == old(count)
      ensures max == old(max) + Max(5000, old(max) / 6)
      ensures IsExtended(old(rows), rows, per) && data[..old(max)] == old(data)
      ensures blank == old(max)
    {
      var origSize, newSize := max, max + Max(5000, max / 6);
      var table := Extended(rows, per, newSize);
      ghost var t' := CompactTable(table, max);
      ExtendKeeps(Value(), per, adj.nnode, table);
      InverseGrow(adj.Pairs, rows, table, per);
      max, blank := newSize, origSize;
      rows, data := table, data + seq(newSize - origSize, _ => fill);
      rank, nfree := t'.rank, t'.nfree;
    }

    /** The adjRealloc of gridAddNode: more nodes, the same items. */
    method MoreNodes(nnode: nat)
      requires Valid() && nnode >= adj.nnode
      modifies adj
      ensures Valid() && adj.nnode == nnode
    {
      MoreNodesOk(Value(), per, adj.nnode, nnode);
      adj.Realloc(nnode);
    }

    /** The row the next item goes to. */
    function NextId(): int
      reads this
    {
      if blank == EMPTY then max else blank
    }

    /** gridAddCell, gridAddFaceUV, gridAddEdge. */
    method Add(nodes: seq<int>, p: P) returns (id: nat)
      requires Valid() && |nodes| == per && InRange(nodes, adj.nnode)
      modifies this, adj
      ensures Valid() && adj.nnode == old(adj.nnode)
      ensures id == old(NextId()) < max && count == old(count) + 1
      ensures max == old(max) + if old(blank) == EMPTY then Max(5000, old(max) / 6) else 0
      ensures old(blank) != EMPTY ==>
        !Used(old(rows)[id]) && rows == old(rows)[id := nodes] && data == old(data)[id := p]
      ensures old(blank) != EMPTY ==> blank == old(rows)[id][1]
      ensures old(blank) == EMPTY ==> exists grown :: IsExtended(old(rows), grown, per) && rows == grown[id := nodes]
      ensures old(blank) == EMPTY ==> data[..old(max)] == old(data) && data[id] == p
    {
      if blank == EMPTY {
        Grow();
      }
      ghost var grown := rows;
      id := Enter(nodes, p);
      assert rows == grown[id := nodes];
    }

    /** Filling the head of the free list and registering its nodes one by one. */
    method Enter(nodes: seq<int>, p: P) returns (id: nat)
      requires Valid() && blank != EMPTY && |nodes| == per && InRange(nodes, adj.nnode)
      modifies this, adj
      ensures Valid() && adj.nnode == old(adj.nnode)
      ensures id == old(blank) < max && max == old(max) && count == old(count) + 1
      ensures !Used(old(rows)[id]) && blank == old(rows)[id][1]
      ensures rows == old(rows)[id := nodes] && data == old(data)[id := p]
    {
      TakeKeeps(Value(), per, adj.nnode, nodes);
      InverseAdd(adj.Pairs, rows, blank, nodes);
      id := blank;
      blank := rows[id][1];
      count, nfree := count + 1, nfree - 1;
      rows, data := rows[id := nodes], data[id := p];
      RegisterRow(adj, nodes, id);
    }

    /** gridCellValid, and the guards of the other operations on an item. */
    function IsUsed(id: int): bool
      requires Valid()
      reads this, adj
    {
      0 <= id < max && Used(rows[id])
    }

    /** gridRemoveCell, gridRemoveFace, gridRemoveEdge. */
    method Remove(id: int) returns (ok: bool)
      requires Valid()
      modifies this, adj
      ensures Valid() && adj.nnode == old(adj.nnode) && data == old(data) && max == old(max)
      ensures ok <==> old(IsUsed(id))
      ensures !ok ==> rows == old(rows) && adj.Items == old(adj.Items) && blank == old(blank) && count == old(count)
      ensures ok ==> count == old(count) - 1 && blank == id
      ensures ok ==> rows == old(rows)[id := old(rows)[id][0 := EMPTY][1 := old(blank)]]
    {
      if !IsUsed(id) {
        return false;
      }
      ghost var t, rest := Value(), adj.Pairs - RowPairs(rows[id], id);
      ReleaseKeeps(t, per, adj.nnode, id);
      CountPositive(t, per, adj.nnode, id);
      InverseDrop(adj.Pairs, rows, id, rows[id][0 := EMPTY][1 := blank]);
      count, nfree := count - 1, nfree + 1;
      RemoveRow(adj, rows[id], id, rest);
      rows := rows[id := rows[id][0 := EMPTY][1 := blank]];
      blank := id;
      rank := rank[id := t.nfree];
      ok := true;
    }

    /** One occurrence of an item moves from one node's list to another's. */
    method MoveOne(oldNode: nat, newNode: nat, id: nat)
      requires adj.Valid() && oldNode < adj.nnode && newNode < adj.nnode && oldNode != newNode
      requires (oldNode, id) in adj.Pairs
      modifies adj
      ensures adj.Valid() && adj.nnode == old(adj.nnode)
      ensures adj.Pairs == old(adj.Pairs) - multiset{(oldNode, id)} + multiset{(newNode, id)}
      ensures |adj.Items[oldNode]| == old(|adj.Items[oldNode]|) - 1
    {
      var _ := adj.Remove(oldNode, id);
      WithoutLastLength(old(adj.Items[oldNode]), id);
      var _ := adj.Register(newNode, id);
    }

    /** The inner loop of the reconnects: one item's occurrences of a node, slot by slot. */
    method ReconnectRow(id: nat, oldNode: nat, newNode: nat, ghost rest: multiset<(int, int)>)
      requires id < |rows| && oldNode != newNode && adj.Valid() && oldNode < adj.nnode && newNode < adj.nnode
      requires IsRest(adj.Pairs, rest, rows[id], id)
      modifies this`rows, adj
      ensures adj.Valid() && adj.nnode == old(adj.nnode)
      ensures rows == old(rows)[id := Replaced(old(rows)[id], oldNode, newNode)]
      ensures IsRest(adj.Pairs, rest, rows[id], id)
      ensures |adj.Items[oldNode]| <= old(|adj.Items[oldNode]|) - if oldNode in old(rows)[id] then 1 else 0
    {
      ghost var row, before := rows[id], |adj.Items[oldNode]|;
      assert Partly(row, 0, oldNode, newNode) == row && rows == rows[id := row];
      for i := 0 to |rows[id]|
        invariant adj.Valid() && adj.nnode == old(adj.nnode)
        invariant rows == old(rows)[id := Partly(row, i, oldNode, newNode)]
        invariant IsRest(adj.Pairs, rest, rows[id], id)
        invariant |adj.Items[oldNode]| < before || (|adj.Items[oldNode]| == before && oldNode !in row[..i])
      {
        ReconnectSlot(id, i, oldNode, newNode, rest);
        PartlyStep(row, i, oldNode, newNode);
      }
      assert row[..|row|] == row && Partly(row, |row|, oldNode, newNode) == Replaced(row, oldNode, newNode);
    }

    method ReconnectSlot(id: nat, i: nat, oldNode: nat, newNode: nat, ghost rest: multiset<(int, int)>)
      requires id < |rows| && i < |rows[id]| && oldNode != newNode
      requires adj.Valid() && oldNode < adj.nnode && newNode < adj.nnode
      requires IsRest(adj.Pairs, rest, rows[id], id)
      modifies this`rows, adj
      ensures adj.Valid() && adj.nnode == old(adj.nnode)
      ensures rows == old(rows)[id := if old(rows)[id][i] == oldNode then old(rows)[id][i := newNode]
        else old(rows)[id]]
      ensures IsRest(adj.Pairs, rest, rows[id], id)
      ensures |adj.Items[oldNode]| == old(|adj.Items[oldNode]|) - if old(rows)[id][i] == oldNode then 1 else 0
    {
      if rows[id][i] == oldNode {
        assert OpenRest(0);
        RowPairsReplace(rows[id], id, i, newNode);
        MultisetShift(rest, RowPairs(rows[id], id), RowPairs(rows[id][i := newNode], id), (oldNode, id), (newNode, id));
        rows := rows[id := rows[id][i := newNode]];
        MoveOne(oldNode, newNode, id);
      }
    }

    /** Renaming a node in one item that names it. */
    method ReconnectItem(id: int, oldNode: nat, newNode: nat)
      requires Valid() && oldNode < adj.nnode && newNode < adj.nnode && oldNode != newNode && (oldNode, id) in adj.Pairs
      modifies this`rows, adj
      ensures Valid() && adj.nnode == old(adj.nnode)
      ensures 0 <= id < max && Used(old(rows)[id])
      ensures rows == old(rows)[id := Replaced(old(rows)[id], oldNode, newNode)]
      ensures |adj.Items[oldNode]| < old(|adj.Items[oldNode]|)
    {
      RenamedOk(Value(), adj.Pairs, per, adj.nnode, id, oldNode, newNode);
      ghost var rest, t' := adj.Pairs - RowPairs(rows[id], id),
        Value().(rows := rows[id := Replaced(rows[id], oldNode, newNode)]);
      ReconnectRow(id, oldNode, newNode, rest);
      assert OpenRest(0);
      assert Value() == t';
    }

    /** The loop of gridReconnectAllCell, gridReconnectAllFace and gridReconnectAllEdge. */
    method ReconnectEach(oldNode: nat, newNode: nat)
      requires Valid() && oldNode < adj.nnode && newNode < adj.nnode && oldNode != newNode
      modifies this`rows, adj
      ensures Valid() && adj.nnode == old(adj.nnode)
      ensures |rows| == |old(rows)|
      ensures forall c :: 0 <= c < |rows| ==>
        |old(rows)[c]| >= 2 && rows[c] == Reconnected(old(rows)[c], oldNode, newNode)
      ensures adj.Items[oldNode] == []
    {
      adj.FirstAt(oldNode);
      var it := adj.First(oldNode);
      while it != EMPTY
        invariant Valid() && adj.nnode == old(adj.nnode)
        invariant forall c :: 0 <= c < |old(rows)| ==> HalfWay(old(rows), rows, oldNode, newNode, c)
        invariant adj.At(oldNode, it, |adj.Items[oldNode]|)
        decreases |adj.Items[oldNode]|
      {
        var item := adj.Item(oldNode, it, |adj.Items[oldNode]|);
        adj.PairsInRange(oldNode, item);
        ghost var rows1 := rows;
        ReconnectItem(item, oldNode, newNode);
        HalfWayStep(old(rows), rows1, rows, oldNode, newNode, item);
        adj.FirstAt(oldNode);
        it := adj.First(oldNode);
      }
      forall c ensures (oldNode, c) !in adj.Pairs {
        adj.PairsInRange(oldNode, c);
      }
      AllReconnected(adj.Pairs, old(rows), rows, oldNode, newNode);
    }

    /** gridReconnectAllCell and gridReconnectAllFace; gridReconnectAllEdge for two different nodes. */
    method ReconnectAll(oldNode: int, newNode: int) returns (ok: bool)
      requires Valid()
      modifies this`rows, adj
      ensures Valid() && adj.nnode == old(adj.nnode) && |rows| == |old(rows)|
      ensures ok <==> 0 <= oldNode < adj.nnode && 0 <= newNode < adj.nnode
      ensures !ok || oldNode == newNode ==> rows == old(rows) && adj.Items == old(adj.Items)
      ensures ok && oldNode != newNode ==> adj.Items[oldNode] == []
      ensures ok && oldNode != newNode ==> forall c :: 0 <= c < |rows| ==>
        |old(rows)[c]| >= 2 && rows[c] == Reconnected(old(rows)[c], oldNode, newNode)
    {
      ok := 0 <= oldNode < adj.nnode && 0 <= newNode < adj.nnode;
      if ok && oldNode != newNode {
        ReconnectEach(oldNode, newNode);
      }
    }
  }

  lemma MoreNodesOk(t: Table, per: nat, nnode: nat, nnode': nat)
    requires TableOk(t, per, nnode) && nnode <= nnode'
    ensures TableOk(t, per, nnode')
  {
    assert Unfold(0);
    forall c | 0 <= c < |t.rows| ensures RowOk(t.rows, per, nnode', c) {
      assert RowOk(t.rows, per, nnode, c);
    }
  }

  lemma CountPositive(t: Table, per: nat, nnode: nat, c: nat)
    requires TableOk(t, per, nnode) && c < |t.rows| && Used(t.rows[c])
    ensures t.nfree < |t.rows|
  {
    assert Unfold(0);
    UsedPositive(t.rows, c);
  }

  lemma UsedInRange(t: Table, per: nat, nnode: nat, c: nat)
    requires TableOk(t, per, nnode) && c < |t.rows| && Used(t.rows[c])
    ensures InRange(t.rows[c], nnode)
  {
    assert Unfold(0) && RowOk(t.rows, per, nnode, c);
  }

  lemma {:induction false} UsedPositive(rows: seq<seq<int>>, c: nat)
    requires forall c :: 0 <= c < |rows| ==> |rows[c]| >= 2
    requires c < |rows| && Used(rows[c])
    ensures NUsed(rows) >= 1
  {
    if c < |rows| - 1 {
      UsedPositive(rows[..|rows| - 1], c);
    }
  }

  /** The free rows in the order in which they will be given out. */
  ghost predicate IsFreeWalk(t: Table, walk: seq<int>)
    requires forall c :: 0 <= c < |t.rows| ==> |t.rows[c]| >= 2
  {
    && t.blank == (if walk == [] then EMPTY else walk[0])
    && (forall i :: 0 <= i < |walk| ==> 0 <= walk[i] < |t.rows| && !Used(t.rows[walk[i]]))
    && (forall i :: 0 <= i < |walk| ==> t.rows[walk[i]][1] == NextOf(walk, i))
    && (forall i, j :: 0 <= i < j < |walk| ==> walk[i] != walk[j])
    && (forall c :: 0 <= c < |t.rows| && !Used(t.rows[c]) ==> c in walk)
  }

  function NextOf(walk: seq<int>, i: nat): int
    requires i < |walk|
  {
    if i == |walk| - 1 then EMPTY else walk[i + 1]
  }

  /** Following the free list from a free row goes down through all lower ranks. */
  lemma {:induction false} WalkDown(t: Table, per: nat, c: nat) returns (walk: seq<int>)
    requires Wide(t.rows, per) && |t.rank| == |t.rows| && FreeListOk(t, per) && c < |t.rows| && !Used(t.rows[c])
    ensures t.rank[c] >= 0 && |walk| == t.rank[c] + 1 && walk[0] == c
    ensures forall i :: 0 <= i < |walk| ==> 0 <= walk[i] < |t.rows| && !Used(t.rows[walk[i]])
    ensures forall i :: 0 <= i < |walk| ==> 0 <= walk[i] < |t.rank| && t.rank[walk[i]] == t.rank[c] - i
    ensures forall i :: 0 <= i < |walk| ==> t.rows[walk[i]][1] == NextOf(walk, i)
    decreases t.rank[c]
  {
    assert FreeOk(t, per, c);
    if t.rank[c] == 0 {
      walk := [c];
    } else {
      var next := t.rows[c][1];
      assert FreeOk(t, per, next);
      var rest := WalkDown(t, per, next);
      walk := [c] + rest;
      forall i | 0 <= i < |walk| ensures t.rows[walk[i]][1] == NextOf(walk, i) {
        if i > 0 {
          assert walk[i] == rest[i - 1];
        }
      }
    }
  }

  /** The free list ends, visits no row twice and visits every unused row. */
  lemma FreeListIsAcyclic(t: Table, per: nat, nnode: nat) returns (walk: seq<int>)
    requires TableOk(t, per, nnode)
    ensures IsFreeWalk(t, walk) && |walk| + NUsed(t.rows) == |t.rows|
  {
    assert Unfold(0);
    if t.nfree == 0 {
      walk := [];
      forall c | 0 <= c < |t.rows| ensures Used(t.rows[c]) {
        assert FreeOk(t, per, c);
      }
    } else {
      walk := WalkDown(t, per, t.blank);
      forall c | 0 <= c < |t.rows| && !Used(t.rows[c]) ensures c in walk {
        assert FreeOk(t, per, c);
        var i := t.nfree - 1 - t.rank[c];
        assert FreeApart(t, per, c, walk[i]);
      }
    }
  }

  datatype ItemOp<P> = AddItem(nodes: seq<int>, p: P) | RemoveItem(id: int) | ReconnectItems(oldNode: int, newNode: int)

  /** Additions are for nodes in range. */
  predicate Allowed<P>(op: ItemOp<P>, per: nat, nnode: nat) {
    match op
    case AddItem(nodes, _) => |nodes| == per && InRange(nodes, nnode)
    case RemoveItem(_) => true
    case ReconnectItems(_, _) => true
  }

  /** Rows and data of a table. */
  datatype Contents<P> = Contents(rows: seq<seq<int>>, data: seq<P>)

  ghost predicate IsHeld<P>(a: Contents<P>, c: int) {
    0 <= c < |a.rows| == |a.data| && |a.rows[c]| >= 2 && Used(a.rows[c])
  }

  /** All items but c are there, and as they were. */
  ghost predicate OthersKept<P>(a: Contents<P>, b: Contents<P>, c: int) {
    forall d :: d != c ==>
      (IsHeld(b, d) <==> IsHeld(a, d)) && (IsHeld(a, d) ==> b.rows[d] == a.rows[d] && b.data[d] == a.data[d])
  }

  ghost predicate Enters<P>(a: Contents<P>, b: Contents<P>, c: int, nodes: seq<int>, p: P) {
    !IsHeld(a, c) && IsHeld(b, c) && b.rows[c] == nodes && b.data[c] == p && OthersKept(a, b, c)
  }

  ghost predicate IsRenamed<P>(a: Contents<P>, b: Contents<P>, oldNode: int, newNode: int, nnode: nat, c: int) {
    && (IsHeld(b, c) <==> IsHeld(a, c))
    && (IsHeld(a, c) ==>
          && b.data[c] == a.data[c]
          && b.rows[c] == if 0 <= oldNode < nnode && 0 <= newNode < nnode then Replaced(a.rows[c], oldNode, newNode)
                          else a.rows[c])
  }

  /** What an operation does to the items of a table, for nodes below nnode. */
  ghost predicate Does<P>(op: ItemOp<P>, nnode: nat, a: Contents<P>, b: Contents<P>) {
    match op
    case AddItem(nodes, p) => exists c :: Enters(a, b, c, nodes, p)
    case RemoveItem(id) => !IsHeld(b, id) && OthersKept(a, b, id)
    case ReconnectItems(oldNode, newNode) => forall c :: IsRenamed(a, b, oldNode, newNode, nnode, c)
  }

  /** The states of a table along a run, each made from the one before by its operation. */
  ghost predicate IsTrace<P>(ops: seq<ItemOp<P>>, nnode: nat, trace: seq<Contents<P>>, n: nat) {
    n <= |ops| && |trace| == n + 1 && forall i :: 0 <= i < n ==> Does(ops[i], nnode, trace[i], trace[i + 1])
  }

  lemma TraceGrows<P>(ops: seq<ItemOp<P>>, nnode: nat, trace: seq<Contents<P>>, n: nat, next: Contents<P>)
    requires IsTrace(ops, nnode, trace, n) && n < |ops| && Does(ops[n], nnode, trace[n], next)
    ensures IsTrace(ops, nnode, trace + [next], n + 1)
  {
  }

  method AddOne<P>(s: Store<P>, nodes: seq<int>, p: P)
    requires s.Valid() && |nodes| == s.per && InRange(nodes, s.adj.nnode)
    modifies s, s.adj
    ensures s.Valid() && s.adj.nnode == old(s.adj.nnode)
    ensures exists c :: Enters(old(Contents(s.rows, s.data)), Contents(s.rows, s.data), c, nodes, p)
  {
    ghost var a, blank := Contents(s.rows, s.data), s.blank;
    FreeHeadIsFree(s.Value(), s.per, s.adj.nnode);
    var id := s.Add(nodes, p);
    if blank == EMPTY {
      ghost var grown :| IsExtended(a.rows, grown, s.per) && s.rows == grown[id := nodes];
      forall c | 0 <= c < |a.rows| ensures s.rows[c] == a.rows[c] && s.data[c] == a.data[c] {
        assert grown[..|a.rows|][c] == a.rows[c] && s.data[..|a.rows|][c] == a.data[c];
      }
    }
    assert Enters(a, Contents(s.rows, s.data), id, nodes, p);
  }

  lemma FreeHeadIsFree(t: Table, per: nat, nnode: nat)
    requires TableOk(t, per, nnode)
    ensures t.blank != EMPTY ==> 0 <= t.blank < |t.rows| && !Used(t.rows[t.blank])
  {
    assert Unfold(0);
  }

  method Step<P>(s: Store<P>, op: ItemOp<P>)
    requires s.Valid() && Allowed(op, s.per, s.adj.nnode)
    modifies s, s.adj
    ensures s.Valid() && s.adj.nnode == old(s.adj.nnode)
    ensures Does(op, s.adj.nnode, old(Contents(s.rows, s.data)), Contents(s.rows, s.data))
  {
    ghost var a := Contents(s.rows, s.data);
    match op
    case AddItem(nodes, p) =>
      AddOne(s, nodes, p);
    case RemoveItem(id) =>
      var _ := s.Remove(id);
    case ReconnectItems(oldNode, newNode) =>
      SameNodeRows(a, oldNode);
      var _ := s.ReconnectAll(oldNode, newNode);
  }

  lemma SameNodeRows<P>(a: Contents<P>, node: int)
    ensures forall c :: IsHeld(a, c) ==> Replaced(a.rows[c], node, node) == a.rows[c]
  {
  }

  /**
   Over any run of additions, removals and reconnects the adjacency counts the slots of each used
   row, the counter counts the used rows, and the free list is as FreeListIsAcyclic says.
   */
  method Run<P>(s: Store<P>, ops: seq<ItemOp<P>>) returns (ghost walk: seq<int>, ghost trace: seq<Contents<P>>)
    requires s.Valid() && forall i :: 0 <= i < |ops| ==> Allowed(ops[i], s.per, s.adj.nnode)
    modifies s, s.adj
    ensures s.Valid() && s.adj.nnode == old(s.adj.nnode)
    ensures forall c :: 0 <= c < |s.rows| ==> |s.rows[c]| >= 2
    ensures forall n, c :: s.adj.Pairs[(n, c)] == Mentions(s.rows, n, c)
    ensures s.count == NUsed(s.rows) && IsFreeWalk(s.Value(), walk)
    ensures IsTrace(ops, s.adj.nnode, trace, |ops|) && trace[0] == old(Contents(s.rows, s.data))
    ensures trace[|ops|] == Contents(s.rows, s.data)
  {
    trace := [Contents(s.rows, s.data)];
    for i := 0 to |ops|
      invariant s.Valid() && s.adj.nnode == old(s.adj.nnode)
      invariant IsTrace(ops, s.adj.nnode, trace, i) && trace[0] == old(Contents(s.rows, s.data))
      invariant trace[i] == Contents(s.rows, s.data)
    {
      assert Allowed(ops[i], s.per, s.adj.nnode);
      Step(s, ops[i]);
      TraceGrows(ops, s.adj.nnode, trace, i, Contents(s.rows, s.data));
      trace := trace + [Contents(s.rows, s.data)];
    }
    walk := FreeListIsAcyclic(s.Value(), s.per, s.adj.nnode);
    UsedAndFree(s.Value(), s.per, s.adj.nnode);
  }

  lemma UsedAndFree(t: Table, per: nat, nnode: nat)
    requires TableOk(t, per, nnode)
    ensures NUsed(t.rows) + t.nfree == |t.rows|
  {
    assert Unfold(0);
  }
}
