/**
 Ids and parameters of a node in one/grid.c: the surfaces or curves a node is on, and its uv or t
 parameters there. Faces and edges are handled by the same code.
 */
module NodeParameters {
  import opened Common
  import opened ItemStore
  import opened Geometry
  import opened NodeStore

  /** Some used row names the node and has the id. */
  ghost predicate IsOn<V>(rows: seq<seq<int>>, data: seq<Tag<V>>, node: int, id: int) {
    exists f :: 0 <= f < |rows| && f < |data| && IsItemOn(rows, data, f, node, id)
  }

  ghost predicate IsItemOn<V>(rows: seq<seq<int>>, data: seq<Tag<V>>, f: int, node: int, id: int) {
    0 <= f < |rows| && f < |data| && |rows[f]| >= 2 && Used(rows[f]) && node in rows[f] && data[f].id == id
  }

  ghost predicate TagsOk<V>(rows: seq<seq<int>>, data: seq<Tag<V>>) {
    |rows| == |data| && forall f :: 0 <= f < |rows| && |rows[f]| >= 2 && Used(rows[f]) ==> |data[f].par| == |rows[f]|
  }

  /** The ids of the items around a node. */
  ghost function IdSet<V>(rows: seq<seq<int>>, data: seq<Tag<V>>, node: int): (ids: set<int>)
    ensures forall id :: id in ids <==> IsOn(rows, data, node, id)
  {
    var ids := set f | 0 <= f < |rows| && f < |data| && IsItemOn(rows, data, f, node, data[f].id) :: data[f].id;
    assert forall id :: IsOn(rows, data, node, id) ==> id in ids;
    ids
  }

  /** The ids of a list of items, each once. */
  ghost predicate AreIdsOf<V>(data: seq<Tag<V>>, items: seq<int>, ids: seq<int>) {
    && (forall j :: 0 <= j < |items| ==> 0 <= items[j] < |data|)
    && (forall i, j :: 0 <= i < j < |ids| ==> ids[i] != ids[j])
    && (forall j :: 0 <= j < |items| ==> data[items[j]].id in ids)
    && (forall i :: 0 <= i < |ids| ==> exists j :: 0 <= j < |items| && data[items[j]].id == ids[i])
  }

  /** The ids of the items from place k of a list. */
  ghost predicate AreIdsFrom<V>(data: seq<Tag<V>>, items: seq<int>, k: nat, ids: seq<int>) {
    k <= |items| && forall u :: Unfold(u) ==> AreIdsOf(data, items[k..], ids)
  }

  lemma IdsStep<V>(data: seq<Tag<V>>, items: seq<int>, k: nat, ids: seq<int>, ids': seq<int>)
    requires AreIdsFrom(data, items, k, ids) && 0 < k && 0 <= items[k - 1] < |data|
    requires var id := data[items[k - 1]].id; (ids' == ids && id in ids) || IdJoins(ids, ids', id)
    ensures AreIdsFrom(data, items, k - 1, ids')
  {
    assert Unfold(0);
    var item, items' := items[k - 1], items[k - 1..];
    assert items' == [item] + items[k..];
    forall i | 0 <= i < |ids'| ensures exists j :: 0 <= j < |items'| && data[items'[j]].id == ids'[i] {
      assert ids'[i] in ids';
      if ids'[i] == data[item].id {
        assert data[items'[0]].id == ids'[i];
      } else {
        var q :| 0 <= q < |ids| && ids[q] == ids'[i];
        var j :| 0 <= j < |items[k..]| && data[items[k..][j]].id == ids[q];
        assert items'[j + 1] == items[k..][j];
      }
    }
    forall j | 0 <= j < |items'| ensures 0 <= items'[j] < |data| && data[items'[j]].id in ids' {
      assert j > 0 ==> items'[j] == items[k..][j - 1];
    }
  }

  ghost predicate IdJoins(ids: seq<int>, ids': seq<int>, id: int) {
    (forall i, j :: 0 <= i < j < |ids'| ==> ids'[i] != ids'[j]) && forall x :: x in ids' <==> x in ids || x == id
  }

  lemma AppendJoins<V>(data: seq<Tag<V>>, items: seq<int>, k: nat, ids: seq<int>, id: int)
    requires AreIdsFrom(data, items, k, ids) && id !in ids
    ensures IdJoins(ids, ids + [id], id)
  {
    assert Unfold(0);
    forall i, j | 0 <= i < j < |ids + [id]| ensures (ids + [id])[i] != (ids + [id])[j] {
      assert ids[i] in ids;
    }
  }

  method Contains(ids: seq<int>, id: int) returns (found: bool)
    ensures found <==> id in ids
  {
    found := false;
    var search := 0;
    while !found && search < |ids|
      invariant search <= |ids| && (found <==> id in ids[..search])
    {
      found := ids[search] == id;
      assert ids[..search + 1] == ids[..search] + [ids[search]];
      search := search + 1;
    }
    assert ids[..|ids|] == ids;
  }

  /** The search and the insertion of gridNodeFaceId for one item. */
  method AddId(ids: seq<int>, id: int, maxId: nat) returns (ok: bool, r: seq<int>)
    requires Increasing(ids) && |ids| <= maxId
    ensures ok <==> id in ids || |ids| < maxId
    ensures ok ==> Increasing(r) && |r| <= maxId && forall x :: x in r <==> x in ids || x == id
    ensures !ok ==> r == []
  {
    var found := Contains(ids, id);
    ok, r := true, ids;
    if !found {
      if |ids| >= maxId {
        return false, [];
      }
      var insertpoint := InsertPoint(ids, id);
      r := Insert(ids, insertpoint, id);
      InsertedIncreasing(ids, insertpoint, id);
    }
  }

  lemma InsertedIncreasing(s: seq<int>, p: nat, x: int)
    requires Increasing(s) && IsInsertPoint(s, x, p) && x !in s
    ensures Increasing(Inserted(s, p, x)) && forall y :: y in Inserted(s, p, x) <==> y in s || y == x
  {
    assert p < |s| ==> s[p] in s;
    assert Inserted(s, p, x) == s[..p] + [x] + s[p..] && s == s[..p] + s[p..];
  }

  /** gridNodeFaceId and gridNodeEdgeId: the ids around a node in ascending order, if there are at most maxId. */
  method NodeIds<V>(s: Store<Tag<V>>, node: int, maxId: nat) returns (ok: bool, ids: seq<int>)
    requires s.Valid()
    ensures ok <==> |IdSet(s.rows, s.data, node)| <= maxId
    ensures ok ==> IsIdList(ids, IdSet(s.rows, s.data, node))
    ensures !ok ==> ids == []
  {
    ids, ok := [], true;
    var it := s.adj.First(node);
    s.adj.FirstAt(node);
    ghost var k: nat := s.adj.Todo(node);
    ghost var items := if 0 <= node < s.adj.nnode then s.adj.Items[node] else [];
    while it != EMPTY
      invariant s.adj.At(node, it, k) && k <= |items| && |ids| <= maxId && Increasing(ids)
      invariant AreIdsFrom(s.data, items, k, ids)
      decreases k
    {
      var item := s.adj.Item(node, it, k);
      AdjacentIsOn(s, node, item);
      ghost var before := ids;
      ok, ids := AddId(ids, s.data[item].id, maxId);
      if !ok {
        TooMany(s, node, items, k, before, item);
        return;
      }
      IdsStep(s.data, items, k, before, ids);
      it := s.adj.Next(node, it, k);
      k := k - 1;
    }
    IdsAreOn(s, node, items, ids);
  }

  /** An ascending list of a set of ids. */
  ghost predicate IsIdList(ids: seq<int>, all: set<int>) {
    Increasing(ids) && |ids| == |all| && forall id :: id in ids <==> id in all
  }

  /** gridNodeFaceIdDegree and gridNodeEdgeIdDegree for a valid node. */
  method NodeIdDegree<V>(s: Store<Tag<V>>, node: int, maxId: nat) returns (degree: int)
    requires s.Valid()
    ensures var n := |IdSet(s.rows, s.data, node)|; degree == if n <= maxId then n else EMPTY
  {
    var ids := [];
    var it := s.adj.First(node);
    s.adj.FirstAt(node);
    ghost var k: nat := s.adj.Todo(node);
    ghost var items := if 0 <= node < s.adj.nnode then s.adj.Items[node] else [];
    while it != EMPTY
      invariant s.adj.At(node, it, k) && k <= |items| && |ids| <= maxId
      invariant AreIdsFrom(s.data, items, k, ids)
      decreases k
    {
      var item := s.adj.Item(node, it, k);
      AdjacentIsOn(s, node, item);
      ghost var before := ids;
      var found := Contains(ids, s.data[item].id);
      if !found {
        if |ids| >= maxId {
          TooMany(s, node, items, k, ids, item);
          return EMPTY;
        }
        AppendJoins(s.data, items, k, ids, s.data[item].id);
        ids := ids + [s.data[item].id];
      }
      IdsStep(s.data, items, k, before, ids);
      it := s.adj.Next(node, it, k);
      k := k - 1;
    }
    IdsAreOn(s, node, items, ids);
    degree := |ids|;
  }

  lemma AdjacentIsOn<V>(s: Store<Tag<V>>, node: int, item: int)
    requires s.Valid()
    ensures 0 <= node < s.adj.nnode && item in s.adj.Items[node] <==>
      0 <= item < |s.rows| && Used(s.rows[item]) && node in s.rows[item]
  {
    s.adj.PairsInRange(node, item);
    assert s.adj.Pairs[(node, item)] == Mentions(s.rows, node, item);
  }

  lemma TooMany<V>(s: Store<Tag<V>>, node: int, items: seq<int>, k: nat, ids: seq<int>, item: int)
    requires s.Valid() && 0 <= node < s.adj.nnode && items == s.adj.Items[node] && 1 <= k <= |items|
    requires item == items[k - 1]
    requires AreIdsFrom(s.data, items, k, ids) && 0 <= item < |s.data| && s.data[item].id !in ids
    ensures |IdSet(s.rows, s.data, node)| > |ids|
  {
    assert Unfold(0);
    var from := items[k..];
    assert AreIdsOf(s.data, from, ids);
    var more := ids + [s.data[item].id];
    var all := IdSet(s.rows, s.data, node);
    forall i | 0 <= i < |more| ensures more[i] in all {
      var f := item;
      if i < |ids| {
        var j :| 0 <= j < |from| && s.data[from[j]].id == ids[i];
        f := from[j];
        assert f == items[k + j];
      }
      AdjacentIsOn(s, node, f);
      assert IsItemOn(s.rows, s.data, f, node, more[i]);
    }
    forall i, j | 0 <= i < j < |more| ensures more[i] != more[j] {
      assert i < |ids| ==> more[i] in ids;
    }
    Pigeonhole(more, all);
  }

  lemma {:induction false} SizeOfIds(ids: seq<int>, all: set<int>)
    requires (forall i, j :: 0 <= i < j < |ids| ==> ids[i] != ids[j]) && forall id :: id in ids <==> id in all
    ensures |ids| == |all|
  {
    if ids == [] {
      forall id: int ensures id !in all {
        assert id in ids <==> id in all;
      }
      assert all == {};
    } else {
      var m := |ids| - 1;
      assert ids == ids[..m] + [ids[m]];
      SizeOfIds(ids[..m], all - {ids[m]});
    }
  }

  lemma IdsAreOn<V>(s: Store<Tag<V>>, node: int, items: seq<int>, ids: seq<int>)
    requires s.Valid() && items == (if 0 <= node < s.adj.nnode then s.adj.Items[node] else [])
    requires AreIdsFrom(s.data, items, 0, ids)
    ensures var all := IdSet(s.rows, s.data, node); |ids| == |all| && forall id :: id in ids <==> id in all
  {
    assert Unfold(0);
    assert items[0..] == items;
    var all := IdSet(s.rows, s.data, node);
    forall id ensures id in ids <==> id in all {
      if id in ids {
        var i :| 0 <= i < |ids| && ids[i] == id;
        var j :| 0 <= j < |items| && s.data[items[j]].id == ids[i];
        AdjacentIsOn(s, node, items[j]);
        assert IsItemOn(s.rows, s.data, items[j], node, id);
      }
      if id in all {
        var f :| 0 <= f < |s.rows| && IsItemOn(s.rows, s.data, f, node, id);
        AdjacentIsOn(s, node, f);
        var j :| 0 <= j < |items| && items[j] == f;
      }
    }
    SizeOfIds(ids, all);
  }

  /** The first position of a node in a row. */
  ghost function FirstAt(row: seq<int>, node: int): (i: nat)
    requires node in row
    ensures i < |row| && row[i] == node && forall j :: 0 <= j < i ==> row[j] != node
  {
    if row[0] == node then 0 else
      assert row == [row[0]] + row[1..];
      1 + FirstAt(row[1..], node)
  }

  datatype Found<V> = NotFound | Here(value: V)

  /**
   The parameter of a node for an id: that of the first item with the id in the node's list, the list's end
   coming first.
   */
  ghost function ParameterIn<V>(rows: seq<seq<int>>, data: seq<Tag<V>>, items: seq<int>, node: int, id: int): Found<V>
  {
    if items == [] then NotFound
    else
      var f := items[|items| - 1];
      if 0 <= f < |rows| && f < |data| && node in rows[f] && data[f].id == id && FirstAt(rows[f], node) < |data[f].par|
      then Here(data[f].par[FirstAt(rows[f], node)])
      else ParameterIn(rows, data, items[..|items| - 1], node, id)
  }

  /** A table of items as the lookups see it: its rows, its tags, and the list of items around each node. */
  datatype Lookups<V> = Lookups(rows: seq<seq<int>>, data: seq<Tag<V>>, items: seq<seq<int>>)

  ghost function LookupsOf<V>(s: Store<Tag<V>>): Lookups<V>
    reads s, s.adj
  {
    Lookups(s.rows, s.data, s.adj.Items)
  }

  ghost function Lookup<V>(t: Lookups<V>, node: int, id: int): Found<V> {
    if 0 <= node < |t.items| then ParameterIn(t.rows, t.data, t.items[node], node, id) else NotFound
  }

  ghost function Parameter<V>(s: Store<Tag<V>>, node: int, id: int): Found<V>
    reads s, s.adj
  {
    Lookup(LookupsOf(s), node, id)
  }

  /** The inner loop of gridNodeUV. */
  method PositionOf(row: seq<int>, node: int) returns (i: nat)
    requires node in row
    ensures i == FirstAt(row, node)
  {
    i := 0;
    while row[i] != node
      invariant i < |row| && forall j :: 0 <= j < i ==> row[j] != node
      decreases |row| - i
    {
      assert exists j :: i < j < |row| && row[j] == node;
      i := i + 1;
    }
  }

  /** Item f has the id, and the value at the first column that names the node. */
  ghost predicate IsParameterOf<V>(rows: seq<seq<int>>, data: seq<Tag<V>>, f: nat, i: nat, node: int, id: int, v: V)
    requires f < |rows| && f < |data|
  {
    && |rows[f]| >= 2 && Used(rows[f]) && data[f].id == id && i < |rows[f]| == |data[f].par|
    && rows[f][i] == node && node !in rows[f][..i] && v == data[f].par[i]
  }

  /** gridNodeUV and gridNodeT. */
  method NodeParameter<V>(s: Store<Tag<V>>, node: int, id: int, none: V) returns (found: bool, v: V)
    requires s.Valid() && TagsOk(s.rows, s.data)
    ensures found <==> Parameter(s, node, id) != NotFound
    ensures found ==> Parameter(s, node, id) == Here(v)
    ensures found <==> IsOn(s.rows, s.data, node, id)
    ensures found ==>
      exists f, i :: 0 <= f < |s.rows| && f < |s.data| && IsParameterOf(s.rows, s.data, f, i, node, id, v)
    ensures !found ==> v == none
  {
    ParameterIffOn(s, node, id);
    var it := s.adj.First(node);
    s.adj.FirstAt(node);
    ghost var k: nat := s.adj.Todo(node);
    ghost var items := if 0 <= node < s.adj.nnode then s.adj.Items[node] else [];
    assert items[..|items|] == items;
    while it != EMPTY
      invariant s.adj.At(node, it, k) && k <= |items|
      invariant Parameter(s, node, id) == ParameterIn(s.rows, s.data, items[..k], node, id)
      decreases k
    {
      var item := s.adj.Item(node, it, k);
      AdjacentIsOn(s, node, item);
      assert items[..k][..k - 1] == items[..k - 1];
      if s.data[item].id == id {
        var i := PositionOf(s.rows[item], node);
        assert IsParameterOf(s.rows, s.data, item, i, node, id, s.data[item].par[i]);
        return true, s.data[item].par[i];
      }
      it := s.adj.Next(node, it, k);
      k := k - 1;
    }
    found, v := false, none;
  }

  /** A tag with the parameter at every occurrence of a node replaced. */
  function Reparametrised<V>(row: seq<int>, tag: Tag<V>, node: int, v: V): (r: Tag<V>)
    requires |row| == |tag.par|
    ensures r.id == tag.id && |r.par| == |tag.par|
    ensures forall i :: 0 <= i < |row| ==> r.par[i] == if row[i] == node then v else tag.par[i]
  {
    Tag(tag.id, seq(|row|, i requires 0 <= i < |row| => if row[i] == node then v else tag.par[i]))
  }

  /** The data after gridSetNodeUV: every used item with the id has the value at the node. */
  ghost predicate IsSet<V>(rows: seq<seq<int>>, data: seq<Tag<V>>, data': seq<Tag<V>>, node: int, id: int, v: V) {
    && TagsOk(rows, data) && |data'| == |data|
    && forall f :: 0 <= f < |rows| ==>
         data'[f] == if |rows[f]| >= 2 && Used(rows[f]) &&
           data[f].id == id then Reparametrised(rows[f], data[f], node, v) else data[f]
  }

  ghost predicate SetOrNot<V>(rows: seq<seq<int>>, data: seq<Tag<V>>, data': seq<Tag<V>>, node: int, id: int, v: V,
                              f: int) {
    0 <= f < |rows| && f < |data| && f < |data'| &&
    (data'[f] == data[f] ||
      (|rows[f]| >= 2 && Used(rows[f]) && |data[f].par| == |rows[f]| && data[f].id == id &&
        data'[f] == Reparametrised(rows[f], data[f], node, v)))
  }

  /** gridSetNodeUV and gridSetNodeT. */
  method SetNodeParameter<V>(s: Store<Tag<V>>, node: int, id: int, v: V) returns (found: bool)
    requires s.Valid() && TagsOk(s.rows, s.data)
    modifies s`data
    ensures s.Valid() && TagsOk(s.rows, s.data) && IsSet(s.rows, old(s.data), s.data, node, id, v)
    ensures found <==> IsOn(s.rows, s.data, node, id)
  {
    found := false;
    ghost var data := s.data;
    var it := s.adj.First(node);
    s.adj.FirstAt(node);
    ghost var k: nat := s.adj.Todo(node);
    ghost var items := if 0 <= node < s.adj.nnode then s.adj.Items[node] else [];
    while it != EMPTY
      invariant s.Valid() && s.adj.At(node, it, k) && k <= |items| && |s.data| == |data|
      invariant forall f :: 0 <= f < |s.rows| ==> SetOrNot(s.rows, data, s.data, node, id, v, f)
      invariant forall j :: k <= j < |items| ==> IsSetAt(s.rows, data, s.data, node, id, v, items[j])
      invariant found <==> exists j :: k <= j < |items| && 0 <= items[j] < |data| && data[items[j]].id == id
      decreases k
    {
      var item := s.adj.Item(node, it, k);
      AdjacentIsOn(s, node, item);
      assert SetOrNot(s.rows, data, s.data, node, id, v, item);
      ghost var before := s.data;
      if s.data[item].id == id {
        s.data := s.data[item := Reparametrised(s.rows[item], s.data[item], node, v)];
        found := true;
      }
      SetStep(s.rows, data, before, s.data, node, id, v, items, k, item);
      it := s.adj.Next(node, it, k);
      k := k - 1;
    }
    SetAtEnd(s, data, node, id, v, items);
    FoundIsOn(s, data, node, id, items);
  }

  ghost predicate IsSetAt<V>(rows: seq<seq<int>>, data: seq<Tag<V>>, data': seq<Tag<V>>, node: int, id: int, v: V,
                             f: int) {
    0 <= f < |rows| && f < |data| && f < |data'| && |rows[f]| == |data[f].par| &&
    data'[f] == if data[f].id == id then Reparametrised(rows[f], data[f], node, v) else data[f]
  }

  lemma SetTwice<V>(row: seq<int>, tag: Tag<V>, node: int, v: V)
    requires |row| == |tag.par|
    ensures Reparametrised(row, Reparametrised(row, tag, node, v), node, v) == Reparametrised(row, tag, node, v)
  {
    var once := Reparametrised(row, tag, node, v);
    assert Reparametrised(row, once, node, v).par == once.par;
  }

  /** One turn of the loop of gridSetNodeUV. */
  lemma SetStep<V>(rows: seq<seq<int>>, data: seq<Tag<V>>, was: seq<Tag<V>>, now: seq<Tag<V>>, node: int, id: int, v: V,
                   items: seq<int>, k: nat, item: int)
    requires TagsOk(rows, data) && |was| == |data| && 0 < k <= |items| && items[k - 1] == item
    requires forall f :: 0 <= f < |rows| ==> SetOrNot(rows, data, was, node, id, v, f)
    requires forall j :: k <= j < |items| ==> IsSetAt(rows, data, was, node, id, v, items[j])
    requires 0 <= item < |rows| && |rows[item]| >= 2 && Used(rows[item]) && |was[item].par| == |rows[item]|
    requires now == if was[item].id == id then was[item := Reparametrised(rows[item], was[item], node, v)] else was
    ensures forall f :: 0 <= f < |rows| ==> SetOrNot(rows, data, now, node, id, v, f)
    ensures forall j :: k - 1 <= j < |items| ==> IsSetAt(rows, data, now, node, id, v, items[j])
  {
    assert SetOrNot(rows, data, was, node, id, v, item);
    SetTwice(rows[item], data[item], node, v);
    forall f | 0 <= f < |rows| ensures SetOrNot(rows, data, now, node, id, v, f) {
      assert SetOrNot(rows, data, was, node, id, v, f);
    }
    forall j | k - 1 <= j < |items| ensures IsSetAt(rows, data, now, node, id, v, items[j]) {
      assert k <= j ==> IsSetAt(rows, data, was, node, id, v, items[j]);
      assert items[j] != item ==> now[items[j]] == was[items[j]];
    }
  }

  lemma SetAtEnd<V>(s: Store<Tag<V>>, data: seq<Tag<V>>, node: int, id: int, v: V, items: seq<int>)
    requires s.Valid() && TagsOk(s.rows, data) && |s.data| == |data|
    requires items == if 0 <= node < s.adj.nnode then s.adj.Items[node] else []
    requires forall f :: 0 <= f < |s.rows| ==> SetOrNot(s.rows, data, s.data, node, id, v, f)
    requires forall j :: 0 <= j < |items| ==> IsSetAt(s.rows, data, s.data, node, id, v, items[j])
    ensures IsSet(s.rows, data, s.data, node, id, v) && TagsOk(s.rows, s.data)
  {
    forall f | 0 <= f < |s.rows|
      ensures s.data[f] ==
              if |s.rows[f]| >= 2 && Used(s.rows[f]) && data[f].id == id then
                Reparametrised(s.rows[f], data[f], node, v)
              else data[f]
    {
      assert SetOrNot(s.rows, data, s.data, node, id, v, f);
      if Used(s.rows[f]) && data[f].id == id {
        AdjacentIsOn(s, node, f);
        if node in s.rows[f] {
          var j :| 0 <= j < |items| && items[j] == f;
          assert IsSetAt(s.rows, data, s.data, node, id, v, items[j]);
        } else {
          assert Reparametrised(s.rows[f], data[f], node, v).par == data[f].par;
        }
      }
    }
  }

  lemma FoundIsOn<V>(s: Store<Tag<V>>, data: seq<Tag<V>>, node: int, id: int, items: seq<int>)
    requires s.Valid() && |s.data| == |data| && forall f :: 0 <= f < |data| ==> s.data[f].id == data[f].id
    requires items == if 0 <= node < s.adj.nnode then s.adj.Items[node] else []
    ensures (exists j :: 0 <= j < |items| && 0 <= items[j] < |data| && data[items[j]].id == id) <==>
      IsOn(s.rows, s.data, node, id)
  {
    if exists j :: 0 <= j < |items| && 0 <= items[j] < |data| && data[items[j]].id == id {
      var j :| 0 <= j < |items| && 0 <= items[j] < |data| && data[items[j]].id == id;
      AdjacentIsOn(s, node, items[j]);
      assert IsItemOn(s.rows, s.data, items[j], node, id);
    }
    if IsOn(s.rows, s.data, node, id) {
      var f :| 0 <= f < |s.rows| && IsItemOn(s.rows, s.data, f, node, id);
      AdjacentIsOn(s, node, f);
      var j :| 0 <= j < |items| && items[j] == f;
    }
  }

  /** What was set is read back, and nothing else is read differently. */
  lemma {:induction false} SetThenGet<V>(rows: seq<seq<int>>, data: seq<Tag<V>>, data': seq<Tag<V>>, node: int,
                                         id: int, v: V,
                                         items: seq<int>, n: int, i: int)
    requires IsSet(rows, data, data', node, id, v)
    requires forall j :: 0 <= j < |items| ==>
      0 <= items[j] < |rows| && |rows[items[j]]| >= 2 && Used(rows[items[j]]) && n in rows[items[j]]
    ensures n == node && i == id ==>
      ParameterIn(rows, data', items, n, i) == if ParameterIn(rows, data, items, n, i) == NotFound then NotFound
        else Here(v)
    ensures !(n == node && i == id) ==> ParameterIn(rows, data', items, n, i) == ParameterIn(rows, data, items, n, i)
  {
    if items != [] {
      SetThenGet(rows, data, data', node, id, v, items[..|items| - 1], n, i);
    }
  }

  /** There is a parameter exactly where there is an item. */
  lemma {:induction false} ParameterWhereOn<V>(rows: seq<seq<int>>, data: seq<Tag<V>>, items: seq<int>, node: int,
                                               id: int)
    requires TagsOk(rows, data)
    requires forall j :: 0 <= j < |items| ==>
      0 <= items[j] < |rows| && |rows[items[j]]| >= 2 && Used(rows[items[j]]) && node in rows[items[j]]
    ensures ParameterIn(rows, data, items, node, id) != NotFound <==>
      exists j :: 0 <= j < |items| && data[items[j]].id == id
  {
    if items != [] {
      var m := |items| - 1;
      ParameterWhereOn(rows, data, items[..m], node, id);
      if exists j :: 0 <= j < m && data[items[..m][j]].id == id {
        var j :| 0 <= j < m && data[items[..m][j]].id == id;
        assert items[j] == items[..m][j];
      }
      if exists j :: 0 <= j < |items| && data[items[j]].id == id {
        var j :| 0 <= j < |items| && data[items[j]].id == id;
        assert j < m ==> items[..m][j] == items[j];
      }
    }
  }

  lemma ParameterIffOn<V>(s: Store<Tag<V>>, node: int, id: int)
    requires s.Valid() && TagsOk(s.rows, s.data)
    ensures Parameter(s, node, id) != NotFound <==> IsOn(s.rows, s.data, node, id)
  {
    var items := if 0 <= node < s.adj.nnode then s.adj.Items[node] else [];
    forall j | 0 <= j < |items| ensures 0 <= items[j] < |s.rows| && Used(s.rows[items[j]]) && node in s.rows[items[j]] {
      AdjacentIsOn(s, node, items[j]);
    }
    ParameterWhereOn(s.rows, s.data, items, node, id);
    FoundIsOn(s, s.data, node, id, items);
  }

  /** The value set at one node for one id is found there, and nothing else is found differently. */
  ghost predicate IsSetIn<V>(t: Lookups<V>, t': Lookups<V>, node: int, id: int, v: V) {
    && SameItems(t, t')
    && forall n, i :: Lookup(t', n, i) ==
                      if n == node && i == id && Lookup(t, n, i) != NotFound then Here(v) else Lookup(t, n, i)
  }

  /** The same items with the same ids; their parameters may differ. */
  ghost predicate SameItems<V>(t: Lookups<V>, t': Lookups<V>) {
    && t'.rows == t.rows && t'.items == t.items && |t'.data| == |t.data| == |t.rows|
    && forall f :: 0 <= f < |t.data| ==> t'.data[f].id == t.data[f].id
  }

  /** After gridSetNodeUV, gridNodeUV returns the value set, for this node and id only. */
  lemma SetParameter<V>(s: Store<Tag<V>>, data: seq<Tag<V>>, node: int, id: int, v: V)
    requires s.Valid() && IsSet(s.rows, data, s.data, node, id, v)
    ensures IsSetIn(Lookups(s.rows, data, s.adj.Items), LookupsOf(s), node, id, v)
  {
    var t, t' := Lookups(s.rows, data, s.adj.Items), LookupsOf(s);
    forall n, i
      ensures Lookup(t', n, i) ==
              if n == node && i == id && Lookup(t, n, i) != NotFound then Here(v) else Lookup(t, n, i)
    {
      if 0 <= n < s.adj.nnode {
        var items := s.adj.Items[n];
        forall j | 0 <= j < |items|
          ensures 0 <= items[j] < |s.rows| && Used(s.rows[items[j]]) && n in s.rows[items[j]]
        {
          AdjacentIsOn(s, n, items[j]);
        }
        SetThenGet(s.rows, data, s.data, node, id, v, items, n, i);
      }
    }
  }
}
