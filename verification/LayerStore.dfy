/**
 The cells and faces of an advancing layer (mesherx/layer.c): the flags that tell which items the
 layer made stay with their items while the table grows, is packed, and is reconnected at the front.
 */
module LayerStore {
  import opened Common
  import opened ItemStore
  import opened Packing

  /** The used rows that name a node. */
  ghost function Naming(rows: seq<seq<int>>, node: int): (s: set<int>)
    ensures forall c :: c in s <==> 0 <= c < |rows| && IsNaming(rows[c], node)
  {
    set c | 0 <= c < |rows| && IsNaming(rows[c], node)
  }

  predicate IsNaming(row: seq<int>, node: int) {
    |row| >= 2 && Used(row) && node in row
  }

  /** A cell outside the layer names fewer nodes of the old front once it is reconnected. */
  lemma NamingShrinks(rows: seq<seq<int>>, id: nat, oldNode: int, newNode: int)
    requires id < |rows| && IsNaming(rows[id], oldNode) && oldNode != newNode
    ensures Naming(rows[id := Replaced(rows[id], oldNode, newNode)], oldNode) < Naming(rows, oldNode)
  {
    var rows' := rows[id := Replaced(rows[id], oldNode, newNode)];
    assert id in Naming(rows, oldNode) && id !in Naming(rows', oldNode);
  }

  ghost predicate Flagged(flags: seq<bool>, c: int) {
    0 <= c < |flags| && flags[c]
  }

  /** Only used rows are flagged. */
  ghost predicate FlagsUsed(rows: seq<seq<int>>, flags: seq<bool>) {
    forall c :: Flagged(flags, c) ==> c < |rows| && |rows[c]| >= 2 && Used(rows[c])
  }

  /** Items a reconnect leaves alone: those of the layer, and those it is not meant for. */
  ghost predicate Stays<P>(flags: seq<bool>, data: seq<P>, mine: P -> bool, c: int) {
    Flagged(flags, c) || (0 <= c < |data| && !mine(data[c]))
  }

  /** Row c so far: items that stay are untouched, the others are as they were or reconnected. */
  ghost predicate SoFar<P>(rows0: seq<seq<int>>, rows: seq<seq<int>>, flags: seq<bool>, data: seq<P>, mine: P -> bool,
                           oldNode: int, newNode: int, c: int) {
    && HalfWay(rows0, rows, oldNode, newNode, c)
    && (Stays(flags, data, mine, c) ==> rows[c] == rows0[c])
  }

  lemma SoFarStep<P>(rows0: seq<seq<int>>, rows: seq<seq<int>>, flags: seq<bool>, data: seq<P>, mine: P -> bool,
                     oldNode: int, newNode: int, id: nat)
    requires |rows| == |rows0|
    requires forall c :: 0 <= c < |rows0| ==> SoFar(rows0, rows, flags, data, mine, oldNode, newNode, c)
    requires id < |rows| && IsNaming(rows[id], oldNode) && !Stays(flags, data, mine, id) && oldNode != newNode
    requires newNode != EMPTY
    requires oldNode != EMPTY
    ensures var rows' := rows[id := Replaced(rows[id], oldNode, newNode)];
      forall c :: 0 <= c < |rows0| ==> SoFar(rows0, rows', flags, data, mine, oldNode, newNode, c)
  {
    var rows' := rows[id := Replaced(rows[id], oldNode, newNode)];
    forall c | 0 <= c < |rows0| ensures HalfWay(rows0, rows, oldNode, newNode, c) {
      assert SoFar(rows0, rows, flags, data, mine, oldNode, newNode, c);
    }
    HalfWayStep(rows0, rows, rows', oldNode, newNode, id);
    forall c | 0 <= c < |rows0| ensures SoFar(rows0, rows', flags, data, mine, oldNode, newNode, c) {
      assert SoFar(rows0, rows, flags, data, mine, oldNode, newNode, c);
    }
  }

  /** The table once only cells of the layer name the old node. */
  lemma AllDone<P>(pairs: multiset<(int, int)>, rows0: seq<seq<int>>, rows: seq<seq<int>>, flags: seq<bool>,
                   data: seq<P>,
                   mine: P -> bool, oldNode: int, newNode: int)
    requires |rows| == |rows0|
    requires forall c :: 0 <= c < |rows0| ==> SoFar(rows0, rows, flags, data, mine, oldNode, newNode, c)
    requires forall c :: 0 <= c < |rows| ==> |rows[c]| >= 2
    requires Inverse(pairs, rows) && forall c :: (oldNode, c) in pairs ==> Stays(flags, data, mine, c)
    ensures forall c :: 0 <= c < |rows| ==>
      |rows0[c]| >= 2 && rows[c] == if Stays(flags, data, mine, c) then rows0[c]
        else Reconnected(rows0[c], oldNode, newNode)
  {
    forall c | 0 <= c < |rows|
      ensures |rows0[c]| >= 2
      ensures rows[c] == if Stays(flags, data, mine, c) then rows0[c] else Reconnected(rows0[c], oldNode, newNode)
    {
      assert SoFar(rows0, rows, flags, data, mine, oldNode, newNode, c);
      if Used(rows[c]) && !Stays(flags, data, mine, c) {
        NoMention(pairs, rows, oldNode, c);
      }
    }
  }

  lemma NamedIsNaming(pairs: multiset<(int, int)>, rows: seq<seq<int>>, node: int, c: int)
    requires forall c :: 0 <= c < |rows| ==> |rows[c]| >= 2
    requires Inverse(pairs, rows) && (node, c) in pairs
    ensures 0 <= c < |rows| && IsNaming(rows[c], node)
  {
    assert pairs[(node, c)] == Mentions(rows, node, c);
  }

  /** A freed row filled again. */
  lemma RefilledRow(rows: seq<seq<int>>, id: nat, link: seq<int>, row: seq<int>)
    requires id < |rows|
    ensures rows[id := link][id := row] == rows[id := row]
  {
  }

  /** Every used row is at its new place with its nodes renumbered, and so is its flag. */
  ghost predicate FlagsFollow(rows0: seq<seq<int>>, flags0: seq<bool>, rows: seq<seq<int>>, flags: seq<bool>,
                              o2n: seq<int>) {
    && |rows| == |flags| == |flags0| == |rows0| && (forall c :: 0 <= c < |rows0| ==> |rows0[c]| >= 2)
    && forall c :: 0 <= c < |rows0| && Used(rows0[c]) ==> FlagFollows(rows0, flags0, rows, flags, o2n, c)
  }

  ghost predicate FlagFollows(rows0: seq<seq<int>>, flags0: seq<bool>, rows: seq<seq<int>>, flags: seq<bool>,
                              o2n: seq<int>, c: nat)
    requires c < |rows0| == |flags0| && |rows| == |flags| && forall c :: 0 <= c < |rows0| ==> |rows0[c]| >= 2
  {
    var place := NewPlace(rows0, c);
    place < |rows| && InRange(rows0[c], |o2n|) && rows[place] == Mapped(rows0[c], o2n) && flags[place] == flags0[c]
  }

  /** A table with its flags, as a value. */
  datatype Items<P> = Items(rows: seq<seq<int>>, flags: seq<bool>, data: seq<P>)

  ghost predicate IsItem<P>(a: Items<P>, c: int) {
    0 <= c < |a.rows| == |a.flags| == |a.data| && |a.rows[c]| >= 2 && Used(a.rows[c])
  }

  ghost predicate IsNewItem<P>(a: Items<P>, b: Items<P>, c: int) {
    IsItem(b, c) && !IsItem(a, c)
  }

  ghost predicate SameItem<P>(a: Items<P>, b: Items<P>, c: int)
    requires IsItem(a, c) && IsItem(b, c)
  {
    b.rows[c] == a.rows[c] && b.flags[c] == a.flags[c] && b.data[c] == a.data[c]
  }

  /** The handle for relations between two states of a table. */
  ghost predicate OpenItems(u: int) {
    true
  }

  /** One item of the layer came in; all others are as they were. Kept folded. */
  ghost predicate Gains<P>(a: Items<P>, b: Items<P>, item: int, row: seq<int>, p: P) {
    forall u :: OpenItems(u) ==>
      && IsNewItem(a, b, item) && b.rows[item] == row && b.data[item] == p && b.flags[item]
      && forall c :: c != item ==> (IsItem(b, c) <==> IsItem(a, c)) && (IsItem(a, c) ==> SameItem(a, b, c))
  }

  /** All items are as they were, and those that came in belong to the layer. Kept folded. */
  ghost predicate Grown<P>(a: Items<P>, b: Items<P>) {
    forall u :: OpenItems(u) ==>
      && (forall c :: IsItem(a, c) ==> IsItem(b, c) && SameItem(a, b, c))
      && forall c :: IsNewItem(a, b, c) ==> b.flags[c]
  }

  lemma GrownSame<P>(a: Items<P>)
    ensures Grown(a, a)
  {
  }

  /** One item more: it is the only new one since then. */
  lemma GrownByOne<P>(a: Items<P>, b: Items<P>, d: Items<P>, item: int, row: seq<int>, p: P)
    requires Grown(a, b) && Gains(b, d, item, row, p)
    ensures Grown(a, d)
    ensures forall c :: IsNewItem(a, d, c) <==> IsNewItem(a, b, c) || c == item
    ensures forall c :: IsNewItem(a, b, c) ==> IsItem(d, c) && SameItem(b, d, c)
    ensures IsItem(d, item) && d.rows[item] == row && d.data[item] == p
  {
    assert OpenItems(0);
  }

  lemma GrownTwice<P>(a: Items<P>, b: Items<P>, d: Items<P>)
    requires Grown(a, b) && Grown(b, d)
    ensures Grown(a, d)
    ensures forall c :: IsNewItem(a, d, c) <==> IsNewItem(a, b, c) || IsNewItem(b, d, c)
    ensures forall c :: IsNewItem(a, b, c) ==> IsItem(d, c) && SameItem(b, d, c)
  {
    assert OpenItems(0);
  }

  class LayerItems<P> {
    const items: Store<P>
    var inLayer: seq<bool>

    ghost function State(): Items<P>
      reads this, items
    {
      Items(items.rows, inLayer, items.data)
    }

    ghost predicate Valid()
      reads this, items, items.adj
    {
      items.Valid() && |inLayer| == items.max && FlagsUsed(items.rows, inLayer)
    }

    constructor (items: Store<P>)
      requires items.Valid()
      ensures Valid() && this.items == items && forall c :: !Flagged(inLayer, c)
    {
      this.items := items;
      inLayer := seq(items.max, _ => false);
    }

    /** layerCellInLayer, layerFaceInLayer */
    predicate InLayer(item: int)
      requires Valid()
      reads this, items, items.adj
    {
      0 <= item < items.max && inLayer[item]
    }

    /**
     gridAddCell and gridAddFaceUV with the call-back to layerReallocator when the table grows; new slots are
     outside the layer.
     */
    method Add(nodes: seq<int>, p: P) returns (item: nat)
      requires Valid() && |nodes| == items.per && InRange(nodes, items.adj.nnode)
      modifies this`inLayer, items, items.adj
      ensures Valid() && items.adj.nnode == old(items.adj.nnode) && item == old(items.NextId()) < items.max
      ensures items.rows[item] == nodes && !old(items.IsUsed(item)) && |old(items.rows)| <= |items.rows|
      ensures forall c :: 0 <= c < |old(items.rows)| && c != item ==> items.rows[c] == old(items.rows)[c]
      ensures forall c :: Flagged(inLayer, c) <==> Flagged(old(inLayer), c)
      ensures items.data[item] == p && |old(items.data)| <= |items.data|
      ensures forall c :: 0 <= c < |old(items.data)| && c != item ==> items.data[c] == old(items.data)[c]
      ensures forall c :: |old(items.rows)| <= c < |items.rows| && c != item ==>
        |items.rows[c]| >= 2 && !Used(items.rows[c])
    {
      var lastSize := items.max;
      ghost var blank, t := items.blank, items.Value();
      FullOrFree(t, items.per, items.adj.nnode);
      item := items.Add(nodes, p);
      if items.max > lastSize {
        inLayer := inLayer + seq(items.max - lastSize, _ => false);
      }
      if blank == EMPTY {
        ghost var grown :| IsExtended(t.rows, grown, items.per) && items.rows == grown[item := nodes];
        forall c | 0 <= c < |t.rows| ensures items.rows[c] == t.rows[c] {
          assert grown[..|t.rows|][c] == t.rows[c];
        }
      }
    }

    /** The items that layerAdvance adds belong to the layer. */
    method AddToLayer(nodes: seq<int>, p: P) returns (item: nat)
      requires Valid() && |nodes| == items.per && InRange(nodes, items.adj.nnode)
      modifies this`inLayer, items, items.adj
      ensures Valid() && items.adj.nnode == old(items.adj.nnode) && item == old(items.NextId()) < items.max
      ensures items.rows[item] == nodes && !old(items.IsUsed(item)) && |old(items.rows)| <= |items.rows|
      ensures forall c :: 0 <= c < |old(items.rows)| && c != item ==> items.rows[c] == old(items.rows)[c]
      ensures forall c :: Flagged(inLayer, c) <==> Flagged(old(inLayer), c) || c == item
      ensures Gains(old(State()), State(), item, nodes, p)
    {
      ghost var a := State();
      item := Add(nodes, p);
      inLayer := inLayer[item := true];
      IsGain(a, State(), item, nodes, p);
    }

    /** An item outside the layer is removed and added again with one node renamed: it gets its old slot back. */
    method MoveItem(item: nat, oldNode: nat, newNode: nat)
      requires Valid() && oldNode != newNode && newNode < items.adj.nnode
      requires item < |items.rows| && IsNaming(items.rows[item], oldNode)
      modifies items, items.adj
      ensures items.Valid() && items.adj.nnode == old(items.adj.nnode) && items.max == old(items.max)
      ensures items.blank == old(items.blank) && items.count == old(items.count) && items.data == old(items.data)
      ensures items.rows == old(items.rows)[item := Replaced(old(items.rows)[item], oldNode, newNode)]
    {
      UsedInRange(items.Value(), items.per, items.adj.nnode, item);
      var p, nodes := items.data[item], Replaced(items.rows[item], oldNode, newNode);
      ghost var rows := items.rows;
      var _ := items.Remove(item);
      ghost var link := items.rows[item];
      var id := items.Add(nodes, p);
      RefilledRow(rows, item, link, nodes);
    }

    /**
     layerReconnectCellUnlessInLayer, with every item mine, and layerReconnectFaceUnlessInLayer, with the
     faces of one id: exactly those outside the layer get the new node. Every item keeps its slot, so
     the flags stay right without being touched.
     */
    method ReconnectUnlessInLayer(oldNode: int, newNode: int, mine: P -> bool) returns (ok: bool)
      requires Valid()
      modifies items, items.adj
      ensures Valid() && items.adj.nnode == old(items.adj.nnode) && items.max == old(items.max)
      ensures items.blank == old(items.blank) && items.count == old(items.count) && items.data == old(items.data)
      ensures ok <==> 0 <= oldNode < items.adj.nnode && 0 <= newNode < items.adj.nnode
      ensures |items.rows| == |old(items.rows)|
      ensures !ok || oldNode == newNode ==> items.rows == old(items.rows)
      ensures forall c :: 0 <= c < |items.rows| ==> |old(items.rows)[c]| >= 2
      ensures ok ==> forall c :: 0 <= c < |items.rows| ==>
        items.rows[c] == if Stays(inLayer, items.data, mine, c) then old(items.rows)[c]
          else Reconnected(old(items.rows)[c], oldNode, newNode)
    {
      SameNode(items.rows, oldNode, items.per, items.Value(), items.adj.nnode);
      if oldNode < 0 || oldNode >= items.adj.nnode || newNode < 0 || newNode >= items.adj.nnode {
        return false;
      }
      ok := true;
      if newNode != oldNode {
        ReconnectOthers(oldNode, newNode, mine);
      }
    }

    /** An item moved, and the list of the old node from its start. */
    method MoveAndRestart(item: nat, oldNode: nat, newNode: nat) returns (it: int)
      requires Valid() && oldNode != newNode && oldNode < items.adj.nnode && newNode < items.adj.nnode
      requires item < |items.rows| && IsNaming(items.rows[item], oldNode)
      modifies items, items.adj
      ensures Valid() && items.adj.nnode == old(items.adj.nnode) && items.max == old(items.max)
      ensures items.blank == old(items.blank) && items.count == old(items.count) && items.data == old(items.data)
      ensures items.rows == old(items.rows)[item := Replaced(old(items.rows)[item], oldNode, newNode)]
      ensures Naming(items.rows, oldNode) < Naming(old(items.rows), oldNode)
      ensures |items.adj.Items| == items.adj.nnode && items.adj.At(oldNode, it, |items.adj.Items[oldNode]|)
    {
      NamingShrinks(items.rows, item, oldNode, newNode);
      MoveItem(item, oldNode, newNode);
      items.adj.FirstAt(oldNode);
      it := items.adj.First(oldNode);
    }

    /** The loop over the list of the old node, started anew after every item that moved. */
    method ReconnectOthers(oldNode: nat, newNode: nat, mine: P -> bool)
      requires Valid() && oldNode < items.adj.nnode && newNode < items.adj.nnode && oldNode != newNode
      modifies items, items.adj
      ensures Valid() && items.adj.nnode == old(items.adj.nnode) && items.max == old(items.max)
      ensures items.blank == old(items.blank) && items.count == old(items.count) && items.data == old(items.data)
      ensures |items.rows| == |old(items.rows)|
      ensures forall c :: 0 <= c < |items.rows| ==> |old(items.rows)[c]| >= 2
      ensures forall c :: 0 <= c < |items.rows| ==>
        items.rows[c] == if Stays(inLayer, items.data, mine, c) then old(items.rows)[c]
          else Reconnected(old(items.rows)[c], oldNode, newNode)
    {
      items.adj.FirstAt(oldNode);
      var it := items.adj.First(oldNode);
      ghost var k: nat := |items.adj.Items[oldNode]|;
      while it != EMPTY
        invariant Valid() && items.adj.nnode == old(items.adj.nnode) && items.max == old(items.max)
        invariant items.blank == old(items.blank) && items.count == old(items.count) && items.data == old(items.data)
        invariant |items.rows| == |old(items.rows)|
        invariant forall c :: 0 <= c < |items.rows| ==>
          SoFar(old(items.rows), items.rows, inLayer, items.data, mine, oldNode, newNode, c)
        invariant items.adj.At(oldNode, it, k)
        invariant forall j :: k <= j < |items.adj.Items[oldNode]| ==>
          Stays(inLayer, items.data, mine, items.adj.Items[oldNode][j])
        decreases Naming(items.rows, oldNode), k
      {
        var item := items.adj.Item(oldNode, it, k);
        items.adj.PairsInRange(oldNode, item);
        NamedIsNaming(items.adj.Pairs, items.rows, oldNode, item);
        if mine(items.data[item]) && !InLayer(item) {
          SoFarStep(old(items.rows), items.rows, inLayer, items.data, mine, oldNode, newNode, item);
          it := MoveAndRestart(item, oldNode, newNode);
          k := |items.adj.Items[oldNode]|;
        } else {
          it := items.adj.Next(oldNode, it, k);
          k := k - 1;
        }
      }
      forall c | (oldNode, c) in items.adj.Pairs ensures Stays(inLayer, items.data, mine, c) {
        items.adj.PairsInRange(oldNode, c);
      }
      AllDone(items.adj.Pairs, old(items.rows), items.rows, inLayer, items.data, mine, oldNode, newNode);
    }

    /** The cell part of gridPack followed by that of layerPack: flags go where their cells go. */
    method PackCells(nodeo2n: seq<int>)
      requires Valid() && |nodeo2n| == items.adj.nnode
      requires forall n :: 0 <= n < |nodeo2n| ==> EMPTY <= nodeo2n[n] < |nodeo2n|
      requires forall c :: 0 <= c < |items.rows| ==> |items.rows[c]| >= 2 && Survives(items.rows, nodeo2n, c)
      modifies this`inLayer, items, items.adj
      ensures Valid() && items.count == old(items.count)
      ensures FlagsFollow(old(items.rows), old(inLayer), items.rows, inLayer, nodeo2n)
      ensures forall c :: items.count <= c < |inLayer| ==> !inLayer[c]
    {
      ghost var rows0, data0 := items.rows, items.data;
      CountIs(items.Value(), items.per, items.adj.nnode);
      var cello2n := Packing.PackCells(items, nodeo2n);
      PlacesAre(Progress(rows0, data0, items.rows, items.data, cello2n, items.adj.Pairs, items.count), items.per,
        nodeo2n);
      PackFlags(cello2n, rows0);
    }

    /** The same for edges, where gridPack gives up at an edge whose nodes do not all survive. */
    method PackEdges(nodeo2n: seq<int>) returns (ok: bool)
      requires Valid() && |nodeo2n| == items.adj.nnode
      requires forall n :: 0 <= n < |nodeo2n| ==> EMPTY <= nodeo2n[n] < |nodeo2n|
      requires forall c :: 0 <= c < |items.rows| ==> |items.rows[c]| >= 2
      modifies this`inLayer, items, items.adj
      ensures ok <==> forall c :: 0 <= c < |old(items.rows)| ==> Survives(old(items.rows), nodeo2n, c)
      ensures ok ==> Valid() && items.count == old(items.count)
      ensures ok ==> FlagsFollow(old(items.rows), old(inLayer), items.rows, inLayer, nodeo2n)
      ensures ok ==> forall c :: items.count <= c < |inLayer| ==> !inLayer[c]
    {
      ghost var rows0, data0 := items.rows, items.data;
      CountIs(items.Value(), items.per, items.adj.nnode);
      var edgeo2n: seq<int>;
      ok, edgeo2n := Packing.PackEdges(items, nodeo2n);
      if ok {
        PlacesAre(Progress(rows0, data0, items.rows, items.data, edgeo2n, items.adj.Pairs, items.count), items.per,
                  nodeo2n);
        PackFlags(edgeo2n, rows0);
      }
    }

    /** The cell or edge part of layerPack. */
    method PackFlags(itemo2n: seq<int>, ghost rows0: seq<seq<int>>)
      requires |itemo2n| == |rows0| == |inLayer| && items.count <= |rows0|
      requires forall c :: 0 <= c < |rows0| ==> |rows0[c]| >= 2
      requires items.count == NUsed(rows0)
      requires forall c :: 0 <= c < |rows0| ==> itemo2n[c] == if Used(rows0[c]) then NewPlace(rows0, c) else EMPTY
      modifies this`inLayer
      ensures |inLayer| == |old(inLayer)|
      ensures forall c :: 0 <= c < |rows0| && Used(rows0[c]) ==>
        NewPlace(rows0, c) < items.count && inLayer[NewPlace(rows0, c)] == old(inLayer)[c]
      ensures forall c :: items.count <= c < |inLayer| ==> !inLayer[c]
    {
      for origitem := 0 to |itemo2n|
        invariant |inLayer| == |rows0|
        invariant forall c :: origitem <= c < |rows0| ==> inLayer[c] == old(inLayer)[c]
        invariant forall c :: 0 <= c < origitem && Used(rows0[c]) ==>
          NewPlace(rows0, c) < origitem && inLayer[NewPlace(rows0, c)] == old(inLayer)[c]
      {
        var packitem := itemo2n[origitem];
        PlacesBefore(rows0, origitem);
        if packitem != EMPTY {
          inLayer := inLayer[packitem := inLayer[origitem]];
        }
      }
      assert rows0[..|rows0|] == rows0;
      PlacesBefore(rows0, |rows0|);
      for packitem := items.count to |itemo2n|
        invariant |inLayer| == |rows0|
        invariant forall c :: 0 <= c < |rows0| && Used(rows0[c]) ==>
          NewPlace(rows0, c) < items.count && inLayer[NewPlace(rows0, c)] == old(inLayer)[c]
        invariant forall c :: items.count <= c < packitem ==> !inLayer[c]
      {
        inLayer := inLayer[packitem := false];
      }
    }
  }

  /** What a table with one more item is, seen from its lists. */
  lemma IsGain<P>(a: Items<P>, b: Items<P>, item: nat, row: seq<int>, p: P)
    requires |a.rows| == |a.flags| == |a.data| <= |b.rows| == |b.flags| == |b.data| && item < |b.rows|
    requires b.rows[item] == row && b.data[item] == p && |row| >= 2 && Used(row) && !IsItem(a, item)
    requires forall c :: 0 <= c < |a.rows| && c != item ==> b.rows[c] == a.rows[c] && b.data[c] == a.data[c]
    requires forall c :: |a.rows| <= c < |b.rows| && c != item ==> |b.rows[c]| >= 2 && !Used(b.rows[c])
    requires forall c :: Flagged(b.flags, c) <==> Flagged(a.flags, c) || c == item
    ensures Gains(a, b, item, row, p)
  {
    forall c | c != item && IsItem(a, c) ensures IsItem(b, c) && SameItem(a, b, c) {
      assert Flagged(b.flags, c) <==> Flagged(a.flags, c);
    }
    assert Flagged(b.flags, item);
  }

  /** A full table has no free slot at all. */
  lemma FullOrFree(t: Table, per: nat, nnode: nat)
    requires TableOk(t, per, nnode)
    ensures t.blank != EMPTY ==> 0 <= t.blank < |t.rows| && !Used(t.rows[t.blank])
  {
    assert Unfold(0);
  }

  lemma SameNode(rows: seq<seq<int>>, node: int, per: nat, t: Table, nnode: nat)
    requires TableOk(t, per, nnode) && t.rows == rows
    ensures forall c :: 0 <= c < |rows| ==> |rows[c]| >= 2 && Reconnected(rows[c], node, node) == rows[c]
  {
    forall c | 0 <= c < |rows| ensures |rows[c]| >= 2 && Reconnected(rows[c], node, node) == rows[c] {
      assert Replaced(rows[c], node, node) == rows[c];
    }
  }

  lemma PlacesAre<P>(g: Progress<P>, per: nat, o2n: seq<int>)
    requires Shape(g, per) && |g.i2n| == |g.rows0| && forall c :: 0 <= c < |g.i2n| ==> Moved(g, per, o2n, c)
    ensures forall c :: 0 <= c < |g.rows0| ==> g.i2n[c] == if Used(g.rows0[c]) then NewPlace(g.rows0, c) else EMPTY
    ensures forall c :: 0 <= c < |g.rows0| && Used(g.rows0[c]) ==>
      InRange(g.rows0[c], |o2n|) && NewPlace(g.rows0, c) < |g.rows| &&
        g.rows[NewPlace(g.rows0, c)] == Mapped(g.rows0[c], o2n)
  {
    forall c | 0 <= c < |g.rows0| ensures g.i2n[c] == if Used(g.rows0[c]) then NewPlace(g.rows0, c) else EMPTY {
      assert Moved(g, per, o2n, c);
    }
    forall c | 0 <= c < |g.rows0| && Used(g.rows0[c])
      ensures InRange(g.rows0[c], |o2n|) && NewPlace(g.rows0, c) < |g.rows|
      ensures g.rows[NewPlace(g.rows0, c)] == Mapped(g.rows0[c], o2n)
    {
      assert Moved(g, per, o2n, c);
    }
  }

  /** Used rows before c go to places before that of c, which is at most c. */
  lemma PlacesBefore(rows: seq<seq<int>>, c: nat)
    requires c <= |rows| && forall c :: 0 <= c < |rows| ==> |rows[c]| >= 2
    ensures NewPlace(rows, c) <= c
    ensures forall b :: 0 <= b < c && Used(rows[b]) ==> NewPlace(rows, b) < NewPlace(rows, c)
  {
    NUsedBound(rows[..c]);
    forall b | 0 <= b < c && Used(rows[b]) ensures NewPlace(rows, b) < NewPlace(rows, c) {
      NewPlaceMonotone(rows, b, c);
    }
  }
}
