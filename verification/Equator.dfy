/** Ring reconstruction around a cell edge in one/grid.c: gridMakeGem, gridOrient and gridEquator. */
module LinkWalks {
  import opened Common

  /** Each cell around an edge contributes one directed link, from its predecessor to its successor node. */
  type Link = (int, int)

  /** No node is the predecessor in two cells, or the successor in two cells. */
  ghost predicate Functional(links: seq<Link>) {
    forall i, j :: 0 <= i < j < |links| ==> links[i].0 != links[j].0 && links[i].1 != links[j].1
  }

  ghost predicate Linked(links: seq<Link>, chain: seq<int>, k: int)
    requires 0 < k < |chain| && 0 <= chain[k - 1] < |links| && 0 <= chain[k] < |links|
  {
    links[chain[k - 1]].1 == links[chain[k]].0
  }

  /** Cells one after the other, each starting where the one before ends. */
  ghost predicate Chain(links: seq<Link>, chain: seq<int>) {
    && (forall k :: 0 <= k < |chain| ==> 0 <= chain[k] < |links|)
    && (forall k :: 0 < k < |chain| ==> Linked(links, chain, k))
  }

  lemma LinkAt(links: seq<Link>, chain: seq<int>, k: int)
    requires Chain(links, chain) && 0 < k < |chain|
    ensures Linked(links, chain, k)
  {
  }

  ghost predicate IsEnd(links: seq<Link>, node: int) {
    forall i :: 0 <= i < |links| ==> links[i].0 != node
  }

  ghost predicate Different(s: seq<int>) {
    forall i, j :: 0 <= i < j < |s| ==> s[i] != s[j]
  }

  /** All cells in one open fan. */
  ghost predicate IsOpenFan(links: seq<Link>, order: seq<int>) {
    && Chain(links, order) && Different(order) && |order| == |links| > 0
    && IsEnd(links, links[order[|order| - 1]].1)
  }

  /** All cells in one closed ring. */
  ghost predicate IsRing(links: seq<Link>, order: seq<int>) {
    && Chain(links, order) && Different(order) && |order| == |links| > 0
    && links[order[|order| - 1]].1 == links[order[0]].0
  }

  /** Some cells close up on themselves. */
  ghost predicate HasLoop(links: seq<Link>) {
    exists loop: seq<int> :: IsLoop(links, loop)
  }

  ghost predicate IsLoop(links: seq<Link>, loop: seq<int>) {
    loop != [] && Chain(links, loop) && links[loop[|loop| - 1]].1 == links[loop[0]].0
  }

  /** Cell c is on a loop. */
  ghost predicate OnLoop(links: seq<Link>, c: int) {
    exists loop: seq<int> :: IsLoop(links, loop) && loop[0] == c
  }

  /** A cell that comes again was there at the start of the repetition, too. */
  lemma {:induction false} RepeatsFromStart(links: seq<Link>, chain: seq<int>, i: nat, j: nat)
    requires Functional(links) && Chain(links, chain) && i < j < |chain| && chain[i] == chain[j]
    ensures chain[0] == chain[j - i]
  {
    if i > 0 {
      LinkAt(links, chain, i);
      LinkAt(links, chain, j);
      RepeatsFromStart(links, chain, i - 1, j - 1);
    }
  }

  /** A chain longer than there are cells starts on a loop. */
  lemma LongStartsOnLoop(links: seq<Link>, chain: seq<int>)
    requires Functional(links) && Chain(links, chain) && |chain| > |links|
    ensures OnLoop(links, chain[0])
  {
    if Different(chain) {
      Pigeonhole(chain, Below(|links|));
      assert false;
    }
    var i, j :| 0 <= i < j < |chain| && chain[i] == chain[j];
    RepeatsFromStart(links, chain, i, j);
    var loop := chain[..j - i];
    forall k | 0 < k < |loop| ensures Linked(links, loop, k) {
      LinkAt(links, chain, k);
    }
    LinkAt(links, chain, j - i);
    assert IsLoop(links, loop);
  }

  /** A chain that starts on a loop stays on it. */
  lemma {:induction false} StaysOnLoop(links: seq<Link>, chain: seq<int>, loop: seq<int>, t: nat) returns (i: nat)
    requires Functional(links) && Chain(links, chain) && IsLoop(links, loop) && t < |chain| && chain[0] == loop[0]
    ensures i < |loop| && chain[t] == loop[i]
  {
    if t == 0 {
      i := 0;
    } else {
      var before := StaysOnLoop(links, chain, loop, t - 1);
      LinkAt(links, chain, t);
      if before + 1 < |loop| {
        i := before + 1;
        LinkAt(links, loop, i);
      } else {
        i := 0;
      }
    }
  }

  /** A chain that runs into an end does not start on a loop. */
  lemma EndedIsOffLoop(links: seq<Link>, chain: seq<int>)
    requires Functional(links) && Chain(links, chain) && chain != [] && IsEnd(links, links[chain[|chain| - 1]].1)
    ensures !OnLoop(links, chain[0])
  {
    if loop: seq<int> :| IsLoop(links, loop) && loop[0] == chain[0] {
      var i := StaysOnLoop(links, chain, loop, |chain| - 1);
      LoopGoesOn(links, loop, i);
    }
  }

  lemma LoopGoesOn(links: seq<Link>, loop: seq<int>, i: nat)
    requires IsLoop(links, loop) && i < |loop|
    ensures !IsEnd(links, links[loop[i]].1)
  {
    if i + 1 < |loop| {
      LinkAt(links, loop, i + 1);
      assert links[loop[i + 1]].0 == links[loop[i]].1;
    } else {
      assert links[loop[0]].0 == links[loop[i]].1;
    }
  }

  lemma {:induction false} RepeatsGoOn(links: seq<Link>, chain: seq<int>, i: nat, j: nat, t: nat)
    requires Functional(links) && Chain(links, chain) && i < j && j + t < |chain| && chain[i] == chain[j]
    ensures chain[i + t] == chain[j + t]
  {
    if t > 0 {
      RepeatsGoOn(links, chain, i, j, t - 1);
      assert Linked(links, chain, i + t) && Linked(links, chain, j + t);
    }
  }

  /** A chain that runs into an end meets no cell twice. */
  lemma EndedIsDifferent(links: seq<Link>, chain: seq<int>)
    requires Functional(links) && Chain(links, chain) && chain != [] && IsEnd(links, links[chain[|chain| - 1]].1)
    ensures Different(chain) && |chain| <= |links|
  {
    forall i, j | 0 <= i < j < |chain| ensures chain[i] != chain[j] {
      if chain[i] == chain[j] {
        var t := |chain| - 1 - j;
        RepeatsGoOn(links, chain, i, j, t);
        LinkAt(links, chain, i + t + 1);
      }
    }
    Pigeonhole(chain, Below(|links|));
  }

  /** A chain longer than there are cells holds a loop. */
  lemma LongHasLoop(links: seq<Link>, chain: seq<int>)
    requires Chain(links, chain) && |chain| > |links|
    ensures HasLoop(links)
  {
    if Different(chain) {
      Pigeonhole(chain, Below(|links|));
    } else {
      var i, j :| 0 <= i < j < |chain| && chain[i] == chain[j];
      var loop := chain[i..j];
      forall k | 0 < k < |loop| ensures Linked(links, loop, k) {
        assert Linked(links, chain, i + k);
      }
      assert Linked(links, chain, j);
      assert IsLoop(links, loop);
    }
  }

  /** Walking back from the end of an open fan gives the fan from its end. */
  lemma {:induction false} BackAlongFan(links: seq<Link>, order: seq<int>, back: seq<int>, t: nat)
    requires Functional(links) && IsOpenFan(links, order) && Chain(links, back) && t < |back|
    requires IsEnd(links, links[back[|back| - 1]].1)
    ensures t < |order| && back[|back| - 1 - t] == order[|order| - 1 - t]
  {
    var m, n := |order|, |back|;
    if t == 0 {
      EndOfFan(links, order, back[n - 1]);
    } else {
      BackAlongFan(links, order, back, t - 1);
      assert Linked(links, back, n - t);
      EndedIsDifferent(links, back);
      EndedIsDifferent(links, order);
      assert Linked(links, order, m - t);
    }
  }

  /** The only cell of an open fan that ends at an end is the last. */
  lemma EndOfFan(links: seq<Link>, order: seq<int>, c: int)
    requires IsOpenFan(links, order) && 0 <= c < |links| && IsEnd(links, links[c].1)
    ensures c == order[|order| - 1]
  {
    var i := FanHits(links, order, c);
    if i < |order| - 1 {
      LinkAt(links, order, i + 1);
    }
  }

  lemma FanHits(links: seq<Link>, order: seq<int>, c: int) returns (i: nat)
    requires Different(order) && |order| == |links| && (forall k :: 0 <= k < |order| ==> 0 <= order[k] < |links|)
    requires 0 <= c < |links|
    ensures i < |order| && order[i] == c
  {
    if c in order {
      i :| 0 <= i < |order| && order[i] == c;
    } else {
      Pigeonhole(order, Below(|links|) - {c});
      assert false;
    }
  }

  lemma {:induction false} AlongFan(links: seq<Link>, order: seq<int>, chain: seq<int>, r: nat, t: nat)
    requires Functional(links) && IsOpenFan(links, order) && Chain(links, chain) && t < |chain| && r < |order|
    requires chain[0] == order[r]
    ensures r + t < |order| && chain[t] == order[r + t]
  {
    if t > 0 {
      AlongFan(links, order, chain, r, t - 1);
      assert Linked(links, chain, t);
      if r + t < |order| {
        assert Linked(links, order, r + t);
      }
    }
  }

  /** In an open fan no chain is longer than the fan. */
  lemma FanIsShort(links: seq<Link>, order: seq<int>, chain: seq<int>)
    requires Functional(links) && IsOpenFan(links, order) && Chain(links, chain) && chain != []
    ensures |chain| <= |links|
  {
    var r := FanHits(links, order, chain[0]);
    AlongFan(links, order, chain, r, |chain| - 1);
  }

  function Around(order: seq<int>, p: nat): int
    requires p < 2 * |order|
  {
    if p < |order| then order[p] else order[p - |order|]
  }

  lemma {:induction false} AlongRing(links: seq<Link>, order: seq<int>, chain: seq<int>, r: nat, t: nat)
    requires Functional(links) && IsRing(links, order) && Chain(links, chain) && t < |chain| && r < |order|
    requires chain[0] == order[r]
    requires t <= |order|
    ensures chain[t] == Around(order, r + t)
  {
    if t > 0 {
      AlongRing(links, order, chain, r, t - 1);
      assert Linked(links, chain, t);
      if r + t != |order| {
        assert Linked(links, order, if r + t < |order| then r + t else r + t - |order|);
      }
    }
  }

  /** Any chain as long as the ring is the ring from some start. */
  lemma RingWalk(links: seq<Link>, order: seq<int>, chain: seq<int>)
    requires Functional(links) && IsRing(links, order) && Chain(links, chain) && |chain| == |links| + 1
    ensures chain[|links|] == chain[0] && IsRing(links, chain[..|links|])
  {
    var m := |links|;
    var r := FanHits(links, order, chain[0]);
    AlongRing(links, order, chain, r, m);
    var walk := chain[..m];
    forall i, j | 0 <= i < j < m ensures walk[i] != walk[j] {
      AlongRing(links, order, chain, r, i);
      AlongRing(links, order, chain, r, j);
    }
    forall k | 0 < k < m ensures Linked(links, walk, k) {
      assert Linked(links, chain, k);
    }
    assert Linked(links, chain, m);
  }

  /** A ring has no end. */
  lemma RingHasNoEnd(links: seq<Link>, order: seq<int>, c: int)
    requires IsRing(links, order) && 0 <= c < |links|
    ensures !IsEnd(links, links[c].1)
  {
    var i := FanHits(links, order, c);
    if i < |order| - 1 {
      assert Linked(links, order, i + 1);
      assert links[order[i + 1]].0 == links[c].1;
    } else {
      assert links[order[0]].0 == links[c].1;
    }
  }

  /**
   Where nothing leads to the start of a chain that reaches an end, and cells are left over, there is no
   single fan or ring.
   */
  lemma Broken(links: seq<Link>, back: seq<int>)
    requires Functional(links) && Chain(links, back) && 0 < |back| < |links| && IsEnd(links, links[back[|back| - 1]].1)
    requires forall i :: 0 <= i < |links| ==> links[i].1 != links[back[0]].0
    ensures forall order: seq<int> :: !IsOpenFan(links, order) && !IsRing(links, order)
  {
    forall order: seq<int> ensures !IsOpenFan(links, order) && !IsRing(links, order) {
      if IsOpenFan(links, order) {
        var n, m := |back|, |order|;
        BackAlongFan(links, order, back, n - 1);
        LinkAt(links, order, m - n);
      }
      if IsRing(links, order) {
        RingHasNoEnd(links, order, back[|back| - 1]);
      }
    }
  }
}

module Equators {
  import opened Common
  import opened ItemStore
  import opened Chains
  import opened LinkWalks

  const MAXDEG: int := 200

  /** gridOrient: the other two nodes of a cell, in the order that keeps its orientation. */
  function Orient(c: seq<int>, n0: int, n1: int): seq<int>
    requires |c| == 4
  {
    if n0 == c[0] && n1 == c[1] then [c[2], c[3]]
    else if n0 == c[0] && n1 == c[2] then [c[3], c[1]]
    else if n0 == c[0] && n1 == c[3] then [c[1], c[2]]
    else if n0 == c[1] && n1 == c[0] then [c[3], c[2]]
    else if n0 == c[2] && n1 == c[0] then [c[1], c[3]]
    else if n0 == c[3] && n1 == c[0] then [c[2], c[1]]
    else if n0 == c[2] && n1 == c[3] then [c[0], c[1]]
    else if n0 == c[3] && n1 == c[1] then [c[0], c[2]]
    else if n0 == c[1] && n1 == c[2] then [c[0], c[3]]
    else if n0 == c[3] && n1 == c[2] then [c[1], c[0]]
    else if n0 == c[1] && n1 == c[3] then [c[2], c[0]]
    else if n0 == c[2] && n1 == c[1] then [c[3], c[0]]
    else []
  }

  lemma OrientTurns(c: seq<int>, n0: int, n1: int)
    requires |c| == 4 && |Orient(c, n0, n1)| == 2
    ensures IsTurned(c, [n0, n1] + Orient(c, n0, n1))
  {
    var r := Orient(c, n0, n1);
    assert [n0, n1] + r == [n0, n1, r[0], r[1]];
  }

  /** It succeeds exactly for two different nodes of the cell, and gives the same cell in the same orientation. */
  lemma OrientIsCell(c: seq<int>, n0: int, n1: int, q: Tri)
    requires FourNodes(c)
    ensures Orient(c, n0, n1) != [] <==> n0 in c && n1 in c && n0 != n1
    ensures Orient(c, n0, n1) != [] ==>
      |Orient(c, n0, n1)| == 2 && TetChi([n0, n1] + Orient(c, n0, n1), q) == TetChi(c, q)
  {
    OrientFinds(c, n0, n1);
    if Orient(c, n0, n1) != [] {
      OrientTurns(c, n0, n1);
      TurnedTet(c, [n0, n1] + Orient(c, n0, n1), q);
    }
  }

  lemma OrientFinds(c: seq<int>, n0: int, n1: int)
    requires FourNodes(c)
    ensures Orient(c, n0, n1) != [] <==> n0 in c && n1 in c && n0 != n1
    ensures Orient(c, n0, n1) != [] ==> |Orient(c, n0, n1)| == 2
  {
    assert c == [c[0], c[1], c[2], c[3]];
  }

  /** The link of a cell around the edge from n0 to n1. */
  function LinkOf(c: seq<int>, n0: int, n1: int): Link
    requires |c| == 4
  {
    var r := Orient(c, n0, n1);
    if |r| == 2 then (r[0], r[1]) else (EMPTY, EMPTY)
  }

  ghost function LinksOf(rows: seq<seq<int>>, gem: seq<int>, n0: int, n1: int): (links: seq<Link>)
    requires Wide(rows, 4) && forall k :: 0 <= k < |gem| ==> 0 <= gem[k] < |rows|
    ensures |links| == |gem| && forall k :: 0 <= k < |gem| ==> links[k] == LinkOf(rows[gem[k]], n0, n1)
  {
    seq(|gem|, k requires 0 <= k < |gem| => LinkOf(rows[gem[k]], n0, n1))
  }

  /** The cells of a list that name node n1, last first. */
  ghost function Gem(rows: seq<seq<int>>, items: seq<int>, n1: int): (g: seq<int>)
    ensures forall k :: 0 <= k < |g| ==> 0 <= g[k] < |rows|
  {
    if items == [] then []
    else
      var m := |items| - 1;
      (if IsNamed(rows, items[m], n1) then [items[m]] else []) + Gem(rows, items[..m], n1)
  }

  ghost predicate IsNamed(rows: seq<seq<int>>, c: int, n: int) {
    0 <= c < |rows| && n in rows[c]
  }

  lemma {:induction false} GemMembers(rows: seq<seq<int>>, items: seq<int>, n1: int)
    ensures forall c :: c in Gem(rows, items, n1) <==> c in items && IsNamed(rows, c, n1)
    ensures Different(items) ==> Different(Gem(rows, items, n1))
  {
    if items != [] {
      var m := |items| - 1;
      GemMembers(rows, items[..m], n1);
      assert items == items[..m] + [items[m]];
      if Different(items) {
        assert items[m] !in items[..m];
      }
    }
  }

  lemma Shift<T>(a: seq<T>, x: seq<T>, b: seq<T>)
    ensures a + x + b == a + (x + b)
  {
  }

  /** The successors along a walk. */
  ghost function Ends(links: seq<Link>, walk: seq<int>): (s: seq<int>)
    requires Chain(links, walk)
    ensures |s| == |walk| && forall k :: 0 <= k < |walk| ==> s[k] == links[walk[k]].1
  {
    seq(|walk|, k requires 0 <= k < |walk| => links[walk[k]].1)
  }

  /** Walking back from the end of a fan: the nodes passed, with the end as the last one. */
  ghost predicate IsBack(links: seq<Link>, back: seq<int>, nodes: seq<int>) {
    |nodes| == |back| + 1 && forall u :: OpenBack(u) ==>
      && Chain(links, back) && nodes[..|back|] == Begins(links, back)
      && (back != [] ==> links[back[|back| - 1]].1 == nodes[|back|])
  }

  ghost predicate OpenBack(u: int) {
    true
  }

  lemma BackOn(links: seq<Link>, back: seq<int>, nodes: seq<int>, g: int)
    requires IsBack(links, back, nodes) && 0 <= g < |links| && links[g].1 == nodes[0]
    ensures IsBack(links, [g] + back, [links[g].0] + nodes)
  {
    assert OpenBack(0);
    assert back != [] ==> nodes[..|back|][0] == links[back[0]].0;
    ChainStartsEarlier(links, back, g);
    assert ([links[g].0] + nodes)[..|back| + 1] == [links[g].0] + nodes[..|back|];
  }

  /** Walking back over all cells. */
  lemma BackIsFan(links: seq<Link>, back: seq<int>, nodes: seq<int>)
    requires Functional(links) && IsBack(links, back, nodes) && |back| == |links| > 0 && IsEnd(links, nodes[|back|])
    ensures IsOpenFan(links, back) && nodes[|back|] == links[back[|back| - 1]].1
    ensures nodes[..|back|] == Begins(links, back)
  {
    assert OpenBack(0);
    EndedIsDifferent(links, back);
  }

  /** No cell leads to the node reached. */
  lemma BackIsBroken(links: seq<Link>, back: seq<int>, nodes: seq<int>, last: int)
    requires Functional(links) && IsBack(links, back, nodes) && |back| < |links| && 0 <= last < |links|
    requires links[last].1 == nodes[|back|] && IsEnd(links, nodes[|back|])
    requires forall i :: 0 <= i < |links| ==> links[i].1 != nodes[0]
    ensures forall order: seq<int> :: !IsOpenFan(links, order) && !IsRing(links, order)
  {
    assert OpenBack(0) && back != [];
    assert nodes[..|back|][0] == links[back[0]].0;
    Broken(links, back);
  }

  /** The predecessors along a walk. */
  ghost function Begins(links: seq<Link>, walk: seq<int>): (s: seq<int>)
    requires Chain(links, walk)
    ensures |s| == |walk| && forall k :: 0 <= k < |walk| ==> s[k] == links[walk[k]].0
  {
    seq(|walk|, k requires 0 <= k < |walk| => links[walk[k]].0)
  }

  lemma EndsGrow(links: seq<Link>, walk: seq<int>, g: int)
    requires Chain(links, walk) && Chain(links, walk + [g]) && 0 <= g < |links|
    ensures Ends(links, walk + [g]) == Ends(links, walk) + [links[g].1]
  {
  }

  /** Cell g prolongs a walk that ends at its predecessor. */
  lemma WalkOn(links: seq<Link>, walk: seq<int>, g: int)
    requires Chain(links, walk) && walk != [] && 0 <= g < |links| && links[g].0 == links[walk[|walk| - 1]].1
    ensures Chain(links, walk + [g]) && Ends(links, walk + [g]) == Ends(links, walk) + [links[g].1]
  {
    ChainGrows(links, walk, g);
    EndsGrow(links, walk, g);
  }

  /** The nodes along an open fan, from its first predecessor to its last successor. */
  ghost predicate IsPathOf(nodes: seq<int>, links: seq<Link>, order: seq<int>) {
    && |nodes| == |order| + 1 && |order| > 0 && Chain(links, order)
    && (forall k :: 0 <= k < |order| ==> nodes[k] == links[order[k]].0)
    && nodes[|order|] == links[order[|order| - 1]].1
  }

  /** The cells of a walk around the edge, each named by the node it leads to. */
  ghost predicate IsCycleOf(nodes: seq<int>, links: seq<Link>, walk: seq<int>) {
    && Chain(links, walk) && |walk| == |nodes| + 1
    && forall k :: 0 <= k < |nodes| ==> nodes[k] == links[walk[k]].1
  }

  /** The sizes of a gem that gridMakeGem and the test for MAXDEG - 1 let through. */
  predicate PassesLimits(ngem: nat) {
    ngem < 199 || ngem == 200
  }

  /**
   What gridEquator makes of the links around an edge: nothing beyond the limits, the path of a single
   open fan, or a walk along a loop; it fails within the limits only if there is neither a single open
   fan nor a single ring. It finds a cycle exactly if the first cell is on a loop, whatever the other
   cells are. The nodes found are there twice. Kept folded.
   */
  ghost predicate Outcome(links: seq<Link>, ok: bool, gap: bool, nequ: nat, equ: seq<int>, walk: seq<int>) {
    forall u :: Unfold(u) ==>
      && (!PassesLimits(|links|) ==> !ok)
      && (links == [] ==> ok && nequ == 0)
      && (!ok && PassesLimits(|links|) ==> forall order: seq<int> :: !IsOpenFan(links, order) && !IsRing(links, order))
      && (ok && links != [] ==> nequ == |links| + (if gap then 1 else 0) && 2 * nequ <= |equ|)
      && (ok && links != [] && gap ==> IsOpenFan(links, walk) && IsPathOf(equ[..nequ], links, walk))
      && (ok && links != [] && !gap ==> IsCycleOf(equ[..nequ], links, walk) && walk[0] == 0 && HasLoop(links))
      && (links != [] && PassesLimits(|links|) ==> (ok && !gap <==> OnLoop(links, 0)))
      && (ok && links != [] ==> forall k :: 0 <= k < nequ ==> equ[k + nequ] == equ[k])
  }

  lemma BeyondLimits(links: seq<Link>, gap: bool, nequ: nat, equ: seq<int>, walk: seq<int>)
    requires !PassesLimits(|links|)
    ensures Outcome(links, false, gap, nequ, equ, walk)
  {
  }

  lemma NothingThere(links: seq<Link>, gap: bool, equ: seq<int>, walk: seq<int>)
    requires links == []
    ensures Outcome(links, true, gap, 0, equ, walk)
  {
  }

  /** Cell c, read from the edge n0, n1 in its own orientation, goes on with a and b. */
  ghost predicate IsBetween(rows: seq<seq<int>>, c: int, n0: int, n1: int, a: int, b: int)
    requires Wide(rows, 4)
  {
    0 <= c < |rows| && Used(rows[c]) && IsTurned(rows[c], [n0, n1, a, b])
  }

  /** The link of a cell is given by its orientation alone. */
  lemma LinkIsTurned(c: seq<int>, n0: int, n1: int, a: int, b: int)
    requires FourNodes(c) && n0 in c && n1 in c && n0 != n1
    ensures LinkOf(c, n0, n1) == (a, b) <==> IsTurned(c, [n0, n1, a, b])
  {
    OrientFinds(c, n0, n1);
    OrientTurns(c, n0, n1);
    var r := Orient(c, n0, n1);
    assert [n0, n1] + r == [n0, n1, r[0], r[1]];
    if IsTurned(c, [n0, n1, a, b]) {
      assert [n0, n1, a, b] == [n0, n1] + [a, b];
    }
  }

  /**
   The nodes found run around the edge: a path passes every cell of the gem once, and a cycle starts with the
   first cell; where the walk comes back to its first cell, so do the nodes.
   */
  ghost predicate RunsAround(rows: seq<seq<int>>, gem: seq<int>, n0: int, n1: int, gap: bool, nequ: nat,
                             equ: seq<int>, walk: seq<int>)
    requires Wide(rows, 4)
  {
    && nequ < |equ| && (forall k :: 0 <= k < |walk| ==> 0 <= walk[k] < |gem|)
    && (gap ==>
          && nequ == |gem| + 1 && |walk| == |gem| && Different(walk)
          && forall k :: 0 <= k < nequ - 1 ==> IsBetween(rows, gem[walk[k]], n0, n1, equ[k], equ[k + 1]))
    && (!gap ==>
          && nequ == |gem| && |walk| == nequ + 1 && walk[0] == 0
          && (forall k :: 0 < k < nequ ==> IsBetween(rows, gem[walk[k]], n0, n1, equ[k - 1], equ[k]))
          && (exists a :: IsBetween(rows, gem[0], n0, n1, a, equ[0]))
          && (walk[nequ] == 0 ==> IsBetween(rows, gem[0], n0, n1, equ[nequ - 1], equ[nequ])))
  }

  lemma OutcomeRunsAround(rows: seq<seq<int>>, gem: seq<int>, n0: int, n1: int, links: seq<Link>, gap: bool,
                          nequ: nat, equ: seq<int>, walk: seq<int>)
    requires Wide(rows, 4) && |links| == |gem| > 0 && Outcome(links, true, gap, nequ, equ, walk)
    requires forall k :: 0 <= k < |gem| ==> IsBetween(rows, gem[k], n0, n1, links[k].0, links[k].1)
    ensures RunsAround(rows, gem, n0, n1, gap, nequ, equ, walk)
  {
    assert Unfold(0);
    var nodes := equ[..nequ];
    if gap {
      forall k | 0 <= k < |gem| ensures IsBetween(rows, gem[walk[k]], n0, n1, equ[k], equ[k + 1]) {
        assert nodes[k] == links[walk[k]].0;
        if k + 1 < |walk| {
          LinkAt(links, walk, k + 1);
          assert nodes[k + 1] == links[walk[k + 1]].0;
        }
        assert nodes[k + 1] == links[walk[k]].1;
      }
    } else {
      assert equ[0 + nequ] == equ[0] == nodes[0] == links[0].1;
      forall k | 0 < k <= nequ && (k < nequ || walk[nequ] == 0)
        ensures IsBetween(rows, gem[walk[k]], n0, n1, equ[k - 1], equ[k])
      {
        LinkAt(links, walk, k);
        assert nodes[k - 1] == links[walk[k - 1]].1;
      }
      assert IsBetween(rows, gem[0], n0, n1, links[0].0, equ[0]);
    }
  }

  /** A single open fan always gives its path, with each cell once. */
  lemma FanGivesPath(links: seq<Link>, order: seq<int>, ok: bool, gap: bool, nequ: nat, equ: seq<int>, walk: seq<int>)
    requires Functional(links) && PassesLimits(|links|) && IsOpenFan(links, order)
    requires Outcome(links, ok, gap, nequ, equ, walk)
    ensures ok && nequ == |links| + 1 && 2 * nequ <= |equ|
    ensures IsPathOf(equ[..nequ], links, walk) && Different(walk) && |walk| == |links|
  {
    assert Unfold(0);
    RingOrFan(links, order, order);
  }

  /** A single ring always gives its cycle, with each cell once, back to its start. */
  lemma RingGivesCycle(links: seq<Link>, order: seq<int>, ok: bool, gap: bool, nequ: nat, equ: seq<int>, walk: seq<int>)
    requires Functional(links) && PassesLimits(|links|) && IsRing(links, order)
    requires Outcome(links, ok, gap, nequ, equ, walk)
    ensures ok && nequ == |links| && 2 * nequ <= |equ|
    ensures IsCycleOf(equ[..nequ], links, walk) && IsRing(links, walk[..nequ]) && walk[nequ] == walk[0]
  {
    assert Unfold(0);
    if gap && ok {
      RingOrFan(links, walk, order);
    } else if ok {
      RingWalk(links, order, walk);
    }
  }

  /** Several open fans, with nothing closed, give nothing. */
  lemma SeveralFansFail(links: seq<Link>, ok: bool, gap: bool, nequ: nat, equ: seq<int>, walk: seq<int>)
    requires links != [] && !HasLoop(links) && Outcome(links, ok, gap, nequ, equ, walk)
    requires forall order: seq<int> :: !IsOpenFan(links, order)
    ensures !ok
  {
    assert Unfold(0);
  }

  /** Where there is neither one fan nor one ring, it still succeeds if the first cell is on a loop. */
  lemma NeitherFanNorRing(links: seq<Link>, ok: bool, gap: bool, nequ: nat, equ: seq<int>, walk: seq<int>)
    requires links != [] && PassesLimits(|links|) && Outcome(links, ok, gap, nequ, equ, walk)
    requires forall order: seq<int> :: !IsOpenFan(links, order) && !IsRing(links, order)
    ensures !ok <==> !OnLoop(links, 0)
  {
    assert Unfold(0);
  }

  /** Three cells that close up and one beside them: a cycle of four nodes that leaves the fourth cell out. */
  lemma LoopBesideCell(ok: bool, gap: bool, nequ: nat, equ: seq<int>, walk: seq<int>)
    requires Outcome([(1, 2), (2, 3), (3, 1), (5, 6)], ok, gap, nequ, equ, walk)
    ensures forall order: seq<int> ::
      !IsOpenFan([(1, 2), (2, 3), (3, 1), (5, 6)], order) && !IsRing([(1, 2), (2, 3), (3, 1), (5, 6)], order)
    ensures ok && !gap && nequ == 4 <= |equ| && 6 !in equ[..4]
  {
    assert Unfold(0);
    var links := [(1, 2), (2, 3), (3, 1), (5, 6)];
    assert IsLoop(links, [0, 1, 2]) && [0, 1, 2][0] == 0;
    forall order: seq<int> ensures !IsOpenFan(links, order) && !IsRing(links, order) {
      if IsOpenFan(links, order) {
        RingOrFan(links, order, order);
      }
      if IsRing(links, order) {
        RingHasNoEnd(links, order, 3);
      }
    }
    forall k | 0 <= k < 4 ensures equ[..4][k] != 6 {
      var next := k + 1;
      LinkAt(links, walk, next);
    }
  }

  /**
   The array of 2 * MAXDEG entries has room for the nodes of an open fan, twice over, exactly if the fan does not
   have MAXDEG cells; and such a fan passes the limits.
   */
  lemma {:induction false} FanWithoutRoom() returns (links: seq<Link>, order: seq<int>)
    ensures Functional(links) && IsOpenFan(links, order) && |links| == 200 && 2 * (|links| + 1) > 2 * MAXDEG
    ensures forall fan: seq<Link>, cells: seq<int> :: IsOpenFan(fan, cells) && PassesLimits(|fan|) ==>
      (2 * (|fan| + 1) <= 2 * MAXDEG <==> |fan| != MAXDEG)
  {
    links, order := seq(MAXDEG, k => (k, k + 1)), seq(MAXDEG, k => k);
    forall k | 0 < k < |order| ensures Linked(links, order, k) {
    }
  }

  /** One cell of a list more. */
  lemma {:induction false} GemStep(rows: seq<seq<int>>, items: seq<int>, n1: int, k: nat, before: seq<int>,
                                   whole: seq<int>)
    returns (named: seq<int>, next: seq<int>)
    requires k < |items| && before + Gem(rows, items[..k + 1], n1) == whole
    ensures named == if IsNamed(rows, items[k], n1) then [items[k]] else []
    ensures next == Gem(rows, items[..k], n1) && (before + named) + next == whole
  {
    assert items[..k + 1][..k] == items[..k];
    named, next := if IsNamed(rows, items[k], n1) then [items[k]] else [], Gem(rows, items[..k], n1);
    assert Gem(rows, items[..k + 1], n1) == named + next;
    Shift(before, named, next);
  }

  /** Both ends of the edge are nodes of the cell. */
  ghost predicate IsAround(rows: seq<seq<int>>, c: int, n0: int, n1: int)
    requires Wide(rows, 4)
  {
    0 <= c < |rows| && Used(rows[c]) && n0 in rows[c] && n1 in rows[c]
  }

  ghost predicate CellsHaveFourNodes(rows: seq<seq<int>>)
    requires Wide(rows, 4)
  {
    forall c :: 0 <= c < |rows| && Used(rows[c]) ==> FourNodes(rows[c])
  }

  class EdgeGem {
    const cells: Store<seq<int>>
    const gem: array<int>
    var ngem: nat
    const equ: array<int>
    var nequ: nat

    ghost predicate Valid()
      reads cells, cells.adj
    {
      && cells.Valid() && cells.per == 4 && CellsHaveFourNodes(cells.rows)
      && gem.Length == MAXDEG && equ.Length == 2 * MAXDEG && gem != equ
    }

    constructor (cells: Store<seq<int>>)
      requires cells.Valid() && cells.per == 4 && CellsHaveFourNodes(cells.rows)
      ensures Valid() && this.cells == cells && fresh(gem) && fresh(equ)
    {
      this.cells := cells;
      gem, equ := new int[MAXDEG], new int[2 * MAXDEG];
      ngem, nequ := 0, 0;
    }

    /** The cells around an edge, in the order of the list of n0. */
    ghost function GemOf(n0: int, n1: int): (g: seq<int>)
      requires Valid()
      reads cells, cells.adj
      ensures forall k :: 0 <= k < |g| ==> 0 <= g[k] < |cells.rows|
    {
      if 0 <= n0 < cells.adj.nnode then Gem(cells.rows, cells.adj.Items[n0], n1) else []
    }

    /** They are exactly the cells that have both ends, each once. */
    lemma GemIsAround(n0: int, n1: int)
      requires Valid()
      ensures Different(GemOf(n0, n1)) && forall c :: c in GemOf(n0, n1) <==> IsAround(cells.rows, c, n0, n1)
    {
      forall c
        ensures cells.adj.Pairs[(n0, c)] ==
                if 0 <= c < |cells.rows| && Used(cells.rows[c]) && n0 in cells.rows[c] then 1 else 0
      {
        assert cells.adj.Pairs[(n0, c)] == Mentions(cells.rows, n0, c);
        if 0 <= c < |cells.rows| && Used(cells.rows[c]) {
          OnceInFour(cells.rows[c], n0);
        }
      }
      if 0 <= n0 < cells.adj.nnode {
        var items := cells.adj.Items[n0];
        forall c ensures multiset(items)[c] == cells.adj.Pairs[(n0, c)] {
          cells.adj.PairsCount(n0, c);
        }
        OnceEach(items);
        GemMembers(cells.rows, items, n1);
        forall c ensures c in items <==> 0 <= c < |cells.rows| && Used(cells.rows[c]) && n0 in cells.rows[c] {
          assert c in items <==> c in multiset(items);
        }
      } else {
        forall c ensures !IsAround(cells.rows, c, n0, n1) {
          cells.adj.PairsCount(n0, c);
        }
      }
    }

    /** gridMakeGem; more than MAXDEG cells are refused. */
    method MakeGem(n0: int, n1: int) returns (ok: bool)
      requires Valid()
      modifies this`ngem, gem
      ensures ok <==> |GemOf(n0, n1)| <= 200
      ensures ok ==> ngem <= MAXDEG && gem[..ngem] == GemOf(n0, n1)
      ensures !ok ==> ngem == 0
    {
      ngem := 0;
      var it := cells.adj.First(n0);
      cells.adj.FirstAt(n0);
      ghost var k: nat := cells.adj.Todo(n0);
      ghost var items := if 0 <= n0 < cells.adj.nnode then cells.adj.Items[n0] else [];
      assert items[..|items|] == items && gem[..0] == [];
      ghost var whole, rest := GemOf(n0, n1), GemOf(n0, n1);
      assert rest == Gem(cells.rows, items[..k], n1);
      while it != EMPTY
        invariant cells.adj.At(n0, it, k) && k <= |items| && ngem <= MAXDEG
        invariant gem[..ngem] + rest == whole && rest == Gem(cells.rows, items[..k], n1)
        decreases k
      {
        var cell := cells.adj.Item(n0, it, k);
        cells.adj.PairsInRange(n0, cell);
        assert cells.adj.Pairs[(n0, cell)] == Mentions(cells.rows, n0, cell);
        ghost var named, next := GemStep(cells.rows, items, n1, k - 1, gem[..ngem], whole);
        ok := Collect(cell, n1);
        if !ok {
          ngem := 0;
          return;
        }
        rest := next;
        it := cells.adj.Next(n0, it, k);
        k := k - 1;
      }
      assert items[..0] == [];
      ok := true;
    }

    /** A cell that names n1 goes to the gem, if there is room. */
    method Collect(cell: nat, n1: int) returns (ok: bool)
      requires cell < |cells.rows| && |cells.rows[cell]| == 4 && gem.Length == MAXDEG && ngem <= MAXDEG
      modifies this`ngem, gem
      ensures ngem <= MAXDEG && (ok <==> !IsNamed(cells.rows, cell, n1) || old(ngem) < MAXDEG)
      ensures ok ==> gem[..ngem] == old(gem[..ngem]) + if IsNamed(cells.rows, cell, n1) then [cell] else []
      ensures !ok ==> ngem == old(ngem) && gem[..ngem] == old(gem[..ngem])
    {
      ok := true;
      if HasNode(cell, n1) {
        if ngem >= MAXDEG {
          return false;
        }
        ghost var before := gem[..ngem];
        gem[ngem] := cell;
        ngem := ngem + 1;
        assert gem[..ngem] == before + [cell];
      }
    }

    /** The four comparisons of gridMakeGem. */
    predicate HasNode(cell: nat, n1: int)
      requires cell < |cells.rows| && |cells.rows[cell]| == 4
      reads cells
      ensures HasNode(cell, n1) <==> n1 in cells.rows[cell]
    {
      var row := cells.rows[cell];
      assert row == [row[0], row[1], row[2], row[3]];
      n1 == row[0] || n1 == row[1] || n1 == row[2] || n1 == row[3]
    }

    ghost predicate HasLinks(links: seq<Link>, n0: int, n1: int)
      reads this, gem, cells, cells.adj
    {
      && Valid() && ngem <= MAXDEG && |links| == ngem
      && forall k :: 0 <= k < ngem ==>
           0 <= gem[k] < |cells.rows| && links[k] == LinkOf(cells.rows[gem[k]], n0, n1)
    }

    /** The search for the cell that starts at a node; Functional makes it unique. */
    method FindNext(node: int, n0: int, n1: int, ghost links: seq<Link>) returns (found: bool, next: int, ghost g: int)
      requires HasLinks(links, n0, n1)
      ensures found ==> 0 <= g < |links| && links[g] == (node, next)
      ensures !found ==> IsEnd(links, node)
    {
      found, next, g := false, EMPTY, EMPTY;
      for igem := 0 to ngem
        invariant found ==> 0 <= g < |links| && links[g] == (node, next)
        invariant !found ==> forall i :: 0 <= i < igem ==> links[i].0 != node
      {
        var link := LinkOf(cells.rows[gem[igem]], n0, n1);
        if node == link.0 {
          next, found, g := link.1, true, igem;
        }
      }
    }

    /** The search for the cell that ends at a node. */
    method FindPrevious(node: int, n0: int, n1: int, ghost links: seq<Link>)
      returns (found: bool, previous: int, ghost g: int)
      requires HasLinks(links, n0, n1)
      ensures found ==> 0 <= g < |links| && links[g] == (previous, node)
      ensures !found ==> forall i :: 0 <= i < |links| ==> links[i].1 != node
    {
      found, previous, g := false, EMPTY, EMPTY;
      for igem := 0 to ngem
        invariant found ==> 0 <= g < |links| && links[g] == (previous, node)
        invariant !found ==> forall i :: 0 <= i < igem ==> links[i].1 != node
      {
        var link := LinkOf(cells.rows[gem[igem]], n0, n1);
        if node == link.1 {
          previous, found, g := link.0, true, igem;
        }
      }
    }

    /** The forward loop of gridEquator. */
    method Forward(n0: int, n1: int, ghost links: seq<Link>) returns (gap: bool, ghost walk: seq<int>)
      requires HasLinks(links, n0, n1) && 0 < ngem <= MAXDEG && Functional(links)
      modifies equ
      ensures Chain(links, walk) && walk != [] && walk[0] == 0
      ensures !gap ==> |walk| == ngem + 1 && equ[..ngem + 1] == Ends(links, walk)
      ensures gap ==> |walk| <= ngem && equ[ngem] == links[walk[|walk| - 1]].1 && IsEnd(links, equ[ngem])
    {
      equ[0] := LinkOf(cells.rows[gem[0]], n0, n1).1;
      walk, gap := [0], false;
      assert equ[..1] == Ends(links, walk);
      var iequ := 1;
      while iequ <= ngem && !gap
        invariant 1 <= iequ <= ngem + 1 && Chain(links, walk) && HasLinks(links, n0, n1) && walk != [] && walk[0] == 0
        invariant !gap ==> |walk| == iequ && equ[..iequ] == Ends(links, walk)
        invariant gap ==> 0 < |walk| <= ngem && equ[ngem] == links[walk[|walk| - 1]].1 && IsEnd(links, equ[ngem])
        decreases ngem + 1 - iequ
      {
        var found;
        found, walk := ForwardStep(iequ, n0, n1, links, walk);
        gap := !found;
        iequ := iequ + 1;
      }
    }

    /** One step along the ring, or the end of it. */
    method ForwardStep(iequ: nat, n0: int, n1: int, ghost links: seq<Link>, ghost walk: seq<int>)
      returns (found: bool, ghost longer: seq<int>)
      requires HasLinks(links, n0, n1) && 1 <= iequ <= ngem <= MAXDEG && Functional(links)
      requires Chain(links, walk) && |walk| == iequ && equ[..iequ] == Ends(links, walk)
      modifies equ
      ensures Chain(links, longer) && |longer| >= iequ && longer[..iequ] == walk
      ensures found ==> |longer| == iequ + 1 && equ[..iequ + 1] == Ends(links, longer)
      ensures !found ==>
        longer == walk && |walk| <= ngem && equ[ngem] == links[walk[|walk| - 1]].1 && IsEnd(links, equ[ngem])
    {
      longer := walk;
      ghost var ends := Ends(links, walk);
      assert equ[iequ - 1] == ends[iequ - 1];
      var next;
      ghost var g;
      found, next, g := FindNext(equ[iequ - 1], n0, n1, links);
      if found {
        WalkOn(links, walk, g);
        longer := walk + [g];
        equ[iequ] := next;
        assert equ[..iequ + 1] == ends + [next];
      } else {
        EndedIsDifferent(links, walk);
        equ[ngem] := equ[iequ - 1];
      }
    }

    /** The backward loop of gridEquator. */
    method Backward(n0: int, n1: int, ghost links: seq<Link>, ghost last: int) returns (ok: bool, ghost back: seq<int>)
      requires HasLinks(links, n0, n1) && 0 < ngem <= MAXDEG && Functional(links)
      requires 0 <= last < |links| && equ[ngem] == links[last].1 && IsEnd(links, equ[ngem])
      modifies equ
      ensures ok ==> IsOpenFan(links, back) && equ[ngem] == links[back[ngem - 1]].1
      ensures ok ==> equ[..ngem] == Begins(links, back)
      ensures !ok ==> forall order: seq<int> :: !IsOpenFan(links, order) && !IsRing(links, order)
    {
      back := [];
      ok := true;
      ghost var nodes := equ[ngem..ngem + 1];
      for iequ := ngem downto 0
        invariant HasLinks(links, n0, n1) && equ[ngem] == links[last].1 && IsEnd(links, equ[ngem])
        invariant nodes == equ[iequ..ngem + 1] && |back| == ngem - iequ && IsBack(links, back, nodes)
      {
        ok, back := BackwardStep(iequ, n0, n1, links, back, nodes, last);
        if !ok {
          return;
        }
        nodes := equ[iequ..ngem + 1];
      }
      BackIsFan(links, back, nodes);
      assert equ[..ngem] == nodes[..ngem] && equ[ngem] == nodes[ngem];
    }

    method EnterBefore(iequ: nat, previous: int, ghost nodes: seq<int>)
      requires iequ < ngem < equ.Length && nodes == equ[iequ + 1..ngem + 1]
      modifies equ
      ensures equ[iequ..ngem + 1] == [previous] + nodes && equ[ngem] == old(equ[ngem])
    {
      equ[iequ] := previous;
      assert equ[iequ + 1..ngem + 1] == nodes;
    }

    /** One step back, or proof that the cells are no single fan or ring. */
    method BackwardStep(iequ: nat, n0: int, n1: int, ghost links: seq<Link>, ghost back: seq<int>,
                        ghost nodes: seq<int>, ghost last: int)
      returns (found: bool, ghost longer: seq<int>)
      requires HasLinks(links, n0, n1) && iequ < ngem <= MAXDEG && Functional(links)
      requires 0 <= last < |links| && equ[ngem] == links[last].1 && IsEnd(links, equ[ngem])
      requires nodes == equ[iequ + 1..ngem + 1] && IsBack(links, back, nodes)
      modifies equ
      ensures equ[ngem] == old(equ[ngem])
      ensures found ==> |longer| == |back| + 1 && IsBack(links, longer, equ[iequ..ngem + 1])
      ensures !found ==> forall order: seq<int> :: !IsOpenFan(links, order) && !IsRing(links, order)
    {
      longer := back;
      assert equ[iequ + 1] == nodes[0] && equ[ngem] == nodes[|nodes| - 1];
      var previous;
      ghost var g;
      found, previous, g := FindPrevious(equ[iequ + 1], n0, n1, links);
      if found {
        BackOn(links, back, nodes, g);
        longer := [g] + back;
        EnterBefore(iequ, previous, nodes);
      } else {
        BackIsBroken(links, back, nodes, last);
      }
    }

    /** The loops of gridEquator for a gem within the limits. */
    method Reconstruct(n0: int, n1: int, ghost links: seq<Link>)
      returns (ok: bool, ghost gap: bool, ghost walk: seq<int>)
      requires HasLinks(links, n0, n1) && 0 < ngem && PassesLimits(ngem) && Functional(links)
      requires ngem == MAXDEG ==> forall order: seq<int> :: !IsOpenFan(links, order)
      modifies this`nequ, equ
      ensures Outcome(links, ok, gap, nequ, equ[..], walk)
    {
      ok := true;
      var open;
      open, walk := Forward(n0, n1, links);
      gap := open;
      if open {
        EndedIsOffLoop(links, walk);
        ok, walk := Backward(n0, n1, links, walk[|walk| - 1]);
        if ok {
          FinishPath(links, walk);
        }
      } else {
        LongHasLoop(links, walk);
        LongStartsOnLoop(links, walk);
        FinishCycle(links, walk);
      }
    }

    method FinishPath(ghost links: seq<Link>, ghost walk: seq<int>)
      requires 0 < ngem < MAXDEG - 1 && equ.Length == 2 * MAXDEG && |links| == ngem
      requires IsOpenFan(links, walk) && equ[ngem] == links[walk[ngem - 1]].1 && !OnLoop(links, 0)
      requires equ[..ngem] == Begins(links, walk)
      modifies this`nequ, equ
      ensures Outcome(links, true, true, nequ, equ[..], walk)
    {
      ghost var begins := Begins(links, walk);
      assert forall k :: 0 <= k < ngem ==> equ[k] == begins[k];
      nequ := ngem + 1;
      equ[ngem + 1] := equ[0];
      Double();
      assert IsPathOf(equ[..nequ], links, walk);
    }

    method FinishCycle(ghost links: seq<Link>, ghost walk: seq<int>)
      requires 0 < ngem && PassesLimits(ngem) && equ.Length == 2 * MAXDEG && |links| == ngem
      requires Chain(links, walk) && HasLoop(links) && OnLoop(links, 0) && equ[..ngem + 1] == Ends(links, walk)
      requires walk[0] == 0
      modifies this`nequ, equ
      ensures Outcome(links, true, false, nequ, equ[..], walk)
    {
      nequ := ngem;
      ghost var ends := Ends(links, walk);
      assert forall k :: 0 <= k < ngem ==> equ[k] == ends[k];
      Double();
      assert IsCycleOf(equ[..nequ], links, walk);
    }

    lemma GemLinks(n0: int, n1: int, g: seq<int>, links: seq<Link>)
      requires Valid() && ngem <= MAXDEG && gem[..ngem] == g && (forall k :: 0 <= k < |g| ==> 0 <= g[k] < |cells.rows|)
      requires links == LinksOf(cells.rows, g, n0, n1)
      ensures HasLinks(links, n0, n1)
    {
      assert forall k :: 0 <= k < ngem ==> gem[k] == g[k];
    }

    /** The links of the gem. */
    ghost function Links(n0: int, n1: int): (links: seq<Link>)
      requires Valid()
      reads cells, cells.adj
      ensures |links| == |GemOf(n0, n1)|
    {
      LinksOf(cells.rows, GemOf(n0, n1), n0, n1)
    }

    /** The links of the gem are those of its cells. */
    lemma RunsAroundEdge(n0: int, n1: int, ok: bool, gap: bool, nodes: seq<int>, walk: seq<int>)
      requires Valid() && n0 != n1 && GemOf(n0, n1) != []
      requires ok && Outcome(Links(n0, n1), ok, gap, nequ, nodes, walk)
      ensures RunsAround(cells.rows, GemOf(n0, n1), n0, n1, gap, nequ, nodes, walk)
    {
      var g, links := GemOf(n0, n1), Links(n0, n1);
      GemIsAround(n0, n1);
      forall k | 0 <= k < |g| ensures IsBetween(cells.rows, g[k], n0, n1, links[k].0, links[k].1) {
        assert g[k] in g && IsAround(cells.rows, g[k], n0, n1);
        LinkIsTurned(cells.rows[g[k]], n0, n1, links[k].0, links[k].1);
      }
      OutcomeRunsAround(cells.rows, g, n0, n1, links, gap, nequ, nodes, walk);
    }

    /**
     gridEquator, where each node leads and follows at most once. A single open fan gives its path, a
     single closed ring gives its cycle, and where there is neither, it fails unless the first cell is on
     a loop. An open fan of just MAXDEG cells is left out: equ has no room for its nodes.
     */
    method FindEquator(n0: int, n1: int) returns (ok: bool, ghost gap: bool, ghost walk: seq<int>)
      requires Valid() && n0 != n1 && Functional(Links(n0, n1))
      requires |GemOf(n0, n1)| == MAXDEG ==> forall order: seq<int> :: !IsOpenFan(Links(n0, n1), order)
      modifies this`ngem, this`nequ, gem, equ
      ensures Outcome(Links(n0, n1), ok, gap, nequ, equ[..], walk)
      ensures ok && GemOf(n0, n1) != [] ==>
        RunsAround(cells.rows, GemOf(n0, n1), n0, n1, gap, nequ, equ[..], walk)
    {
      ghost var g, links := GemOf(n0, n1), Links(n0, n1);
      walk, gap := [], false;
      nequ := 0;
      ok := MakeGem(n0, n1);
      assert links == Links(n0, n1);
      if !ok || ngem == MAXDEG - 1 {
        ok := false;
        BeyondLimits(links, gap, nequ, equ[..], walk);
        return;
      }
      if ngem == 0 {
        NothingThere(links, gap, equ[..], walk);
        return;
      }
      GemLinks(n0, n1, g, links);
      ok, gap, walk := Reconstruct(n0, n1, links);
      assert links == Links(n0, n1);
      if ok {
        RunsAroundEdge(n0, n1, ok, gap, equ[..], walk);
      }
    }

    /** The copy that lets users run past the end. */
    method Double()
      requires 2 * nequ <= equ.Length
      modifies equ
      ensures forall k :: 0 <= k < nequ ==> equ[k] == old(equ[k]) && equ[k + nequ] == equ[k]
    {
      for iequ := 0 to nequ
        invariant forall k :: 0 <= k < nequ ==> equ[k] == old(equ[k])
        invariant forall k :: 0 <= k < iequ ==> equ[k + nequ] == old(equ[k])
      {
        equ[iequ + nequ] := equ[iequ];
      }
    }
  }

  lemma ChainGrows(links: seq<Link>, walk: seq<int>, g: int)
    requires Chain(links, walk) && walk != [] && 0 <= g < |links| && links[g].0 == links[walk[|walk| - 1]].1
    ensures Chain(links, walk + [g])
  {
    var chain := walk + [g];
    forall k | 0 < k < |chain| ensures Linked(links, chain, k) {
      if k < |walk| {
        assert Linked(links, walk, k);
      }
    }
  }

  lemma ChainStartsEarlier(links: seq<Link>, back: seq<int>, g: int)
    requires Chain(links, back) && 0 <= g < |links| && (back != [] ==> links[g].1 == links[back[0]].0)
    ensures Chain(links, [g] + back) && Begins(links, [g] + back) == [links[g].0] + Begins(links, back)
  {
    var chain := [g] + back;
    forall k | 0 < k < |chain| ensures Linked(links, chain, k) {
      if k > 1 {
        assert Linked(links, back, k - 1);
      }
    }
  }

  lemma OnceInFour(c: seq<int>, n: int)
    requires FourNodes(c)
    ensures multiset(c)[n] == if n in c then 1 else 0
  {
    assert c == [c[0], c[1], c[2], c[3]];
  }

  lemma TwiceCounted(s: seq<int>, i: nat, j: nat)
    requires i < j < |s| && s[i] == s[j]
    ensures multiset(s)[s[i]] >= 2
  {
    assert s == s[..i] + [s[i]] + s[i + 1..j] + [s[j]] + s[j + 1..];
  }

  lemma {:induction false} OnceEach(s: seq<int>)
    requires forall x :: multiset(s)[x] <= 1
    ensures Different(s)
  {
    forall i, j | 0 <= i < j < |s| ensures s[i] != s[j] {
      if s[i] == s[j] {
        TwiceCounted(s, i, j);
      }
    }
  }

  /** A single ring has no open fan, and a single open fan has no ring. */
  lemma RingOrFan(links: seq<Link>, order: seq<int>, other: seq<int>)
    requires Functional(links) && IsOpenFan(links, order)
    ensures !IsRing(links, other) && !HasLoop(links)
  {
    if IsRing(links, other) {
      RingHasNoEnd(links, other, order[|order| - 1]);
    }
    if HasLoop(links) {
      var loop: seq<int> :| IsLoop(links, loop);
      var chain := Unrolled(links, loop, |links| + 1);
      FanIsShort(links, order, chain);
    }
  }

  /** Going round a loop as often as needed. */
  lemma {:induction false} Unrolled(links: seq<Link>, loop: seq<int>, n: nat) returns (chain: seq<int>)
    requires IsLoop(links, loop) && n >= 1
    ensures Chain(links, chain) && |chain| >= n && chain[|chain| - 1] == loop[|loop| - 1]
    decreases n
  {
    if n <= |loop| {
      chain := loop;
    } else {
      var rest := Unrolled(links, loop, n - |loop|);
      chain := rest + loop;
      forall k | 0 < k < |chain| ensures Linked(links, chain, k) {
        if k < |rest| {
          assert Linked(links, rest, k);
        } else if k > |rest| {
          assert Linked(links, loop, k - |rest|);
        }
      }
    }
  }
}
