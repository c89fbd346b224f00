/**
 The pooled adjacency of one/adj.c: for every node a singly linked list of items, all list
 cells taken from one pool. A pointer into the pool is an index into `node2item`, NULL is EMPTY.
 */
module Adjacency {
  import opened Common

  datatype NodeItem = NodeItem(item: int, next: int)

  /**
   Where every pool cell is: on the list of node owner[c], or on the blank list when owner[c] is
   EMPTY, with rank[c] cells behind it.
   */
  datatype Ledger = Ledger(owner: seq<int>, rank: seq<int>, blanks: nat)

  /** The lists a pool implements: the head pointers, and the items with the head's item last. */
  datatype Lists = Lists(first: seq<int>, blank: int, items: seq<seq<int>>)

  ghost predicate Shape(pool: seq<NodeItem>, s: Lists, l: Ledger) {
    |l.owner| == |l.rank| == |pool| && |s.first| == |s.items|
  }

  ghost function Length(s: Lists, l: Ledger, n: int): nat
    requires n == EMPTY || 0 <= n < |s.items|
  {
    if n == EMPTY then l.blanks else |s.items[n]|
  }

  ghost function Head(s: Lists, n: int): int
    requires n == EMPTY || 0 <= n < |s.first|
  {
    if n == EMPTY then s.blank else s.first[n]
  }

  /** A cell has its place on one list, its item, and points to the cell behind it. */
  ghost predicate CellOk(pool: seq<NodeItem>, s: Lists, l: Ledger, c: int)
    requires Shape(pool, s, l) && 0 <= c < |pool|
  {
    && (l.owner[c] == EMPTY || 0 <= l.owner[c] < |s.items|)
    && 0 <= l.rank[c] < Length(s, l, l.owner[c])
    && (l.owner[c] != EMPTY ==> s.items[l.owner[c]][l.rank[c]] == pool[c].item)
    && (if l.rank[c] == 0 then pool[c].next == EMPTY
        else 0 <= pool[c].next < |pool| && l.owner[pool[c].next] == l.owner[c] && l.rank[pool[c].next] == l.rank[c] - 1)
  }

  ghost predicate HeadOk(pool: seq<NodeItem>, s: Lists, l: Ledger, n: int)
    requires Shape(pool, s, l) && (n == EMPTY || 0 <= n < |s.items|)
  {
    var h := Head(s, n);
    if Length(s, l, n) == 0 then h == EMPTY
    else 0 <= h < |pool| && l.owner[h] == n && l.rank[h] == Length(s, l, n) - 1
  }

  /** No two cells share a place. */
  ghost predicate Apart(l: Ledger, c: int, d: int)
    requires |l.owner| == |l.rank| && 0 <= c < |l.owner| && 0 <= d < |l.owner|
  {
    l.owner[c] == l.owner[d] && l.rank[c] == l.rank[d] ==> c == d
  }

  /** The pool implements the lists. Kept folded: `assert Unfold(0)` opens it. */
  ghost predicate Consistent(pool: seq<NodeItem>, s: Lists, l: Ledger) {
    && Shape(pool, s, l)
    && forall u :: Unfold(u) ==> Implements(pool, s, l)
  }

  ghost predicate Implements(pool: seq<NodeItem>, s: Lists, l: Ledger)
    requires Shape(pool, s, l)
  {
    && (forall c :: 0 <= c < |pool| ==> CellOk(pool, s, l, c))
    && (forall n :: EMPTY <= n < |s.items| ==> HeadOk(pool, s, l, n))
    && (forall c, d :: 0 <= c < |pool| && 0 <= d < |pool| ==> Apart(l, c, d))
    && Total(s.items) + l.blanks == |pool|
  }

  /** Removing the occurrence of x nearest the head of a list. */
  ghost function WithoutLast(s: seq<int>, x: int): seq<int>
    requires x in s
  {
    var m := |s| - 1;
    if s[m] == x then s[..m] else WithoutLast(s[..m], x) + [s[m]]
  }

  lemma {:induction false} WithoutLastAt(s: seq<int>, x: int, k: nat)
    requires k < |s| && s[k] == x && forall j :: k < j < |s| ==> s[j] != x
    ensures WithoutLast(s, x) == s[..k] + s[k + 1..]
  {
    var m := |s| - 1;
    if k < m {
      WithoutLastAt(s[..m], x, k);
      assert s[..k] + s[k + 1..] == (s[..m][..k] + s[..m][k + 1..]) + [s[m]];
    }
  }

  /** Moving the first blank cell to the head of a node's list. */
  ghost function PushedLists(s: Lists, node: nat, item: int, next: int): Lists
    requires node < |s.first| && node < |s.items|
  {
    Lists(s.first[node := s.blank], next, s.items[node := s.items[node] + [item]])
  }

  ghost function PushedLedger(s: Lists, l: Ledger, node: nat): Ledger
    requires node < |s.items| && 0 <= s.blank < |l.owner| && s.blank < |l.rank| && l.blanks > 0
  {
    Ledger(l.owner[s.blank := node], l.rank[s.blank := |s.items[node]|], l.blanks - 1)
  }

  lemma CellIs(pool: seq<NodeItem>, s: Lists, l: Ledger, c: nat)
    requires Consistent(pool, s, l) && c < |pool|
    ensures CellOk(pool, s, l, c)
  {
    assert Unfold(0);
  }

  lemma HeadIs(pool: seq<NodeItem>, s: Lists, l: Ledger, n: int)
    requires Consistent(pool, s, l) && EMPTY <= n < |s.items|
    ensures HeadOk(pool, s, l, n)
  {
    assert Unfold(0);
  }

  lemma Conserved(pool: seq<NodeItem>, s: Lists, l: Ledger)
    requires Consistent(pool, s, l)
    ensures Total(s.items) + l.blanks == |pool|
  {
    assert Unfold(0);
  }

  lemma BlankCell(pool: seq<NodeItem>, s: Lists, l: Ledger)
    requires Consistent(pool, s, l)
    ensures s.blank == EMPTY <==> l.blanks == 0
    ensures s.blank != EMPTY ==> 0 <= s.blank < |pool|
  {
    assert Unfold(0);
    assert HeadOk(pool, s, l, EMPTY);
  }

  lemma PushKeepsConsistent(pool: seq<NodeItem>, s: Lists, l: Ledger, node: nat, item: int)
    requires Consistent(pool, s, l)
    requires node < |s.first| && s.blank != EMPTY
    ensures 0 <= s.blank < |pool| && l.blanks > 0
    ensures Consistent(pool[s.blank := NodeItem(item, s.first[node])],
                       PushedLists(s, node, item, pool[s.blank].next), PushedLedger(s, l, node))
  {
    assert Unfold(0);
    var b := s.blank;
    assert HeadOk(pool, s, l, EMPTY) && HeadOk(pool, s, l, node) && CellOk(pool, s, l, b);
    var pool' := pool[b := NodeItem(item, s.first[node])];
    var s' := PushedLists(s, node, item, pool[b].next);
    var l' := PushedLedger(s, l, node);
    TotalUpdate(s.items, node, s'.items[node]);
    forall c | 0 <= c < |pool'| ensures CellOk(pool', s', l', c) {
      assert CellOk(pool, s, l, c) && Apart(l, c, b);
    }
    forall n | EMPTY <= n < |s'.items| ensures HeadOk(pool', s', l', n) {
      assert HeadOk(pool, s, l, n);
    }
    forall c, d | 0 <= c < |pool'| && 0 <= d < |pool'| ensures Apart(l', c, d) {
      assert Apart(l, c, d) && CellOk(pool, s, l, c) && CellOk(pool, s, l, d);
    }
  }

  /** Unlinking a cell from its node's list and returning it to the blank list. */
  ghost function PoppedLedger(l: Ledger, c: nat): Ledger
    requires |l.owner| == |l.rank| && c < |l.owner|
  {
    Ledger(l.owner[c := EMPTY],
           seq(|l.rank|, x requires 0 <= x < |l.rank| =>
             if x == c then l.blanks
             else if l.owner[x] == l.owner[c] && l.rank[x] > l.rank[c] then l.rank[x] - 1
             else l.rank[x]),
           l.blanks + 1)
  }

  /** The list loses the item of the cell; only its head can move, to the cell behind. */
  ghost predicate IsPop(pool: seq<NodeItem>, s: Lists, l: Ledger, c: nat, previous: int, pool': seq<NodeItem>,
                        s': Lists)
    requires Shape(pool, s, l) && c < |pool| && 0 <= l.owner[c] < |s.items|
  {
    var n := l.owner[c];
    && 0 <= l.rank[c] < |s.items[n]|
    && s'.items == s.items[n := s.items[n][..l.rank[c]] + s.items[n][l.rank[c] + 1..]]
    && s'.blank == c
    && |pool'| == |pool|
    && (if previous == EMPTY then
          && s.first[n] == c && s'.first == s.first[n := pool[c].next]
          && pool' == pool[c := NodeItem(EMPTY, s.blank)]
        else
          && 0 <= previous < |pool| && l.owner[previous] == n && l.rank[previous] == l.rank[c] + 1
          && s'.first == s.first
          && pool' == pool[previous := pool[previous].(next := pool[c].next)][c := NodeItem(EMPTY, s.blank)])
  }

  lemma PopCell(pool: seq<NodeItem>, s: Lists, l: Ledger, c: nat, previous: int, pool': seq<NodeItem>, s': Lists,
                x: nat)
    requires Consistent(pool, s, l) && c < |pool| && 0 <= l.owner[c] < |s.items| && x < |pool|
    requires IsPop(pool, s, l, c, previous, pool', s')
    ensures CellOk(pool', s', PoppedLedger(l, c), x)
  {
    assert Unfold(0);
    assert CellOk(pool, s, l, c) && CellOk(pool, s, l, x) && HeadOk(pool, s, l, EMPTY);
    assert HeadOk(pool, s, l, l.owner[c]);
    assert Apart(l, c, x);
    if previous != EMPTY {
      assert Apart(l, previous, x);
    }
    if pool[x].next != EMPTY {
      assert Apart(l, pool[x].next, c);
    }
  }

  lemma PopHead(pool: seq<NodeItem>, s: Lists, l: Ledger, c: nat, previous: int, pool': seq<NodeItem>, s': Lists,
                n: int)
    requires Consistent(pool, s, l) && c < |pool| && 0 <= l.owner[c] < |s.items| && EMPTY <= n < |s.items|
    requires IsPop(pool, s, l, c, previous, pool', s')
    ensures HeadOk(pool', s', PoppedLedger(l, c), n)
  {
    assert Unfold(0);
    assert CellOk(pool, s, l, c) && HeadOk(pool, s, l, n);
    if previous != EMPTY {
      assert CellOk(pool, s, l, previous);
    }
  }

  lemma PopKeepsConsistent(pool: seq<NodeItem>, s: Lists, l: Ledger, c: nat, previous: int, pool': seq<NodeItem>,
                           s': Lists)
    requires Consistent(pool, s, l) && c < |pool| && 0 <= l.owner[c] < |s.items|
    requires IsPop(pool, s, l, c, previous, pool', s')
    ensures Consistent(pool', s', PoppedLedger(l, c))
  {
    assert Unfold(0);
    var n := l.owner[c];
    var l' := PoppedLedger(l, c);
    TotalUpdate(s.items, n, s'.items[n]);
    forall x | 0 <= x < |pool'| ensures CellOk(pool', s', l', x) {
      PopCell(pool, s, l, c, previous, pool', s', x);
    }
    forall m | EMPTY <= m < |s'.items| ensures HeadOk(pool', s', l', m) {
      PopHead(pool, s, l, c, previous, pool', s', m);
    }
    forall x, y | 0 <= x < |pool'| && 0 <= y < |pool'| ensures Apart(l', x, y) {
      assert Apart(l, x, y) && Apart(l, x, c) && Apart(l, y, c) && CellOk(pool, s, l, x) && CellOk(pool, s, l, y);
    }
  }

  /** Lists that are empty may be dropped, and empty ones added. */
  lemma ResizeKeepsConsistent(pool: seq<NodeItem>, s: Lists, l: Ledger, s': Lists)
    requires Consistent(pool, s, l)
    requires |s'.first| == |s'.items| && s'.blank == s.blank
    requires forall n :: 0 <= n < |s'.first| ==>
      if n < |s.first| then s'.first[n] == s.first[n] && s'.items[n] == s.items[n]
      else s'.first[n] == EMPTY && s'.items[n] == []
    requires forall n :: |s'.first| <= n < |s.first| ==> s.items[n] == []
    ensures Consistent(pool, s', l)
  {
    assert Unfold(0);
    var keep := Min(|s.first|, |s'.first|);
    TotalSplit(s.items, keep);
    TotalOfEmpty(s.items[keep..]);
    TotalSplit(s'.items, keep);
    TotalOfEmpty(s'.items[keep..]);
    assert s'.items[..keep] == s.items[..keep];
    forall n | EMPTY <= n < |s'.items| ensures HeadOk(pool, s', l, n) {
      if n < |s.items| {
        assert HeadOk(pool, s, l, n);
      }
    }
    forall c | 0 <= c < |pool| ensures CellOk(pool, s', l, c) {
      assert CellOk(pool, s, l, c);
    }
  }

  /** The pairs (n, s[k]). */
  ghost function ListPairs(n: int, s: seq<int>): multiset<(int, int)> {
    if s == [] then multiset{} else ListPairs(n, s[..|s| - 1]) + multiset{(n, s[|s| - 1])}
  }

  ghost function PairsOf(items: seq<seq<int>>): multiset<(int, int)> {
    if items == [] then multiset{} else PairsOf(items[..|items| - 1]) + ListPairs(|items| - 1, items[|items| - 1])
  }

  lemma {:induction false} ListPairsCount(n: int, s: seq<int>, m: int, i: int)
    ensures ListPairs(n, s)[(m, i)] == if m == n then multiset(s)[i] else 0
  {
    if s != [] {
      ListPairsCount(n, s[..|s| - 1], m, i);
      assert s == s[..|s| - 1] + [s[|s| - 1]];
    }
  }

  lemma {:induction false} PairsOfCount(items: seq<seq<int>>, n: int, i: int)
    ensures PairsOf(items)[(n, i)] == if 0 <= n < |items| then multiset(items[n])[i] else 0
  {
    if items != [] {
      PairsOfCount(items[..|items| - 1], n, i);
      ListPairsCount(|items| - 1, items[|items| - 1], n, i);
    }
  }

  ghost function Count(items: seq<seq<int>>, n: int, i: int): nat {
    if 0 <= n < |items| then multiset(items[n])[i] else 0
  }

  ghost predicate Counts(pairs: multiset<(int, int)>, items: seq<seq<int>>) {
    forall u :: Unfold(u) ==> forall n, i :: pairs[(n, i)] == Count(items, n, i)
  }

  lemma CountsPush(pairs: multiset<(int, int)>, items: seq<seq<int>>, n: nat, i: int)
    requires Counts(pairs, items) && n < |items|
    ensures Counts(pairs + multiset{(n, i)}, items[n := items[n] + [i]])
  {
    assert Unfold(0);
    assert multiset(items[n] + [i]) == multiset(items[n]) + multiset{i};
  }

  lemma CountsPop(pairs: multiset<(int, int)>, items: seq<seq<int>>, n: nat, k: nat)
    requires Counts(pairs, items) && n < |items| && k < |items[n]|
    ensures Counts(pairs - multiset{(n, items[n][k])}, items[n := items[n][..k] + items[n][k + 1..]])
  {
    assert Unfold(0);
    MultisetRemoveAt(items[n], k);
  }

  /** Every list reversed. */
  ghost function Reversed(items: seq<seq<int>>): (r: seq<seq<int>>)
    ensures |r| == |items| && forall n :: 0 <= n < |items| ==> r[n] == Reverse(items[n])
  {
    seq(|items|, n requires 0 <= n < |items| => Reverse(items[n]))
  }

  lemma CountsReversed(pairs: multiset<(int, int)>, items: seq<seq<int>>)
    requires Counts(pairs, items)
    ensures Counts(pairs, Reversed(items))
  {
    assert Unfold(0);
    forall n, i ensures pairs[(n, i)] == Count(Reversed(items), n, i) {
      if 0 <= n < |items| {
        ReverseMultiset(items[n]);
      }
    }
  }

  ghost function BlankLedger(nadj: nat): Ledger {
    Ledger(seq(nadj, _ => EMPTY), seq(nadj, c => nadj - 1 - c), nadj)
  }

  ghost predicate IsBlankPool(pool: seq<NodeItem>) {
    forall c :: 0 <= c < |pool| ==> pool[c] == NodeItem(EMPTY, if c == |pool| - 1 then EMPTY else c + 1)
  }

  lemma BlankIsConsistent(pool: seq<NodeItem>, s: Lists)
    requires IsBlankPool(pool) && |pool| >= 1 && s.blank == 0
    requires |s.first| == |s.items| && forall n :: 0 <= n < |s.first| ==> s.first[n] == EMPTY && s.items[n] == []
    ensures Consistent(pool, s, BlankLedger(|pool|))
  {
    TotalOfEmpty(s.items);
  }

  /** The pairs left when lists past the end are dropped, or empty ones added. */
  ghost function ResizedPairs(pairs: multiset<(int, int)>, items: seq<seq<int>>,
                              items': seq<seq<int>>): (r: multiset<(int, int)>)
    requires Counts(pairs, items)
    requires forall n :: 0 <= n < |items'| ==> items'[n] == if n < |items| then items[n] else []
    ensures Counts(r, items')
    ensures forall n, i :: r[(n, i)] == if n < |items'| then pairs[(n, i)] else 0
    ensures |items'| >= |items| ==> r == pairs
  {
    assert Unfold(0);
    if |items'| >= |items| then
      pairs
    else
      assert forall n, i :: PairsOf(items')[(n, i)] == Count(items', n, i) by {
        forall n, i ensures PairsOf(items')[(n, i)] == Count(items', n, i) {
          PairsOfCount(items', n, i);
        }
      }
      PairsOf(items')
  }

  lemma ReversePrefix(s: seq<int>, k: nat)
    requires k < |s|
    ensures Reverse(s[k..]) == Reverse(s[k + 1..]) + [s[k]]
  {
  }

  lemma {:induction false} SameTotal(a: seq<seq<int>>, b: seq<seq<int>>)
    requires |a| == |b| && forall n :: 0 <= n < |a| ==> |a[n]| == |b[n]|
    ensures Total(a) == Total(b)
  {
    if a != [] {
      SameTotal(a[..|a| - 1], b[..|b| - 1]);
    }
  }

  class Adj {
    var nnode: nat
    var nadj: nat
    var chunkSize: nat
    var node2item: seq<NodeItem>
    var first: seq<int>
    var blank: int
    ghost var ledger: Ledger
    /** The abstract value: Items[n] read from its end is what walking node n's list yields. */
    ghost var Items: seq<seq<int>>
    /** The same as a multiset of (node, item) pairs. */
    ghost var Pairs: multiset<(int, int)>

    ghost function Value(): Lists
      reads this
    {
      Lists(first, blank, Items)
    }

    ghost predicate Valid()
      reads this
    {
      && nnode == |first| == |Items| >= 1
      && nadj == |node2item| == |ledger.owner| == |ledger.rank| >= 1
      && chunkSize >= 1
      && Consistent(node2item, Value(), ledger)
      && Counts(Pairs, Items)
    }

    constructor (nnode: int, nadj: int, chunkSize: int)
      ensures Valid()
      ensures this.nnode == Max(nnode, 1) && this.nadj == Max(nadj, 1) && this.chunkSize == Max(chunkSize, 1)
      ensures Items == seq(this.nnode, _ => []) && Pairs == multiset{} && ledger.blanks == this.nadj
    {
      this.nnode := Max(nnode, 1);
      this.nadj := Max(nadj, 1);
      this.chunkSize := Max(chunkSize, 1);
      var pool := BlankPool(Max(nadj, 1));
      node2item := pool;
      blank := 0;
      var heads := [];
      for node := 0 to Max(nnode, 1)
        invariant |heads| == node && forall n :: 0 <= n < node ==> heads[n] == EMPTY
      {
        heads := heads + [EMPTY];
      }
      first := heads;
      ledger := BlankLedger(|pool|);
      Items := seq(Max(nnode, 1), _ => []);
      Pairs := multiset{};
      new;
      BlankIsConsistent(node2item, Value());
    }

    /** adjAllocateAndInitNode2Item: a new pool, all of it blank. */
    static method BlankPool(nadj: nat) returns (pool: seq<NodeItem>)
      requires nadj >= 1
      ensures |pool| == nadj && IsBlankPool(pool)
    {
      pool := [];
      for i := 0 to nadj - 1
        invariant |pool| == i && forall c :: 0 <= c < i ==> pool[c] == NodeItem(EMPTY, c + 1)
      {
        pool := pool + [NodeItem(EMPTY, i + 1)];
      }
      pool := pool + [NodeItem(EMPTY, EMPTY)];
    }

    /** adjFirst: the head of a node's list, NULL for a node out of range. */
    function First(node: int): int
      requires Valid()
      reads this
    {
      if node < 0 || node >= nnode then EMPTY else first[node]
    }

    /** The iterator `it` has k cells of node's list still to visit, `it` included. */
    ghost predicate At(node: int, it: int, k: nat)
      reads this
    {
      && Valid()
      && (0 <= node < nnode ==> k <= |Items[node]|)
      && (if k == 0 then it == EMPTY
          else 0 <= node < nnode && 0 <= it < nadj && ledger.owner[it] == node && ledger.rank[it] == k - 1)
    }

    ghost function Todo(node: int): nat
      reads this
    {
      if 0 <= node < |Items| then |Items[node]| else 0
    }

    lemma FirstAt(node: int)
      requires Valid()
      ensures At(node, First(node), Todo(node))
    {
      if 0 <= node < nnode {
        HeadIs(node2item, Value(), ledger, node);
      }
    }

    /** adjItem */
    function Item(node: int, it: int, ghost k: nat): (item: int)
      requires At(node, it, k) && it != EMPTY
      reads this
      ensures 0 <= node < nnode && 1 <= k <= |Items[node]| && item == Items[node][k - 1]
    {
      CellIs(node2item, Value(), ledger, it);
      node2item[it].item
    }

    /** adjNext */
    function Next(node: int, it: int, ghost k: nat): (next: int)
      requires At(node, it, k) && it != EMPTY
      reads this
      ensures 0 <= node < nnode && 1 <= k && At(node, next, k - 1)
    {
      CellIs(node2item, Value(), ledger, it);
      node2item[it].next
    }

    lemma PairsInRange(node: int, item: int)
      requires Valid()
      ensures (node, item) in Pairs <==> 0 <= node < nnode && item in Items[node]
    {
      assert Unfold(0);
      assert Pairs[(node, item)] == Count(Items, node, item);
    }

    lemma PairsCount(node: int, item: int)
      requires Valid()
      ensures Pairs[(node, item)] == if 0 <= node < nnode then multiset(Items[node])[item] else 0
    {
      assert Unfold(0);
      assert Pairs[(node, item)] == Count(Items, node, item);
    }

    /** adjRegister: fails only for a node out of range, growing the pool when it is used up. */
    method Register(node: int, item: int) returns (ok: bool)
      requires Valid()
      modifies this
      ensures Valid()
      ensures ok <==> 0 <= node < nnode
      ensures nnode == old(nnode) && chunkSize == old(chunkSize)
      ensures !ok ==> Items == old(Items) && Pairs == old(Pairs) && nadj == old(nadj) && ledger == old(ledger)
      ensures ok ==> Pairs == old(Pairs) + multiset{(node, item)}
      ensures ok ==> ledger.blanks == (if old(ledger.blanks) > 0 then old(ledger.blanks) else chunkSize) - 1
      ensures ok ==> nadj == if old(ledger.blanks) > 0 then old(nadj) else old(nadj) + chunkSize
      ensures ok && old(ledger.blanks) > 0 ==> Items == old(Items)[node := old(Items)[node] + [item]]
      ensures ok && old(ledger.blanks) == 0 ==>
                Items == Reversed(old(Items))[node := Reverse(old(Items)[node]) + [item]]
    {
      if node >= nnode || node < 0 {
        return false;
      }
      BlankCell(node2item, Value(), ledger);
      if blank == EMPTY {
        Grow();
      }
      Push(node, item);
      ok := true;
    }

    /** The pointer updates of adjRegister. */
    method Push(node: nat, item: int)
      requires Valid() && node < nnode && ledger.blanks > 0
      modifies this
      ensures Valid()
      ensures nnode == old(nnode) && nadj == old(nadj) && chunkSize == old(chunkSize)
      ensures Items == old(Items)[node := old(Items)[node] + [item]]
      ensures Pairs == old(Pairs) + multiset{(node, item)} && ledger.blanks == old(ledger.blanks) - 1
    {
      BlankCell(node2item, Value(), ledger);
      PushKeepsConsistent(node2item, Value(), ledger, node, item);
      CountsPush(Pairs, Items, node, item);
      ledger := PushedLedger(Value(), ledger, node);
      Items := Items[node := Items[node] + [item]];
      Pairs := Pairs + multiset{(node, item)};
      var cell := blank;
      blank := node2item[cell].next;
      node2item := node2item[cell := NodeItem(item, first[node])];
      first := first[node := cell];
    }

    /** Recopying every list, cell by cell, into a larger pool: each list comes out reversed. */
    method Grow()
      requires Valid() && ledger.blanks == 0
      modifies this
      ensures Valid()
      ensures nnode == old(nnode) && chunkSize == old(chunkSize) && nadj == old(nadj) + chunkSize
      ensures Items == Reversed(old(Items)) && Pairs == old(Pairs)
      ensures ledger.blanks == chunkSize
    {
      CountsReversed(Pairs, Items);
      var oldnode2item := node2item;
      ghost var s := Value();
      nadj := nadj + chunkSize;
      node2item := BlankPool(nadj);
      blank := 0;
      ghost var l := CopyLists(oldnode2item, s);
      GrownBlanks(oldnode2item, s, ledger, node2item, Lists(first, blank, Reversed(s.items)), l);
      Items := Reversed(Items);
      ledger := l;
    }

    static lemma GrownBlanks(pool: seq<NodeItem>, s: Lists, l: Ledger, pool': seq<NodeItem>, s': Lists, l': Ledger)
      requires Consistent(pool, s, l) && Consistent(pool', s', l') && s'.items == Reversed(s.items)
      ensures l'.blanks == l.blanks + |pool'| - |pool|
    {
      assert Unfold(0);
      SameTotal(s'.items, s.items);
    }

    /** The outer copying loop. */
    method CopyLists(oldnode2item: seq<NodeItem>, ghost s: Lists) returns (ghost l: Ledger)
      requires Consistent(oldnode2item, s, ledger) && ledger.blanks == 0
      requires first == s.first && nnode == |first|
      requires |oldnode2item| < nadj == |node2item|
      requires IsBlankPool(node2item) && blank == 0
      modifies this`blank, this`node2item, this`first
      ensures |first| == nnode && |node2item| == nadj
      ensures Consistent(node2item, Lists(first, blank, Reversed(s.items)), l)
    {
      l := BlankLedger(nadj);
      ghost var items: seq<seq<int>> := [];
      BlankIsConsistent(node2item, Lists([], 0, items));
      for copynode := 0 to nnode
        invariant |first| == nnode && |node2item| == nadj
        invariant forall n :: copynode <= n < nnode ==> first[n] == s.first[n]
        invariant Consistent(node2item, Lists(first[..copynode], blank, items), l)
        invariant items == Reversed(s.items[..copynode])
      {
        assert Reversed(s.items[..copynode + 1]) == items + [Reverse(s.items[copynode])];
        CopiedFits(s.items, items, copynode);
        Conserved(oldnode2item, s, ledger);
        l := CopyList(oldnode2item, copynode, s, l, items);
        items := items + [Reverse(s.items[copynode])];
      }
      assert first[..nnode] == first && s.items[..nnode] == s.items;
    }

    static lemma {:induction false} CopiedFits(list: seq<seq<int>>, items: seq<seq<int>>, n: nat)
      requires n < |list| && items == Reversed(list[..n])
      ensures Total(items) + |list[n]| <= Total(list)
    {
      SameTotal(items, list[..n]);
      TotalSplit(list, n + 1);
      assert list[..n + 1][..n] == list[..n];
    }

    /** The inner copying loop: the new list is filled from the head of the old one. */
    method CopyList(oldnode2item: seq<NodeItem>, copynode: nat, ghost s: Lists, ghost l0: Ledger,
                    ghost items0: seq<seq<int>>)
      returns (ghost l: Ledger)
      requires Consistent(oldnode2item, s, ledger) && ledger.blanks == 0
      requires copynode < |first| == |s.first| && first[copynode] == s.first[copynode]
      requires Consistent(node2item, Lists(first[..copynode], blank, items0), l0)
      requires Total(items0) + |s.items[copynode]| < |node2item|
      modifies this`blank, this`node2item, this`first
      ensures |node2item| == |old(node2item)|
      ensures |first| == |old(first)| && forall n :: 0 <= n < |first| && n != copynode ==> first[n] == old(first)[n]
      ensures Consistent(node2item, Lists(first[..copynode + 1], blank, items0 + [Reverse(s.items[copynode])]), l)
    {
      ghost var list, part := s.items[copynode], [];
      var oldfirst := first[copynode];
      first := first[copynode := EMPTY];
      l := l0;
      ResizeKeepsConsistent(node2item, Lists(old(first)[..copynode], blank, items0), l,
                            Lists(first[..copynode + 1], blank, items0 + [part]));
      ghost var k := |list|;
      HeadIs(oldnode2item, s, ledger, copynode);
      while oldfirst != EMPTY
        invariant |node2item| == |old(node2item)|
        invariant |first| == |old(first)| && forall n :: 0 <= n < |first| && n != copynode ==> first[n] == old(first)[n]
        invariant 0 <= k <= |list|
        invariant k == 0 ==> oldfirst == EMPTY
        invariant k > 0 ==>
          0 <= oldfirst < |oldnode2item| && ledger.owner[oldfirst] == copynode && ledger.rank[oldfirst] == k - 1
        invariant part == Reverse(list[k..])
        invariant Consistent(node2item, Lists(first[..copynode + 1], blank, items0 + [part]), l)
        decreases k
      {
        CellIs(oldnode2item, s, ledger, oldfirst);
        var item := oldnode2item[oldfirst].item;
        ReversePrefix(list, k - 1);
        l := CopyCell(copynode, item, items0, part, l);
        part := part + [item];
        oldfirst := oldnode2item[oldfirst].next;
        k := k - 1;
      }
      assert Reverse(list[0..]) == Reverse(list) by {
        assert list[0..] == list;
      }
    }

    static lemma {:induction false} AppendToLast(items: seq<seq<int>>, part: seq<int>, item: int)
      ensures (items + [part])[|items| := (items + [part])[|items|] + [item]] == items + [part + [item]]
      ensures Total(items + [part]) == Total(items) + |part|
    {
      assert (items + [part])[..|items|] == items;
    }

    /** One copied cell: the next blank cell of the new pool becomes the head of the new list. */
    method CopyCell(copynode: nat, item: int, ghost items0: seq<seq<int>>, ghost part: seq<int>, ghost l: Ledger)
      returns (ghost l': Ledger)
      requires copynode < |first|
      requires Consistent(node2item, Lists(first[..copynode + 1], blank, items0 + [part]), l)
      requires Total(items0) + |part| < |node2item|
      modifies this`blank, this`node2item, this`first
      ensures |node2item| == |old(node2item)|
      ensures |first| == |old(first)| && forall n :: 0 <= n < |first| && n != copynode ==> first[n] == old(first)[n]
      ensures Consistent(node2item, Lists(first[..copynode + 1], blank, items0 + [part + [item]]), l')
    {
      ghost var now := Lists(first[..copynode + 1], blank, items0 + [part]);
      AppendToLast(items0, part, item);
      Conserved(node2item, now, l);
      BlankCell(node2item, now, l);
      PushKeepsConsistent(node2item, now, l, copynode, item);
      ghost var now' := PushedLists(now, copynode, item, node2item[blank].next);
      l' := PushedLedger(now, l, copynode);
      var cell := blank;
      blank := node2item[cell].next;
      node2item := node2item[cell := NodeItem(item, first[copynode])];
      first := first[copynode := cell];
      assert Lists(first[..copynode + 1], blank, items0 + [part + [item]]) == now';
    }

    /** adjRemove: unlinks the matching cell nearest the head; fails exactly when there is none. */
    method Remove(node: int, item: int) returns (ok: bool)
      requires Valid()
      modifies this
      ensures Valid()
      ensures ok <==> (node, item) in old(Pairs)
      ensures nnode == old(nnode) && nadj == old(nadj) && chunkSize == old(chunkSize)
      ensures !ok ==> Items == old(Items) && Pairs == old(Pairs) && ledger == old(ledger)
      ensures ok ==> 0 <= node < nnode && item in old(Items)[node]
      ensures ok ==> Items == old(Items)[node := WithoutLast(old(Items)[node], item)]
      ensures ok ==> Pairs == old(Pairs) - multiset{(node, item)} && ledger.blanks == old(ledger.blanks) + 1
    {
      var it, previous;
      ghost var k;
      it, previous, k := Find(node, item);
      PairsInRange(node, item);
      if it == EMPTY {
        return false;
      }
      WithoutLastAt(Items[node], item, k);
      Unlink(node, it, previous, k);
      ok := true;
    }

    /** The search loop of adjRemove: the first matching cell and the cell before it. */
    method Find(node: int, item: int) returns (it: int, previous: int, ghost k: int)
      requires Valid()
      ensures forall j :: 0 <= k < j < Todo(node) ==> Items[node][j] != item
      ensures it == EMPTY ==> forall j :: 0 <= j < Todo(node) ==> Items[node][j] != item
      ensures it != EMPTY ==> 0 <= k < Todo(node) && Items[node][k] == item && At(node, it, k + 1)
      ensures it != EMPTY ==> IsPrevious(node, previous, k)
    {
      it := First(node);
      FirstAt(node);
      previous := EMPTY;
      ghost var todo: nat := Todo(node);
      k := todo - 1;
      while it != EMPTY
        invariant -1 <= k < Todo(node) && At(node, it, k + 1) && IsPrevious(node, previous, k)
        invariant forall j :: k < j < Todo(node) ==> Items[node][j] != item
        decreases k
      {
        if Item(node, it, k + 1) == item {
          break;
        } else {
          previous := it;
        }
        it := Next(node, it, k + 1);
        k := k - 1;
      }
    }

    /** `previous` is the cell in front of place k of a list, NULL when k is its head. */
    ghost predicate IsPrevious(node: int, previous: int, k: int)
      requires Valid()
      reads this
    {
      if k + 1 == Todo(node) then previous == EMPTY
      else 0 <= previous < nadj && ledger.owner[previous] == node && ledger.rank[previous] == k + 1
    }

    /** The pointer updates shared by adjRemove and the shrinking loop of adjRealloc. */
    method Unlink(node: nat, remove: nat, previous: int, ghost k: nat)
      requires Valid() && node < nnode && k < |Items[node]| && At(node, remove, k + 1) && IsPrevious(node, previous, k)
      modifies this
      ensures Valid()
      ensures nnode == old(nnode) && nadj == old(nadj) && chunkSize == old(chunkSize)
      ensures Items == old(Items)[node := old(Items)[node][..k] + old(Items)[node][k + 1..]]
      ensures Pairs == old(Pairs) - multiset{(node, old(Items)[node][k])} && ledger.blanks == old(ledger.blanks) + 1
    {
      ghost var s' := Lists(if previous == EMPTY then first[node := node2item[remove].next] else first, remove,
                            Items[node := Items[node][..k] + Items[node][k + 1..]]);
      ghost var pool := if previous == EMPTY then node2item
                        else node2item[previous := node2item[previous].(next := node2item[remove].next)];
      UnlinkPops(node2item, Value(), ledger, node, remove, previous, k);
      PopKeepsConsistent(node2item, Value(), ledger, remove, previous, pool[remove := NodeItem(EMPTY, blank)], s');
      CountsPop(Pairs, Items, node, k);
      ghost var l', pairs' := PoppedLedger(ledger, remove), Pairs - multiset{(node, Items[node][k])};
      ghost var pool' := pool[remove := NodeItem(EMPTY, blank)];
      if previous == EMPTY {
        first := first[node := node2item[remove].next];
      } else {
        node2item := node2item[previous := node2item[previous].(next := node2item[remove].next)];
      }
      assert first == s'.first && node2item == pool;
      node2item := node2item[remove := NodeItem(EMPTY, blank)];
      blank := remove;
      Items, Pairs, ledger := s'.items, pairs', l';
      assert node2item == pool' && Value() == s';
    }

    static lemma UnlinkPops(pool: seq<NodeItem>, s: Lists, l: Ledger, node: nat, remove: nat, previous: int, k: nat)
      requires Consistent(pool, s, l) && node < |s.items| && k < |s.items[node]| && remove < |pool|
      requires l.owner[remove] == node && l.rank[remove] == k
      requires if k + 1 == |s.items[node]| then previous == EMPTY
               else 0 <= previous < |pool| && l.owner[previous] == node && l.rank[previous] == k + 1
      ensures IsPop(pool, s, l, remove, previous,
                    (if previous == EMPTY then pool
                     else pool[previous := pool[previous].(next := pool[remove].next)])
                    [remove := NodeItem(EMPTY, s.blank)],
                    Lists(if previous == EMPTY then s.first[node := pool[remove].next] else s.first, remove,
                          s.items[node := s.items[node][..k] + s.items[node][k + 1..]]))
    {
      assert Unfold(0);
      assert CellOk(pool, s, l, remove) && HeadOk(pool, s, l, node);
      if previous == EMPTY {
        assert Apart(l, remove, s.first[node]);
      }
    }

    /** adjRealloc: lists of dropped nodes go back to the blank list, cell by cell. */
    method Realloc(nnodeNew: int)
      requires Valid()
      modifies this
      ensures Valid()
      ensures nnode == Max(nnodeNew, 1) && nadj == old(nadj) && chunkSize == old(chunkSize)
      ensures forall n :: 0 <= n < nnode ==> Items[n] == if n < old(nnode) then old(Items)[n] else []
      ensures forall n, i :: Pairs[(n, i)] == if n < nnode then old(Pairs)[(n, i)] else 0
      ensures nnode >= old(nnode) ==> Pairs == old(Pairs) && ledger.blanks == old(ledger.blanks)
    {
      ghost var items0, pairs0 := Items, Pairs;
      var oldSize, newSize := nnode, Max(nnodeNew, 1);
      if oldSize > newSize {
        ReturnLists(newSize);
      }
      ghost var s' := ResizedLists(Value(), newSize);
      ResizeKeepsConsistent(node2item, Value(), ledger, s');
      ResizeFirst(newSize);
      assert first == s'.first;
      Items := s'.items;
      Pairs := ResizedPairs(pairs0, items0, Items);
    }

    static ghost function ResizedLists(s: Lists, n: nat): (s': Lists)
      requires |s.first| == |s.items|
      ensures s'.blank == s.blank && |s'.first| == |s'.items| == n
      ensures forall m :: 0 <= m < n ==>
        if m < |s.first| then s'.first[m] == s.first[m] && s'.items[m] == s.items[m]
        else s'.first[m] == EMPTY && s'.items[m] == []
    {
      var keep := Min(|s.first|, n);
      Lists(s.first[..keep] + seq(n - keep, _ => EMPTY), s.blank, s.items[..keep] + seq(n - keep, _ => []))
    }

    /** realloc of the head pointers, and NULL for the new ones. */
    method ResizeFirst(newSize: nat)
      modifies this`nnode, this`first
      ensures nnode == newSize == |first|
      ensures forall n :: 0 <= n < newSize ==> first[n] == if n < |old(first)| then old(first)[n] else EMPTY
    {
      nnode := newSize;
      first := first[..Min(|first|, newSize)];
      for node := |first| to newSize
        invariant node == |first|
        invariant forall n :: 0 <= n < node ==> first[n] == if n < |old(first)| then old(first)[n] else EMPTY
        modifies this`first
      {
        first := first + [EMPTY];
      }
    }

    /** The shrinking loop of adjRealloc. */
    method ReturnLists(newSize: nat)
      requires Valid() && newSize < nnode
      modifies this
      ensures Valid()
      ensures nnode == old(nnode) && nadj == old(nadj) && chunkSize == old(chunkSize)
      ensures forall n :: 0 <= n < nnode ==> Items[n] == if n < newSize then old(Items)[n] else []
    {
      for node := newSize to nnode
        invariant Valid()
        invariant nnode == old(nnode) && nadj == old(nadj) && chunkSize == old(chunkSize)
        invariant forall n :: 0 <= n < nnode && !(newSize <= n < node) ==> Items[n] == old(Items)[n]
        invariant forall n :: newSize <= n < node ==> Items[n] == []
      {
        FirstAt(node);
        while first[node] != EMPTY
          invariant Valid()
          invariant nnode == old(nnode) && nadj == old(nadj) && chunkSize == old(chunkSize)
          invariant forall n :: 0 <= n < nnode && !(newSize <= n <= node) ==> Items[n] == old(Items)[n]
          invariant forall n :: newSize <= n < node ==> Items[n] == []
          invariant At(node, first[node], |Items[node]|)
          decreases |Items[node]|
        {
          Unlink(node, first[node], EMPTY, |Items[node]| - 1);
          FirstAt(node);
        }
      }
    }

    /**
     No cell is lost: list lengths and blanks make up the pool, and the k-th place of every list
     is held by at most one cell.
     */
    lemma NoCellLost()
      requires Valid()
      ensures Total(Items) + ledger.blanks == nadj
      ensures forall c :: 0 <= c < nadj ==>
        if ledger.owner[c] == EMPTY then 0 <= ledger.rank[c] < ledger.blanks
        else 0 <= ledger.owner[c] < nnode && 0 <= ledger.rank[c] < |Items[ledger.owner[c]]|
      ensures forall c, d :: 0 <= c < d < nadj ==>
        ledger.owner[c] != ledger.owner[d] || ledger.rank[c] != ledger.rank[d]
    {
      assert Unfold(0);
      forall c | 0 <= c < nadj
        ensures if ledger.owner[c] == EMPTY then 0 <= ledger.rank[c] < ledger.blanks
                else 0 <= ledger.owner[c] < nnode && 0 <= ledger.rank[c] < |Items[ledger.owner[c]]|
      {
        assert CellOk(node2item, Value(), ledger, c);
      }
      forall c, d | 0 <= c < d < nadj
        ensures ledger.owner[c] != ledger.owner[d] || ledger.rank[c] != ledger.rank[d]
      {
        assert Apart(ledger, c, d);
      }
    }

    /** adjExists */
    method Exists(node: int, item: int) returns (exist: bool)
      requires Valid()
      ensures exist <==> (node, item) in Pairs
    {
      var it := First(node);
      FirstAt(node);
      PairsInRange(node, item);
      exist := false;
      ghost var k: nat := Todo(node);
      while !exist && it != EMPTY
        invariant At(node, it, k)
        invariant exist <==> exists j :: k <= j < Todo(node) && Items[node][j] == item
        decreases k
      {
        exist := item == Item(node, it, k);
        it := Next(node, it, k);
        k := k - 1;
      }
    }

    /** adjDegree */
    method Degree(node: int) returns (degree: nat)
      requires Valid()
      ensures degree == if 0 <= node < nnode then |Items[node]| else 0
    {
      degree := 0;
      var it := First(node);
      FirstAt(node);
      ghost var k: nat := Todo(node);
      while it != EMPTY
        invariant At(node, it, k)
        invariant degree + k == Todo(node)
        decreases k
      {
        degree := degree + 1;
        it := Next(node, it, k);
        k := k - 1;
      }
    }
  }
}
