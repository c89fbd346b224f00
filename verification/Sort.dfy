/** The index heap sort and the binary search of one/sort.c. */
module Sorting {
  import opened Common

  ghost predicate Ascending(s: seq<int>) {
    forall i, j :: 0 <= i < j < |s| ==> s[i] <= s[j]
  }

  /**
   sortSearch: finds a target in an ascending list. `mid` starts at length / 2, not in the middle of
   the bounds.
   */
  method SortSearch(sorted: seq<int>, target: int) returns (position: int)
    requires Ascending(sorted)
    ensures position == EMPTY ==> target !in sorted
    ensures position != EMPTY ==> 0 <= position < |sorted| && sorted[position] == target
  {
    var length := |sorted|;
    if length < 1 || target < sorted[0] || target > sorted[length - 1] {
      return EMPTY;
    }
    var lower, upper, mid := 0, length - 1, length / 2;
    if target == sorted[lower] {
      return lower;
    }
    if target == sorted[upper] {
      return upper;
    }
    while lower < mid && mid < upper
      invariant 0 <= lower < upper < length && sorted[lower] < target < sorted[upper]
      invariant lower <= mid <= upper
      invariant (mid == (lower + upper) / 2 || (mid == length / 2 && lower == 0 && upper == length - 1))
      decreases upper - lower
    {
      if target >= sorted[mid] {
        if target == sorted[mid] {
          return mid;
        }
        lower := mid;
      } else {
        upper := mid;
      }
      mid := (lower + upper) / 2;
    }
    return EMPTY;
  }

  /** idx lists 0 .. n - 1, each once. */
  ghost predicate Permutation(idx: seq<int>) {
    && (forall i :: 0 <= i < |idx| ==> 0 <= idx[i] < |idx|)
    && (forall i, j :: 0 <= i < j < |idx| ==> idx[i] != idx[j])
  }

  ghost predicate InBounds(a: seq<int>, idx: seq<int>) {
    |idx| == |a| && forall i :: 0 <= i < |idx| ==> 0 <= idx[i] < |a|
  }

  /** The key at heap position k. */
  function Key(a: seq<int>, idx: seq<int>, k: int): int
    requires InBounds(a, idx) && 0 <= k < |idx|
  {
    a[idx[k]]
  }

  function Parent(k: int): (p: int)
    ensures k > 0 ==> 0 <= p < k
  {
    (k - 1) / 2
  }

  /** Position k is no larger than its parent, for parents from lo on. */
  ghost predicate HeapAt(a: seq<int>, idx: seq<int>, lo: int, k: int)
    requires InBounds(a, idx) && 0 < k < |idx| && lo >= 0
  {
    Parent(k) >= lo ==> Key(a, idx, Parent(k)) >= Key(a, idx, k)
  }

  ghost predicate Heap(a: seq<int>, idx: seq<int>, lo: int, ir: int)
    requires InBounds(a, idx) && 0 <= lo && ir < |idx|
  {
    forall k :: 0 < k <= ir ==> HeapAt(a, idx, lo, k)
  }

  /** A heap but for the children of i, which still fit under the parent of i. */
  ghost predicate HoleAt(a: seq<int>, idx: seq<int>, lo: int, ir: int, i: int)
    requires InBounds(a, idx) && 0 <= lo <= i <= ir < |idx|
  {
    && (forall k :: 0 < k <= ir ==> Parent(k) == i || HeapAt(a, idx, lo, k))
    && (forall k :: 0 < k <= ir && Parent(k) == i && i > 0 && Parent(i) >= lo ==>
      Key(a, idx, Parent(i)) >= Key(a, idx, k))
  }

  /** The state of a sift: a heap with a hole, holding indices of `all` up to ir. */
  ghost predicate Sinking(a: seq<int>, h: seq<int>, lo: int, ir: int, i: int, all: set<int>) {
    && InBounds(a, h) && 0 <= lo <= i <= ir < |h|
    && (forall k :: 0 <= k <= ir ==> h[k] in all)
    && forall u :: Unfold(u) ==> HoleAt(a, h, lo, ir, i)
  }

  /** The larger child of i moves up and leaves the hole behind. */
  lemma SiftDown(a: seq<int>, h: seq<int>, lo: int, ir: int, i: int, j: int, all: set<int>)
    requires Sinking(a, h, lo, ir, i, all)
    requires j == 2 * i + 1 || j == 2 * i + 2
    requires j <= ir && Key(a, h, i) < Key(a, h, j)
    requires 2 * i + 1 <= ir ==> Key(a, h, 2 * i + 1) <= Key(a, h, j)
    requires 2 * i + 2 <= ir ==> Key(a, h, 2 * i + 2) <= Key(a, h, j)
    ensures Sinking(a, h[i := h[j]][j := h[i]], lo, ir, j, all)
  {
    assert Unfold(0);
    var h' := h[i := h[j]][j := h[i]];
    forall k | 0 < k <= ir && Parent(k) != j ensures HeapAt(a, h', lo, k) {
      assert Parent(k) == i || HeapAt(a, h, lo, k);
    }
    forall k | 0 < k <= ir && Parent(k) == j ensures Key(a, h', Parent(j)) >= Key(a, h', k) {
      assert HeapAt(a, h, lo, k);
    }
  }

  lemma SiftEnd(a: seq<int>, h: seq<int>, lo: int, ir: int, i: int, j: int, all: set<int>)
    requires Sinking(a, h, lo, ir, i, all) && j >= 0
    requires j > ir ==> j == 2 * i + 1
    requires j <= ir ==> Key(a, h, j) <= Key(a, h, i) && (j == 2 * i + 1 || j == 2 * i + 2)
    requires j <= ir && 2 * i + 1 <= ir ==> Key(a, h, 2 * i + 1) <= Key(a, h, j)
    requires j <= ir && 2 * i + 2 <= ir ==> Key(a, h, 2 * i + 2) <= Key(a, h, j)
    ensures Heap(a, h, lo, ir)
  {
    assert Unfold(0);
    forall k | 0 < k <= ir ensures HeapAt(a, h, lo, k) {
      if Parent(k) == i {
        assert k == 2 * i + 1 || k == 2 * i + 2;
      }
    }
  }

  /** A heap from lo + 1 on is a heap from lo on with a hole at lo. */
  lemma StartSift(a: seq<int>, h: seq<int>, lo: nat, ir: int, all: set<int>)
    requires InBounds(a, h) && lo <= ir < |h| && Heap(a, h, lo + 1, ir)
    requires forall k :: 0 <= k <= ir ==> h[k] in all
    ensures Sinking(a, h, lo, ir, lo, all)
  {
    var next := lo + 1;
    forall k | 0 < k <= ir && Parent(k) != lo ensures HeapAt(a, h, lo, k) {
      assert HeapAt(a, h, next, k);
    }
  }

  /** Positions above ir are ascending and not below anything in the heap. */
  ghost predicate Tail(a: seq<int>, idx: seq<int>, ir: int)
    requires InBounds(a, idx)
  {
    forall i, j :: 0 <= i < j < |idx| && ir < j ==> Key(a, idx, i) <= Key(a, idx, j)
  }

  /** After the root went to position ir and another index to the root. */
  lemma TakenRoot(a: seq<int>, h: seq<int>, ir: int)
    requires InBounds(a, h) && 0 < ir < |h| && Heap(a, h, 0, ir) && Tail(a, h, ir)
    ensures var h' := h[ir := h[0]][0 := h[ir]];
      && multiset(h') == multiset(h)
      && InBounds(a, h') && Tail(a, h', ir - 1)
      && Sinking(a, h', 0, ir - 1, 0, set k | 0 <= k < ir :: h'[k])
  {
    var h' := h[ir := h[0]][0 := h[ir]];
    forall i, j | 0 <= i < j < |h'| && ir - 1 < j ensures Key(a, h', i) <= Key(a, h', j) {
      if ir < j {
        assert Key(a, h, 0) <= Key(a, h, j) && Key(a, h, ir) <= Key(a, h, j);
        assert (i < j ==> Key(a, h, i) <= Key(a, h, j));
      } else {
        RootIsLargest(a, h, ir, i);
        RootIsLargest(a, h, ir, ir);
      }
    }
    forall k | 0 < k <= ir - 1 && Parent(k) != 0 ensures HeapAt(a, h', 0, k) {
      assert HeapAt(a, h, 0, k);
    }
  }

  /** The tail depends on the heap part only as a set. */
  lemma TailKept(a: seq<int>, h: seq<int>, h': seq<int>, ir: int)
    requires InBounds(a, h) && InBounds(a, h') && 0 <= ir < |h| && Tail(a, h, ir)
    requires forall k :: ir < k < |h| ==> h'[k] == h[k]
    requires forall k :: 0 <= k <= ir ==> h'[k] in set m | 0 <= m < ir + 1 :: h[m]
    ensures Tail(a, h', ir)
  {
    forall i, j | 0 <= i < j < |h'| && ir < j ensures Key(a, h', i) <= Key(a, h', j) {
      if i <= ir {
        var m :| 0 <= m < ir + 1 && h'[i] == h[m];
        assert Key(a, h, m) <= Key(a, h, j);
      } else {
        assert Key(a, h, i) <= Key(a, h, j);
      }
    }
  }

  lemma HoleMoves(idx: seq<int>, i: nat, j: nat, indxt: int)
    requires i < |idx| && j < |idx| && i != j
    ensures var h := idx[i := indxt]; idx[i := idx[j]][j := indxt] == h[i := h[j]][j := h[i]]
    ensures multiset(idx[i := idx[j]][j := indxt]) == multiset(idx[i := indxt])
  {
    var h := idx[i := indxt];
    assert idx[i := idx[j]][j := indxt] == h[i := h[j]][j := h[i]];
  }

  /** The child of position i with the larger key, the left one in a tie. */
  function Child(a: seq<int>, idx: seq<int>, i: nat, ir: nat): (j: int)
    requires |a| == |idx| && 2 * i + 1 <= ir < |idx|
    requires forall k :: i < k < |idx| ==> 0 <= idx[k] < |a|
    ensures i < j <= ir && (j == 2 * i + 1 || j == 2 * i + 2)
  {
    var j := 2 * i + 1;
    if j < ir && a[idx[j]] < a[idx[j + 1]] then j + 1 else j
  }

  lemma SiftStep(a: seq<int>, idx: seq<int>, indxt: int, lo: int, ir: int, i: nat, all: set<int>)
    requires i <= ir < |idx| && Sinking(a, idx[i := indxt], lo, ir, i, all) && 2 * i + 1 <= ir
    ensures |a| == |idx| && 0 <= indxt < |a| && forall k :: i < k < |idx| ==> 0 <= idx[k] < |a|
    ensures var j := Child(a, idx, i, ir);
      if a[indxt] < a[idx[j]] then Sinking(a, idx[i := idx[j]][j := indxt], lo, ir, j, all)
      else Heap(a, idx[i := indxt], lo, ir)
  {
    var h := idx[i := indxt];
    assert forall k :: i < k < |idx| ==> h[k] == idx[k];
    var j := Child(a, idx, i, ir);
    HoleMoves(idx, i, j, indxt);
    if a[indxt] < a[idx[j]] {
      SiftDown(a, h, lo, ir, i, j, all);
    } else {
      SiftEnd(a, h, lo, ir, i, j, all);
    }
  }

  /** The inner loop of sortHeap: indxt sinks from position i0 of the range up to ir. */
  method Sift(a: seq<int>, idx0: seq<int>, i0: nat, ir: nat, indxt: int, ghost all: set<int>) returns (idx: seq<int>)
    requires i0 <= ir < |idx0| && Sinking(a, idx0[i0 := indxt], i0, ir, i0, all)
    ensures InBounds(a, idx) && Heap(a, idx, i0, ir)
    ensures multiset(idx) == multiset(idx0[i0 := indxt])
    ensures forall k :: ir < k < |idx| ==> idx[k] == idx0[k]
    ensures forall k :: 0 <= k <= ir ==> idx[k] in all
  {
    idx := idx0;
    var i := i0;
    while 2 * i + 1 <= ir
      invariant i0 <= i <= ir && |idx| == |idx0|
      invariant Sinking(a, idx[i := indxt], i0, ir, i, all)
      invariant multiset(idx[i := indxt]) == multiset(idx0[i0 := indxt])
      invariant forall k :: ir < k < |idx| ==> idx[k] == idx0[k]
      decreases ir - i
    {
      SiftStep(a, idx, indxt, i0, ir, i, all);
      var j := Child(a, idx, i, ir);
      if a[indxt] < a[idx[j]] {
        HoleMoves(idx, i, j, indxt);
        idx := idx[i := idx[j]];
        i := j;
      } else {
        idx := idx[i := indxt];
        return;
      }
    }
    SiftEnd(a, idx[i := indxt], i0, ir, i, 2 * i + 1, all);
    idx := idx[i := indxt];
  }

  /** sortHeap: the index of an ascending order of arrayInput. */
  method SortHeap(arrayInput: seq<int>) returns (sortedIndex: seq<int>)
    ensures |sortedIndex| == |arrayInput| && Permutation(sortedIndex)
    ensures forall i, j :: 0 <= i < j < |arrayInput| ==> arrayInput[sortedIndex[i]] <= arrayInput[sortedIndex[j]]
  {
    var length := |arrayInput|;
    sortedIndex := seq(length, i => i);
    ghost var identity := sortedIndex;
    if length < 2 {
      return;
    }
    var l := length / 2 + 1;
    NoParents(arrayInput, sortedIndex, l - 1, length - 1);
    while l > 1
      invariant 1 <= l <= length / 2 + 1
      invariant multiset(sortedIndex) == multiset(identity)
      invariant InBounds(arrayInput, sortedIndex) && Heap(arrayInput, sortedIndex, l - 1, length - 1)
    {
      l := l - 1;
      ghost var all := set k | 0 <= k < length :: sortedIndex[k];
      assert sortedIndex[l - 1 := sortedIndex[l - 1]] == sortedIndex;
      StartSift(arrayInput, sortedIndex, l - 1, length - 1, all);
      sortedIndex := Sift(arrayInput, sortedIndex, l - 1, length - 1, sortedIndex[l - 1], all);
    }
    var ir := length - 1;
    while ir > 0
      invariant 0 <= ir < length
      invariant multiset(sortedIndex) == multiset(identity)
      invariant InBounds(arrayInput, sortedIndex) && Heap(arrayInput, sortedIndex, 0, ir)
      invariant Tail(arrayInput, sortedIndex, ir)
    {
      sortedIndex := TakeRoot(arrayInput, sortedIndex, ir);
      ir := ir - 1;
    }
    IdentityMultiset(identity, sortedIndex);
    forall i, j | 0 <= i < j < length ensures arrayInput[sortedIndex[i]] <= arrayInput[sortedIndex[j]] {
      assert Key(arrayInput, sortedIndex, i) <= Key(arrayInput, sortedIndex, j);
    }
  }

  lemma NoParents(a: seq<int>, h: seq<int>, lo: int, ir: int)
    requires InBounds(a, h) && ir == |h| - 1 && lo == |h| / 2
    ensures Heap(a, h, lo, ir)
  {
  }

  /** The second phase of sortHeap: the root goes to the end of the heap, the heap shrinks. */
  method TakeRoot(a: seq<int>, h: seq<int>, last: nat) returns (idx: seq<int>)
    requires InBounds(a, h) && 0 < last < |h| && Heap(a, h, 0, last) && Tail(a, h, last)
    ensures multiset(idx) == multiset(h)
    ensures InBounds(a, idx) && Heap(a, idx, 0, last - 1) && Tail(a, idx, last - 1)
  {
    TakenRoot(a, h, last);
    var indxt := h[last];
    idx := h[last := h[0]];
    var ir := last - 1;
    if ir == 0 {
      idx := idx[0 := indxt];
    } else {
      ghost var h' := idx[0 := indxt];
      idx := Sift(a, idx, 0, ir, indxt, set k | 0 <= k < last :: h'[k]);
      TailKept(a, h', idx, ir);
    }
  }

  /** A rearrangement of 0 .. n - 1 is a permutation. */
  lemma IdentityMultiset(identity: seq<int>, idx: seq<int>)
    requires |identity| == |idx| && forall k :: 0 <= k < |identity| ==> identity[k] == k
    requires multiset(idx) == multiset(identity)
    ensures Permutation(idx)
  {
    forall i | 0 <= i < |idx| ensures 0 <= idx[i] < |idx| {
      assert idx[i] in multiset(identity);
    }
    forall i, j | 0 <= i < j < |idx| ensures idx[i] != idx[j] {
      if idx[i] == idx[j] {
        TwiceInMultiset(idx, i, j);
        OnceInMultiset(identity, idx[i]);
      }
    }
  }

  lemma TwiceInMultiset(s: seq<int>, i: nat, j: nat)
    requires i < j < |s| && s[i] == s[j]
    ensures multiset(s)[s[i]] >= 2
  {
    assert s == s[..j] + [s[j]] + s[j + 1..];
    assert s[..j][i] in s[..j];
  }

  lemma OnceInMultiset(s: seq<int>, x: int)
    requires forall i, j :: 0 <= i < j < |s| ==> s[i] != s[j]
    ensures multiset(s)[x] <= 1
  {
    if x in s {
      var i :| 0 <= i < |s| && s[i] == x;
      assert s == s[..i] + [x] + s[i + 1..];
      assert x !in s[..i] && x !in s[i + 1..];
    }
  }

  /** The root of a heap is its largest key. */
  lemma {:induction false} RootIsLargest(a: seq<int>, h: seq<int>, ir: int, k: int)
    requires InBounds(a, h) && 0 <= k <= ir < |h| && Heap(a, h, 0, ir)
    ensures Key(a, h, k) <= Key(a, h, 0)
  {
    if k > 0 {
      assert HeapAt(a, h, 0, k);
      RootIsLargest(a, h, ir, Parent(k));
    }
  }
}
