/** Constants and sequence facts shared by all components. */
module Common {

  /** The null index, also used for "no node", "no item" and the end of a free list. */
  const EMPTY: int := -1

  /** The largest double, used as a mark for free nodes and as a start value of searches for a minimum. */
  const DBL_MAX: real := 179769313486231570814527423731704356798070567525844996598917476803157260780028538760589558632766878171540458953514382464234321326889464182768467546703537516986049910576551282076245490090389328944075868508455133942304583236903222948165808559332123348274797826204144723168738177180919299881250404026184124858368.0

  /** A handle for opening a predicate that is kept folded. */
  ghost predicate Unfold(u: int) {
    true
  }

  /** The handle for predicates about node numberings. */
  ghost predicate UnfoldIds(u: int) {
    true
  }

  function Max(a: int, b: int): int {
    if a > b then a else b
  }

  function Min(a: int, b: int): int {
    if a < b then a else b
  }

  function Reverse<T>(s: seq<T>): (r: seq<T>)
    ensures |r| == |s|
    ensures forall i :: 0 <= i < |s| ==> r[i] == s[|s| - 1 - i]
  {
    if s == [] then [] else [s[|s| - 1]] + Reverse(s[..|s| - 1])
  }

  /** Reversing a list keeps what it contains. */
  lemma {:induction false} ReverseMultiset<T>(s: seq<T>)
    ensures multiset(Reverse(s)) == multiset(s)
  {
    if s != [] {
      ReverseMultiset(s[..|s| - 1]);
      assert s == s[..|s| - 1] + [s[|s| - 1]];
    }
  }

  /** Total length of a family of lists. */
  ghost function Total<T>(lists: seq<seq<T>>): nat {
    if lists == [] then 0 else Total(lists[..|lists| - 1]) + |lists[|lists| - 1]|
  }

  lemma {:induction false} TotalUpdate<T>(lists: seq<seq<T>>, n: nat, list: seq<T>)
    requires n < |lists|
    ensures Total(lists[n := list]) == Total(lists) - |lists[n]| + |list|
  {
    var m := |lists| - 1;
    if n == m {
      assert lists[n := list][..m] == lists[..m];
    } else {
      assert lists[n := list][..m] == lists[..m][n := list];
      TotalUpdate(lists[..m], n, list);
    }
  }

  lemma {:induction false} TotalSplit<T>(lists: seq<seq<T>>, n: nat)
    requires n <= |lists|
    ensures Total(lists) == Total(lists[..n]) + Total(lists[n..])
  {
    var m := |lists| - 1;
    if n == |lists| {
      assert lists[..n] == lists;
    } else {
      assert lists[..m][..n] == lists[..n];
      assert lists[..m][n..] == lists[n..][..m - n];
      TotalSplit(lists[..m], n);
    }
  }

  lemma TotalOfEmpty<T>(lists: seq<seq<T>>)
    requires forall n :: 0 <= n < |lists| ==> lists[n] == []
    ensures Total(lists) == 0
  {
  }

  lemma MultisetRemoveAt<T>(s: seq<T>, k: nat)
    requires k < |s|
    ensures multiset(s[..k] + s[k + 1..]) == multiset(s) - multiset{s[k]}
    ensures s[k] in multiset(s)
  {
    assert s == s[..k] + [s[k]] + s[k + 1..];
  }

  /** 0 .. n - 1 */
  ghost function Below(n: nat): (s: set<int>)
    ensures |s| == n && forall j :: j in s <==> 0 <= j < n
  {
    if n == 0 then {} else Below(n - 1) + {n - 1}
  }

  /** Different values need room. */
  lemma {:induction false} Pigeonhole<T>(s: seq<T>, room: set<T>)
    requires forall i, j :: 0 <= i < j < |s| ==> s[i] != s[j]
    requires forall i :: 0 <= i < |s| ==> s[i] in room
    ensures |s| <= |room|
  {
    if s != [] {
      var m := |s| - 1;
      forall i | 0 <= i < m ensures s[..m][i] in room - {s[m]} {
      }
      Pigeonhole(s[..m], room - {s[m]});
    }
  }
}
