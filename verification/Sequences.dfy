/** Lists of indices, and the sets of what they list. */
module Sequences {

  predicate Within(s: seq<nat>, count: nat) {
    forall i | 0 <= i < |s| :: s[i] < count
  }

  predicate Distinct<T(==)>(s: seq<T>) {
    forall i, j | 0 <= i < j < |s| :: s[i] != s[j]
  }

  /** Positions in order, each below `bound`. */
  predicate Increasing(at: seq<nat>, bound: nat) {
    && (forall i | 0 <= i < |at| :: at[i] < bound)
    && (forall i, j | 0 <= i < j < |at| :: at[i] < at[j])
  }

  function Elements(s: seq<nat>): set<nat> {
    set x | x in s
  }

  lemma {:induction false} ListCount(s: seq<nat>)
    ensures |Elements(s)| <= |s|
    ensures Distinct(s) ==> |Elements(s)| == |s|
  {
    if s != [] {
      var init, last := s[..|s| - 1], s[|s| - 1];
      ListCount(init);
      assert s == init + [last];
      assert Elements(s) == Elements(init) + {last};
    }
  }

  function Sum(s: seq<real>): real {
    if s == [] then 0.0 else s[0] + Sum(s[1..])
  }

  lemma {:induction false} SumExtends(s: seq<real>, x: real)
    ensures Sum(s + [x]) == Sum(s) + x
  {
    if s != [] {
      assert (s + [x])[1..] == s[1..] + [x];
      SumExtends(s[1..], x);
    }
  }

  function SumInts(s: seq<int>): int {
    if s == [] then 0 else s[0] + SumInts(s[1..])
  }

  lemma {:induction false} SumIntsExtends(s: seq<int>, x: int)
    ensures SumInts(s + [x]) == SumInts(s) + x
  {
    if s != [] {
      assert (s + [x])[1..] == s[1..] + [x];
      SumIntsExtends(s[1..], x);
    }
  }

  lemma SubsetCount(part: set<nat>, all: set<nat>)
    requires part <= all
    ensures |part| <= |all|
    ensures |part| == |all| ==> part == all
  {
    assert |all - part| == |all| - |part|;
  }

  lemma {:induction false} RangeCount(count: nat, s: set<nat>)
    requires forall x | x in s :: x < count
    ensures |s| <= count
    ensures |s| == count ==> forall x: nat | x < count :: x in s
  {
    if count > 0 {
      RangeCount(count - 1, s - {count - 1});
      if |s| == count {
        assert count - 1 in s;
        forall x: nat | x < count ensures x in s {
          assert x == count - 1 || x in s - {count - 1};
        }
      }
    }
  }

  /** Positions of a list, each once. */
  predicate Reorders(perm: seq<nat>, n: nat) {
    |perm| == n && Within(perm, n) && Distinct(perm)
  }

  function Ahead(s: seq<nat>): (r: seq<nat>)
    ensures |r| == |s| && forall i | 0 <= i < |s| :: r[i] == s[i] + 1
  {
    seq(|s|, i requires 0 <= i < |s| => s[i] + 1)
  }

  /** The reordering that puts the first entry to place `k`. */
  function PutAt(perm: seq<nat>, k: nat): (r: seq<nat>)
    requires k <= |perm|
    ensures |r| == |perm| + 1 && r[k] == 0
    ensures forall i | 0 <= i < k :: r[i] == perm[i] + 1
    ensures forall i | k < i < |r| :: r[i] == perm[i - 1] + 1
  {
    Ahead(perm)[..k] + [0] + Ahead(perm)[k..]
  }

  lemma PutAtReorders(perm: seq<nat>, k: nat, n: nat)
    requires Reorders(perm, n) && k <= n
    ensures Reorders(PutAt(perm, k), n + 1)
  {
    hide PutAt;
    var r := PutAt(perm, k);
    forall i, j | 0 <= i < j < |r| ensures r[i] != r[j] {
    }
  }

  lemma NothingReorders()
    ensures Reorders([], 0)
  {
  }

  lemma ReorderedWithin(perm: seq<nat>, n: nat)
    requires Reorders(perm, n)
    ensures |perm| == n && forall i | 0 <= i < n :: perm[i] < n
  {
  }

  lemma ReordersAll(perm: seq<nat>, n: nat)
    requires Reorders(perm, n)
    ensures forall q: nat | q < n :: q in perm
  {
    ListCount(perm);
    RangeCount(n, Elements(perm));
    forall q: nat | q < n ensures q in perm {
      assert q in Elements(perm);
    }
  }
}
