/**
  `shortest_open_path`: the order in which one day's attractions are visited.

  Up to ten stops are ordered by dynamic programming over bit masks of positions; more stops
  by the nearest-neighbour rule, tried from every start.
 */
module Routing {
  import opened Matrices
  import opened Masks
  import opened Sequences

  /** Every leg between two of the stops can be looked up. */
  predicate Addressable(matrix: Matrix, indices: seq<nat>) {
    forall i, j | 0 <= i < |indices| && 0 <= j < |indices| :: indices[i] < |matrix| && indices[j] < |matrix[indices[i]]|
  }

  /** Travel time along a path, leg by leg from its start. */
  function Length(matrix: Matrix, path: seq<nat>): real
    requires Addressable(matrix, path)
  {
    if |path| <= 1 then 0.0
    else Length(matrix, path[..|path| - 1]) + matrix[path[|path| - 2]][path[|path| - 1]]
  }

  /** The stops at the given positions of the request. */
  function Stops(indices: seq<nat>, positions: seq<nat>): (r: seq<nat>)
    requires Within(positions, |indices|)
    ensures |r| == |positions| && forall i | 0 <= i < |r| :: r[i] == indices[positions[i]]
  {
    seq(|positions|, i requires 0 <= i < |positions| => indices[positions[i]])
  }

  /** A non-empty list of positions below `count`, none repeated. */
  predicate Walk(q: seq<nat>, count: nat) {
    && q != []
    && Distinct(q)
    && Within(q, count)
  }

  function Last(q: seq<nat>): (r: nat)
    requires q != []
    ensures r == q[|q| - 1]
  {
    q[|q| - 1]
  }

  function Init(q: seq<nat>): seq<nat>
    requires q != []
  {
    q[..|q| - 1]
  }

  function MaskOf(q: seq<nat>): nat {
    if q == [] then 0 else WithBit(MaskOf(Init(q)), Last(q))
  }

  lemma {:induction false} MaskOfBits(q: seq<nat>, count: nat)
    requires Within(q, count)
    ensures MaskOf(q) < Pow2(count)
    ensures forall j: nat :: Bit(MaskOf(q), j) <==> j in q
  {
    if q == [] {
      forall j: nat ensures !Bit(0, j) { NoBitOfZero(j); }
    } else {
      MaskOfBits(Init(q), count);
      WithBitGrows(MaskOf(Init(q)), Last(q), count);
      forall j: nat ensures Bit(MaskOf(q), j) <==> j in q {
        WithBitBits(MaskOf(Init(q)), Last(q), j);
        assert q == Init(q) + [Last(q)];
      }
    }
  }

  lemma WalkParts(q: seq<nat>, count: nat)
    requires Walk(q, count) && |q| > 1
    ensures Walk(Init(q), count) && Last(q) !in Init(q)
    ensures MaskOf(Init(q)) < MaskOf(q) < Pow2(count)
    ensures !Bit(MaskOf(Init(q)), Last(q)) && Bit(MaskOf(q), Last(q))
  {
    MaskOfBits(Init(q), count);
    MaskOfBits(q, count);
    WithBitGrows(MaskOf(Init(q)), Last(q), count);
  }

  lemma WalkExtends(q: seq<nat>, count: nat, next: nat)
    requires Walk(q, count) && next < count && !Bit(MaskOf(q), next)
    ensures Walk(q + [next], count)
    ensures Init(q + [next]) == q && Last(q + [next]) == next
    ensures MaskOf(q + [next]) == WithBit(MaskOf(q), next)
    ensures MaskOf(q) < MaskOf(q + [next])
  {
    MaskOfBits(q, count);
    assert Init(q + [next]) == q;
    WithBitGrows(MaskOf(q), next, count);
  }

  // ---------------------------------------------------------------- the table

  type Key = (nat, nat)
  type State = (real, seq<nat>)

  ghost function Cost(indices: seq<nat>, matrix: Matrix, q: seq<nat>): real
    requires Addressable(matrix, indices) && Walk(q, |indices|)
  {
    var stops := Stops(indices, q);
    assert Addressable(matrix, stops);
    Length(matrix, Stops(indices, q))
  }

  lemma CostExtends(indices: seq<nat>, matrix: Matrix, q: seq<nat>)
    requires Addressable(matrix, indices) && Walk(q, |indices|)
    ensures |q| == 1 ==> Cost(indices, matrix, q) == 0.0
    ensures |q| > 1 ==>
              && Walk(Init(q), |indices|)
              && Cost(indices, matrix, q)
                 == Cost(indices, matrix, Init(q)) + matrix[indices[Last(Init(q))]][indices[Last(q)]]
  {
    if |q| > 1 {
      assert Stops(indices, q)[..|q| - 1] == Stops(indices, Init(q));
    }
  }

  /** Every stored path visits exactly the positions of its mask, ends where its key says, and costs what is stored. */
  ghost predicate Sound(indices: seq<nat>, matrix: Matrix, dp: map<Key, State>)
    requires Addressable(matrix, indices)
  {
    forall k | k in dp ::
      && Walk(dp[k].1, |indices|)
      && MaskOf(dp[k].1) == k.0
      && Last(dp[k].1) == k.1
      && dp[k].0 == Cost(indices, matrix, dp[k].1)
  }

  /** The walks whose last step has been relaxed when the loops stand at `(mask, last, next)`. */
  ghost predicate Relaxed(q: seq<nat>, mask: nat, last: nat, next: nat)
    requires q != []
  {
    || |q| == 1
    || MaskOf(Init(q)) < mask
    || (MaskOf(Init(q)) == mask && (Last(Init(q)) < last || (Last(Init(q)) == last && Last(q) < next)))
  }

  /** No relaxed walk is cheaper than what is stored for its mask and end. */
  ghost predicate Complete(indices: seq<nat>, matrix: Matrix, dp: map<Key, State>, mask: nat, last: nat, next: nat)
    requires Addressable(matrix, indices)
  {
    forall q | Walk(q, |indices|) && Relaxed(q, mask, last, next) ::
      (MaskOf(q), Last(q)) in dp && dp[(MaskOf(q), Last(q))].0 <= Cost(indices, matrix, q)
  }

  ghost predicate Table(indices: seq<nat>, matrix: Matrix, dp: map<Key, State>, mask: nat, last: nat, next: nat) {
    && Addressable(matrix, indices)
    && Sound(indices, matrix, dp)
    && Complete(indices, matrix, dp, mask, last, next)
  }

  function StartKey(pos: nat): (k: Key)
    ensures k.1 == pos
  {
    (WithBit(0, pos), pos)
  }

  lemma TableStarts(indices: seq<nat>, matrix: Matrix, dp: map<Key, State>)
    requires Addressable(matrix, indices)
    requires forall k | k in dp :: k.1 < |indices| && k == StartKey(k.1) && dp[k] == (0.0, [k.1])
    requires forall pos: nat | pos < |indices| :: StartKey(pos) in dp
    ensures Table(indices, matrix, dp, 1, 0, 0)
  {
    forall pos: nat | pos < |indices|
        ensures Walk([pos], |indices|) && MaskOf([pos]) == WithBit(0, pos) && Cost(indices, matrix, [pos]) == 0.0 {
      assert Init([pos]) == [];
    }
    forall q | Walk(q, |indices|) && Relaxed(q, 1, 0, 0)
      ensures (MaskOf(q), Last(q)) in dp && dp[(MaskOf(q), Last(q))].0 <= Cost(indices, matrix, q)
    {
      if |q| > 1 {
        MaskOfBits(Init(q), |indices|);
        assert Init(q)[0] in Init(q);
        NoBitOfZero(Init(q)[0]);
        assert false;
      } else {
        assert q == [q[0]];
        assert StartKey(q[0]) in dp;
      }
    }
  }

  /** When a mask is reached, what is stored for it is final. */
  lemma StateIsFinal(indices: seq<nat>, matrix: Matrix, dp: map<Key, State>, mask: nat, last: nat, next: nat,
                     q: seq<nat>)
    requires Table(indices, matrix, dp, mask, last, next)
    requires Walk(q, |indices|) && MaskOf(q) <= mask
    ensures (MaskOf(q), Last(q)) in dp && dp[(MaskOf(q), Last(q))].0 <= Cost(indices, matrix, q)
  {
    if |q| > 1 {
      WalkParts(q, |indices|);
    }
    assert Relaxed(q, mask, last, next);
  }

  /** One execution of the innermost body. */
  function RelaxOne(indices: seq<nat>, matrix: Matrix, dp: map<Key, State>, mask: nat, last: nat, next: nat)
    : map<Key, State>
    requires Addressable(matrix, indices) && last < |indices| && next < |indices| && (mask, last) in dp
  {
    if Bit(mask, next) then dp
    else
      var nextKey := (WithBit(mask, next), next);
      var nextCost := dp[(mask, last)].0 + matrix[indices[last]][indices[next]];
      if nextKey !in dp || nextCost < dp[nextKey].0
      then dp[nextKey := (nextCost, dp[(mask, last)].1 + [next])]
      else dp
  }

  lemma RelaxKeepsSound(indices: seq<nat>, matrix: Matrix, dp: map<Key, State>, mask: nat, last: nat, next: nat)
    requires Addressable(matrix, indices) && Sound(indices, matrix, dp)
    requires last < |indices| && next < |indices| && (mask, last) in dp
    ensures Sound(indices, matrix, RelaxOne(indices, matrix, dp, mask, last, next))
    ensures RelaxOne(indices, matrix, dp, mask, last, next).Keys >= dp.Keys
    ensures forall k | k in dp :: RelaxOne(indices, matrix, dp, mask, last, next)[k].0 <= dp[k].0
    ensures !Bit(mask, next) ==> mask < WithBit(mask, next)
  {
    hide Stops, Length, MaskOf, WithBit, Bit, Pow2, Addressable;
    if !Bit(mask, next) {
      var path := dp[(mask, last)].1;
      WalkExtends(path, |indices|, next);
      CostExtends(indices, matrix, path + [next]);
    }
  }

  lemma StoredCost(indices: seq<nat>, matrix: Matrix, dp: map<Key, State>, mask: nat, last: nat, next: nat, q: seq<nat>)
    requires Table(indices, matrix, dp, mask, last, next)
    requires Walk(q, |indices|) && Relaxed(q, mask, last, next)
    ensures (MaskOf(q), Last(q)) in dp && dp[(MaskOf(q), Last(q))].0 <= Cost(indices, matrix, q)
  {
    hide Sound, Addressable, Cost, Walk, MaskOf;
  }

  /** The one walk family that the step adds: those through `(mask, last)` to `next`. */
  lemma JustRelaxed(indices: seq<nat>, matrix: Matrix, dp: map<Key, State>, mask: nat, last: nat, next: nat,
                    q: seq<nat>)
    requires Addressable(matrix, indices) && Table(indices, matrix, dp, mask, last, next)
    requires last < |indices| && next < |indices| && (mask, last) in dp
    requires Walk(q, |indices|) && |q| > 1 && MaskOf(Init(q)) == mask && Last(Init(q)) == last && Last(q) == next
    ensures var dp1 := RelaxOne(indices, matrix, dp, mask, last, next);
            (MaskOf(q), Last(q)) in dp1 && dp1[(MaskOf(q), Last(q))].0 <= Cost(indices, matrix, q)
  {
    hide Stops, Length, WithBit, Bit, Pow2, Table, Cost, Addressable, Relaxed, Distinct;
    WalkParts(q, |indices|);
    CostExtends(indices, matrix, q);
    StateIsFinal(indices, matrix, dp, mask, last, next, Init(q));
  }

  lemma RelaxKeepsTable(indices: seq<nat>, matrix: Matrix, dp: map<Key, State>, mask: nat, last: nat, next: nat)
    requires Addressable(matrix, indices) && Table(indices, matrix, dp, mask, last, next)
    requires last < |indices| && next < |indices| && (mask, last) in dp
    ensures Table(indices, matrix, RelaxOne(indices, matrix, dp, mask, last, next), mask, last, next + 1)
    ensures !Bit(mask, next) ==> mask < WithBit(mask, next)
  {
    hide Stops, Length, WithBit, Bit, Pow2, MaskOf, RelaxOne, Cost, Addressable, Distinct, Within, Sound;
    var dp1 := RelaxOne(indices, matrix, dp, mask, last, next);
    RelaxKeepsSound(indices, matrix, dp, mask, last, next);
    forall q | Walk(q, |indices|) && Relaxed(q, mask, last, next + 1)
      ensures (MaskOf(q), Last(q)) in dp1 && dp1[(MaskOf(q), Last(q))].0 <= Cost(indices, matrix, q)
    {
      if Relaxed(q, mask, last, next) {
        StoredCost(indices, matrix, dp, mask, last, next, q);
      } else {
        JustRelaxed(indices, matrix, dp, mask, last, next, q);
      }
    }
  }

  /** A mask and end that are not in the table have no walk at all, so skipping them loses nothing. */
  lemma SkipKeepsTable(indices: seq<nat>, matrix: Matrix, dp: map<Key, State>, mask: nat, last: nat)
    requires Table(indices, matrix, dp, mask, last, 0)
    requires (mask, last) !in dp
    ensures Table(indices, matrix, dp, mask, last + 1, 0)
  {
    forall q | Walk(q, |indices|) && Relaxed(q, mask, last + 1, 0)
      ensures Relaxed(q, mask, last, 0)
    {
      if !Relaxed(q, mask, last, 0) {
        WalkParts(q, |indices|);
        StateIsFinal(indices, matrix, dp, mask, last, 0, Init(q));
      }
    }
  }

  lemma RowKeepsTable(indices: seq<nat>, matrix: Matrix, dp: map<Key, State>, mask: nat, last: nat)
    requires Table(indices, matrix, dp, mask, last, |indices|)
    ensures Table(indices, matrix, dp, mask, last + 1, 0)
  {
    forall q | Walk(q, |indices|) && Relaxed(q, mask, last + 1, 0)
      ensures Relaxed(q, mask, last, |indices|)
    {
      assert Last(q) in q;
    }
  }

  lemma MaskKeepsTable(indices: seq<nat>, matrix: Matrix, dp: map<Key, State>, mask: nat)
    requires Table(indices, matrix, dp, mask, |indices|, 0)
    ensures Table(indices, matrix, dp, mask + 1, 0, 0)
  {
    forall q | Walk(q, |indices|) && Relaxed(q, mask + 1, 0, 0)
      ensures Relaxed(q, mask, |indices|, 0)
    {
      if |q| > 1 {
        assert q[|q| - 2] in q;
      }
    }
  }

  /** A permutation of the positions that ends at `last`. */
  function EndingAt(count: nat, last: nat): (q: seq<nat>)
    requires last < count
    ensures Walk(q, count) && |q| == count && Last(q) == last
  {
    seq(count, i requires 0 <= i < count => if i < last then i else if i == count - 1 then last else i + 1)
  }

  lemma SameElements(p: seq<nat>, q: seq<nat>)
    requires Distinct(p) && Distinct(q)
    requires forall x: nat :: x in p <==> x in q
    ensures |p| == |q|
  {
    ListCount(p);
    ListCount(q);
    assert Elements(p) == Elements(q);
  }

  /** A walk as long as the number of positions visits every position. */
  lemma WalkOverAll(q: seq<nat>, count: nat)
    requires Walk(q, count) && |q| == count
    ensures forall x: nat | x < count :: x in q
    ensures MaskOf(q) == Pow2(count) - 1
  {
    ListCount(q);
    RangeCount(count, Elements(q));
    forall x: nat | x < count ensures x in q {
      assert x in Elements(q);
    }
    MaskOfBits(q, count);
    FullMask(MaskOf(q), count);
  }

  /** Once the full mask is done, every end has an entry no dearer than any walk over all positions. */
  lemma FullMaskIsOptimal(indices: seq<nat>, matrix: Matrix, dp: map<Key, State>, q: seq<nat>)
    requires Table(indices, matrix, dp, Pow2(|indices|), 0, 0)
    requires Walk(q, |indices|) && |q| == |indices|
    ensures (Pow2(|indices|) - 1, Last(q)) in dp
    ensures dp[(Pow2(|indices|) - 1, Last(q))].0 <= Cost(indices, matrix, q)
  {
    WalkOverAll(q, |indices|);
    hide Distinct, Within, Addressable, Sound, Complete;
    StateIsFinal(indices, matrix, dp, Pow2(|indices|), 0, 0, q);
  }

  /** A stored walk for the full mask visits every position. */
  lemma FullMaskVisitsAll(q: seq<nat>, count: nat)
    requires Walk(q, count) && MaskOf(q) == Pow2(count) - 1
    ensures |q| == count
  {
    var w := EndingAt(count, Last(q));
    WalkOverAll(w, count);
    MaskOfBits(q, count);
    MaskOfBits(w, count);
    SameElements(q, w);
  }

  // ---------------------------------------------------------------- positions and arrangements

  function Without(s: seq<nat>, k: nat): (r: seq<nat>)
    requires k < |s|
    ensures |r| == |s| - 1
  {
    s[..k] + s[k + 1..]
  }

  lemma WithoutMultiset(s: seq<nat>, k: nat)
    requires k < |s|
    ensures multiset(Without(s, k)) == multiset(s) - multiset{s[k]}
  {
    assert s == s[..k] + [s[k]] + s[k + 1..];
  }

  /** The head of one arrangement occurs in every other, and leaving both out keeps them arrangements of each other. */
  lemma HeadOccurs(s: seq<nat>, t: seq<nat>) returns (k: nat)
    requires multiset(s) == multiset(t) && s != []
    ensures k < |t| && t[k] == s[0]
    ensures multiset(s[1..]) == multiset(Without(t, k))
    ensures |s| == |t|
  {
    assert |multiset(s)| == |s| && |multiset(t)| == |t|;
    assert s[0] in multiset(s);
    k :| 0 <= k < |t| && t[k] == s[0];
    WithoutMultiset(t, k);
    WithoutMultiset(s, 0);
    assert Without(s, 0) == s[1..];
  }

  /** Positions in a list that lacks entry `k`, as positions in the full list, after `k` itself. */
  function Shifted(k: nat, q: seq<nat>): (r: seq<nat>)
    ensures |r| == |q| + 1 && r[0] == k
    ensures forall i | 0 <= i < |q| :: r[i + 1] == if q[i] < k then q[i] else q[i] + 1
  {
    [k] + seq(|q|, i requires 0 <= i < |q| => if q[i] < k then q[i] else q[i] + 1)
  }

  lemma ShiftedDistinct(count: nat, k: nat, q: seq<nat>)
    requires k < count && Within(q, count - 1) && Distinct(q)
    ensures Within(Shifted(k, q), count) && Distinct(Shifted(k, q))
  {
    var r := Shifted(k, q);
    forall i, j | 0 <= i < j < |r| ensures r[i] != r[j] {
      assert r[j] == if q[j - 1] < k then q[j - 1] else q[j - 1] + 1;
      if i > 0 {
        assert r[i] == if q[i - 1] < k then q[i - 1] else q[i - 1] + 1;
      }
    }
    forall i | 0 <= i < |r| ensures r[i] < count {
      if i > 0 {
        assert r[i] == if q[i - 1] < k then q[i - 1] else q[i - 1] + 1;
      }
    }
  }

  lemma ShiftedStops(s: seq<nat>, k: nat, q: seq<nat>)
    requires k < |s| && Within(q, |s| - 1) && Within(Shifted(k, q), |s|)
    ensures Stops(s, Shifted(k, q)) == [s[k]] + Stops(Without(s, k), q)
  {
    hide Shifted, Stops;
    var r := Shifted(k, q);
    forall i | 0 <= i < |r| ensures Stops(s, r)[i] == ([s[k]] + Stops(Without(s, k), q))[i] {
      if i > 0 {
        assert r[i] == if q[i - 1] < k then q[i - 1] else q[i - 1] + 1;
        assert Without(s, k)[q[i - 1]] == s[r[i]];
      }
    }
  }

  /** `q` lists the positions of `s` in the order in which `order` takes them. */
  ghost predicate PositionsOf(s: seq<nat>, order: seq<nat>, q: seq<nat>) {
    |q| == |s| && Within(q, |s|) && Distinct(q) && Stops(s, q) == order
  }

  lemma ShiftedPositions(s: seq<nat>, order: seq<nat>, k: nat, q: seq<nat>)
    requires k < |s| && order != [] && s[k] == order[0]
    requires PositionsOf(Without(s, k), order[1..], q)
    ensures PositionsOf(s, order, Shifted(k, q))
  {
    hide Stops, Shifted, Distinct, Within;
    ShiftedDistinct(|s|, k, q);
    ShiftedStops(s, k, q);
    assert order == [order[0]] + order[1..];
  }

  /** Every arrangement of the stops is a list of all their positions. */
  lemma {:induction false} ArrangementPositions(s: seq<nat>, order: seq<nat>) returns (q: seq<nat>)
    requires multiset(order) == multiset(s)
    ensures PositionsOf(s, order, q)
    decreases |order|
  {
    if order == [] {
      q := [];
      assert |multiset(s)| == 0;
    } else {
      hide PositionsOf;
      var k := HeadOccurs(order, s);
      q := ArrangementPositions(Without(s, k), order[1..]);
      ShiftedPositions(s, order, k, q);
      q := Shifted(k, q);
    }
  }

  lemma {:induction false} DistinctMultiset(q: seq<nat>, x: nat)
    requires Distinct(q)
    ensures multiset(q)[x] == if x in q then 1 else 0
  {
    if q != [] {
      DistinctMultiset(Init(q), x);
      assert q == Init(q) + [Last(q)];
    }
  }

  lemma StopsWithout(indices: seq<nat>, q: seq<nat>, k: nat)
    requires Within(q, |indices|) && k < |q|
    ensures Stops(indices, Without(q, k)) == Without(Stops(indices, q), k)
  {
  }

  lemma {:induction false} StopsMultiset(indices: seq<nat>, p: seq<nat>, q: seq<nat>)
    requires Within(p, |indices|) && Within(q, |indices|)
    requires multiset(p) == multiset(q)
    ensures multiset(Stops(indices, p)) == multiset(Stops(indices, q))
    decreases |p|
  {
    if p == [] {
      assert |multiset(q)| == |q|;
    } else {
      var k := HeadOccurs(p, q);
      StopsMultiset(indices, p[1..], Without(q, k));
      StopsWithout(indices, q, k);
      WithoutMultiset(Stops(indices, q), k);
      assert Stops(indices, p) == [indices[p[0]]] + Stops(indices, p[1..]);
    }
  }

  /** A walk over all positions visits every requested stop exactly as often as it was requested. */
  lemma WalkIsArrangement(indices: seq<nat>, q: seq<nat>)
    requires Walk(q, |indices|) && |q| == |indices|
    ensures multiset(Stops(indices, q)) == multiset(indices)
  {
    var identity := EndingAt(|indices|, |indices| - 1);
    WalkOverAll(q, |indices|);
    WalkOverAll(identity, |indices|);
    var visits: multiset<nat>, once: multiset<nat> := multiset(q), multiset(identity);
    forall x: nat ensures visits[x] == once[x] {
      DistinctMultiset(q, x);
      DistinctMultiset(identity, x);
    }
    assert visits == once;
    StopsMultiset(indices, q, identity);
    assert Stops(indices, identity) == indices;
  }

  // ---------------------------------------------------------------- the dynamic program

  /** Lists of positions in dictionary order, as the program compares equally long routes. */
  predicate LexLess(a: seq<nat>, b: seq<nat>) {
    if a == [] || b == [] then a == [] && b != []
    else a[0] < b[0] || (a[0] == b[0] && LexLess(a[1..], b[1..]))
  }

  predicate StateLess(a: State, b: State) {
    a.0 < b.0 || (a.0 == b.0 && LexLess(a.1, b.1))
  }

  /** One start per position, each a path of its own at no cost. */
  function InitialTable(count: nat): (dp: map<Key, State>)
    ensures forall k | k in dp :: k.1 < count && k == StartKey(k.1) && dp[k] == (0.0, [k.1])
    ensures forall pos: nat | pos < count :: StartKey(pos) in dp
  {
    if count == 0 then map[]
    else InitialTable(count - 1)[StartKey(count - 1) := (0.0, [count - 1])]
  }

  /** The innermost loop over the first `next` positions: extends the path of one mask and end. */
  function RowRelaxed(indices: seq<nat>, matrix: Matrix, dp: map<Key, State>, mask: nat, last: nat, next: nat)
    : (r: map<Key, State>)
    requires Addressable(matrix, indices) && last < |indices| && next <= |indices| && (mask, last) in dp
    ensures (mask, last) in r
  {
    if next == 0 then dp
    else RelaxOne(indices, matrix, RowRelaxed(indices, matrix, dp, mask, last, next - 1), mask, last, next - 1)
  }

  /** The middle loop over the first `last` ends of a mask. */
  function MaskRelaxed(indices: seq<nat>, matrix: Matrix, dp: map<Key, State>, mask: nat, last: nat): map<Key, State>
    requires Addressable(matrix, indices) && last <= |indices|
  {
    if last == 0 then dp
    else
      var before := MaskRelaxed(indices, matrix, dp, mask, last - 1);
      if (mask, last - 1) in before then RowRelaxed(indices, matrix, before, mask, last - 1, |indices|) else before
  }

  /** The outer loop, when it arrives at `mask`. */
  function TableBefore(indices: seq<nat>, matrix: Matrix, mask: nat): map<Key, State>
    requires Addressable(matrix, indices)
  {
    if mask <= 1 then InitialTable(|indices|)
    else MaskRelaxed(indices, matrix, TableBefore(indices, matrix, mask - 1), mask - 1, |indices|)
  }

  lemma {:induction false} RowRelaxedKeeps(indices: seq<nat>, matrix: Matrix, dp: map<Key, State>, mask: nat, last: nat,
                                           next: nat)
    requires Addressable(matrix, indices) && Table(indices, matrix, dp, mask, last, 0)
    requires last < |indices| && next <= |indices| && (mask, last) in dp
    ensures var r := RowRelaxed(indices, matrix, dp, mask, last, next);
            Table(indices, matrix, r, mask, last, next) && r[(mask, last)] == dp[(mask, last)]
  {
    hide Table, Addressable;
    if next > 0 {
      RowRelaxedKeeps(indices, matrix, dp, mask, last, next - 1);
      RelaxKeepsTable(indices, matrix, RowRelaxed(indices, matrix, dp, mask, last, next - 1), mask, last, next - 1);
    }
  }

  lemma {:induction false} MaskRelaxedKeeps(indices: seq<nat>, matrix: Matrix, dp: map<Key, State>, mask: nat,
                                            last: nat)
    requires Addressable(matrix, indices) && Table(indices, matrix, dp, mask, 0, 0) && last <= |indices|
    ensures Table(indices, matrix, MaskRelaxed(indices, matrix, dp, mask, last), mask, last, 0)
  {
    hide Table, Addressable;
    if last > 0 {
      MaskRelaxedKeeps(indices, matrix, dp, mask, last - 1);
      var before := MaskRelaxed(indices, matrix, dp, mask, last - 1);
      if (mask, last - 1) in before {
        RowRelaxedKeeps(indices, matrix, before, mask, last - 1, |indices|);
        RowKeepsTable(indices, matrix, RowRelaxed(indices, matrix, before, mask, last - 1, |indices|), mask, last - 1);
      } else {
        SkipKeepsTable(indices, matrix, before, mask, last - 1);
      }
    }
  }

  /** When the outer loop arrives at a mask, everything that leads to it has been relaxed. */
  lemma {:induction false} TableBeforeIsComplete(indices: seq<nat>, matrix: Matrix, mask: nat)
    requires Addressable(matrix, indices) && mask >= 1
    ensures Table(indices, matrix, TableBefore(indices, matrix, mask), mask, 0, 0)
  {
    hide Table, Addressable;
    if mask == 1 {
      TableStarts(indices, matrix, InitialTable(|indices|));
    } else {
      TableBeforeIsComplete(indices, matrix, mask - 1);
      var before := TableBefore(indices, matrix, mask - 1);
      MaskRelaxedKeeps(indices, matrix, before, mask - 1, |indices|);
      MaskKeepsTable(indices, matrix, MaskRelaxed(indices, matrix, before, mask - 1, |indices|), mask - 1);
    }
  }

  method RelaxAll(indices: seq<nat>, matrix: Matrix, dp0: map<Key, State>, mask: nat, last: nat)
    returns (dp: map<Key, State>)
    requires Addressable(matrix, indices) && Table(indices, matrix, dp0, mask, last, 0)
    requires last < |indices| && (mask, last) in dp0
    ensures dp == RowRelaxed(indices, matrix, dp0, mask, last, |indices|)
  {
    hide Table, WithBit, Bit;
    dp := dp0;
    var (cost, path) := dp[(mask, last)];
    for nextPosition := 0 to |indices|
      invariant dp == RowRelaxed(indices, matrix, dp0, mask, last, nextPosition)
    {
      RowRelaxedKeeps(indices, matrix, dp0, mask, last, nextPosition);
      if !Bit(mask, nextPosition) {
        var nextMask := WithBit(mask, nextPosition);
        var nextCost := cost + matrix[indices[last]][indices[nextPosition]];
        if (nextMask, nextPosition) !in dp || nextCost < dp[(nextMask, nextPosition)].0 {
          dp := dp[(nextMask, nextPosition) := (nextCost, path + [nextPosition])];
        }
      }
    }
  }

  /** The three nested loops: afterwards every mask has been relaxed. */
  method FillTable(indices: seq<nat>, matrix: Matrix) returns (dp: map<Key, State>)
    requires Addressable(matrix, indices) && indices != []
    ensures dp == TableBefore(indices, matrix, Pow2(|indices|))
    ensures Table(indices, matrix, dp, Pow2(|indices|), 0, 0)
  {
    hide Table, RowRelaxed;
    var count := |indices|;
    dp := InitialTable(count);
    for mask := 1 to Pow2(count)
      invariant dp == TableBefore(indices, matrix, mask)
    {
      ghost var dp0 := dp;
      TableBeforeIsComplete(indices, matrix, mask);
      for last := 0 to count
        invariant dp == MaskRelaxed(indices, matrix, dp0, mask, last)
      {
        if (mask, last) in dp {
          MaskRelaxedKeeps(indices, matrix, dp0, mask, last);
          dp := RelaxAll(indices, matrix, dp, mask, last);
        }
      }
    }
    TableBeforeIsComplete(indices, matrix, Pow2(count));
  }

  /** The same stops, each as often, in any order. */
  predicate Arrangement(indices: seq<nat>, order: seq<nat>) {
    multiset(order) == multiset(indices)
  }

  /** What the exact branch promises: a cheapest arrangement of the stops, with its cost. */
  ghost predicate CheapestArrangement(indices: seq<nat>, matrix: Matrix, path: seq<nat>, cost: real) {
    && Addressable(matrix, indices) && Addressable(matrix, path)
    && Arrangement(indices, path)
    && cost == Length(matrix, path)
    && (forall order | Arrangement(indices, order) ::
          Addressable(matrix, order) && cost <= Length(matrix, order))
  }

  function FullKey(count: nat, last: nat): Key {
    (Pow2(count) - 1, last)
  }

  lemma ArrangementCost(indices: seq<nat>, matrix: Matrix, dp: map<Key, State>, order: seq<nat>) returns (last: nat)
    requires Addressable(matrix, indices) && indices != []
    requires Table(indices, matrix, dp, Pow2(|indices|), 0, 0)
    requires Arrangement(indices, order)
    ensures Addressable(matrix, order)
    ensures last < |indices| && FullKey(|indices|, last) in dp
    ensures dp[FullKey(|indices|, last)].0 <= Length(matrix, order)
  {
    hide Table, Stops;
    var q := ArrangementPositions(indices, order);
    assert forall i | 0 <= i < |order| :: order[i] == indices[q[i]];
    FullMaskIsOptimal(indices, matrix, dp, q);
    last := Last(q);
  }

  lemma CheapestFromTable(indices: seq<nat>, matrix: Matrix, dp: map<Key, State>, best: nat, state: State)
    requires Table(indices, matrix, dp, Pow2(|indices|), 0, 0) && best < |indices|
    requires FullKey(|indices|, best) in dp && dp[FullKey(|indices|, best)] == state
    requires forall last: nat | last < |indices| && FullKey(|indices|, last) in dp ::
        state.0 <= dp[FullKey(|indices|, last)].0
    ensures Walk(state.1, |indices|)
    ensures CheapestArrangement(indices, matrix, Stops(indices, state.1), state.0)
  {
    FullMaskVisitsAll(state.1, |indices|);
    WalkIsArrangement(indices, state.1);
    forall order | Arrangement(indices, order)
      ensures Addressable(matrix, order) && state.0 <= Length(matrix, order)
    {
      var last := ArrangementCost(indices, matrix, dp, order);
    }
  }

  /** `min` over the first `n` ends of the full mask: the least cost, then the first in dictionary order. */
  function BestState(dp: map<Key, State>, count: nat, n: nat): (r: State)
    requires 1 <= n && forall last: nat | last < n :: FullKey(count, last) in dp
    ensures forall last: nat | last < n :: r.0 <= dp[FullKey(count, last)].0
    ensures exists last: nat :: last < n && r == dp[FullKey(count, last)]
  {
    if n == 1 then
      assert FullKey(count, 0) in dp;
      dp[FullKey(count, 0)]
    else
      var best := BestState(dp, count, n - 1);
      var state := dp[FullKey(count, n - 1)];
      if StateLess(state, best) then state else best
  }

  lemma FullMaskHasEnds(indices: seq<nat>, matrix: Matrix, dp: map<Key, State>)
    requires Table(indices, matrix, dp, Pow2(|indices|), 0, 0)
    ensures forall last: nat | last < |indices| :: FullKey(|indices|, last) in dp
  {
    hide Table, MaskOf, Pow2, Distinct, Within;
    forall last: nat | last < |indices| ensures FullKey(|indices|, last) in dp {
      FullMaskIsOptimal(indices, matrix, dp, EndingAt(|indices|, last));
    }
  }

  /** The route of the exact branch. */
  function TableRoute(indices: seq<nat>, matrix: Matrix): (r: (seq<nat>, real))
    requires Addressable(matrix, indices) && indices != []
  {
    var count := |indices|;
    var dp := TableBefore(indices, matrix, Pow2(count));
    TableBeforeIsComplete(indices, matrix, Pow2(count));
    FullMaskHasEnds(indices, matrix, dp);
    var state := BestState(dp, count, count);
    BestIsCheapest(indices, matrix, dp, state);
    (Stops(indices, state.1), state.0)
  }

  lemma BestIsCheapest(indices: seq<nat>, matrix: Matrix, dp: map<Key, State>, state: State)
    requires Table(indices, matrix, dp, Pow2(|indices|), 0, 0) && indices != []
    requires forall last: nat | last < |indices| :: FullKey(|indices|, last) in dp
    requires state == BestState(dp, |indices|, |indices|)
    ensures Walk(state.1, |indices|) && CheapestArrangement(indices, matrix, Stops(indices, state.1), state.0)
  {
    hide Table, CheapestArrangement, Walk, Stops;
    var best: nat :| best < |indices| && state == dp[FullKey(|indices|, best)];
    CheapestFromTable(indices, matrix, dp, best, state);
  }

  /** The exact branch's route is a cheapest arrangement of the stops. */
  lemma TableRouteIsCheapest(indices: seq<nat>, matrix: Matrix)
    requires Addressable(matrix, indices) && indices != []
    ensures var (path, cost) := TableRoute(indices, matrix); CheapestArrangement(indices, matrix, path, cost)
  {
    hide Table, CheapestArrangement, BestState;
    var dp := TableBefore(indices, matrix, Pow2(|indices|));
    TableBeforeIsComplete(indices, matrix, Pow2(|indices|));
    FullMaskHasEnds(indices, matrix, dp);
    BestIsCheapest(indices, matrix, dp, BestState(dp, |indices|, |indices|));
  }

  method RouteByTable(indices: seq<nat>, matrix: Matrix) returns (path: seq<nat>, cost: real)
    requires Addressable(matrix, indices) && indices != []
    ensures (path, cost) == TableRoute(indices, matrix)
    ensures CheapestArrangement(indices, matrix, path, cost)
  {
    hide Table, CheapestArrangement, StateLess;
    var count := |indices|;
    var dp := FillTable(indices, matrix);
    FullMaskHasEnds(indices, matrix, dp);
    var best := dp[FullKey(count, 0)];
    for last := 1 to count
      invariant best == BestState(dp, count, last)
    {
      if StateLess(dp[FullKey(count, last)], best) {
        best := dp[FullKey(count, last)];
      }
    }
    BestIsCheapest(indices, matrix, dp, best);
    var (bestCost, positions) := best;
    path, cost := Stops(indices, positions), bestCost;
  }

  // ---------------------------------------------------------------- the nearest-neighbour branch

  /** A path that visits each item of the set once. */
  ghost predicate Tour(items: set<nat>, path: seq<nat>) {
    Distinct(path) && Elements(path) == items
  }

  /** Every leg between two of the items can be looked up. */
  ghost predicate Connected(matrix: Matrix, items: set<nat>) {
    forall x, y | x in items && y in items :: x < |matrix| && y < |matrix[x]|
  }

  lemma ElementsConnected(matrix: Matrix, indices: seq<nat>)
    requires Addressable(matrix, indices)
    ensures Connected(matrix, Elements(indices))
    ensures forall i | 0 <= i < |indices| :: indices[i] in Elements(indices)
  {
    forall x, y | x in Elements(indices) && y in Elements(indices) ensures x < |matrix| && y < |matrix[x]| {
      var i :| 0 <= i < |indices| && indices[i] == x;
      var j :| 0 <= j < |indices| && indices[j] == y;
    }
  }

  /** `next` is a nearest one to the end of `path` among the items not on it. */
  ghost predicate NearestNext(matrix: Matrix, items: set<nat>, path: seq<nat>, next: nat)
    requires Connected(matrix, items) && path != [] && path[|path| - 1] in items && next in items
  {
    forall r | r in items && r !in path :: matrix[path[|path| - 1]][next] <= matrix[path[|path| - 1]][r]
  }

  /** Every step of the path goes to one of the nearest stops not visited yet. */
  ghost predicate NearestFirst(matrix: Matrix, items: set<nat>, path: seq<nat>) {
    && Connected(matrix, items)
    && (forall i | 0 <= i < |path| :: path[i] in items)
    && (forall i | 1 <= i < |path| :: NearestNext(matrix, items, path[..i], path[i]))
  }

  /** The order in which the stops of `indices` that are not on `path` are met when the program iterates the
      set of them. Nothing is known of it, but that it is an order of exactly these stops. */
  type SetOrder = (seq<nat>, seq<nat>) -> seq<nat>

  ghost predicate Iterates(order: SetOrder) {
    forall indices: seq<nat>, path: seq<nat> :: Elements(order(indices, path)) == Elements(indices) - Elements(path)
  }

  /** The stops of `indices` that are not on `path`, as listed. */
  function Remaining(indices: seq<nat>, path: seq<nat>): (r: seq<nat>)
    ensures forall x :: x in r <==> x in indices && x !in path
  {
    if indices == [] then []
    else
      assert indices == Init(indices) + [Last(indices)];
      Remaining(Init(indices), path) + if Last(indices) in path then [] else [Last(indices)]
  }

  /** There are such orders. */
  lemma SomeOrderIterates()
    ensures Iterates(Remaining)
  {
    forall indices: seq<nat>, path: seq<nat>
      ensures Elements(Remaining(indices, path)) == Elements(indices) - Elements(path)
    {
    }
  }

  /** `min` over the listed stops: the first of the nearest ones. */
  function FirstNearest(matrix: Matrix, from: nat, listed: seq<nat>): (next: nat)
    requires listed != [] && from < |matrix|
    requires Within(listed, |matrix[from]|)
    ensures next in listed
    ensures forall r | r in listed :: matrix[from][next] <= matrix[from][r]
  {
    var last := |listed| - 1;
    if last == 0 then listed[0]
    else
      var next := FirstNearest(matrix, from, listed[..last]);
      if matrix[from][listed[last]] < matrix[from][next] then listed[last] else next
  }

  method Nearest(matrix: Matrix, from: nat, listed: seq<nat>) returns (next: nat)
    requires listed != [] && from < |matrix|
    requires Within(listed, |matrix[from]|)
    ensures next == FirstNearest(matrix, from, listed)
  {
    next := listed[0];
    assert listed[..|listed|] == listed;
    for n := 1 to |listed|
      invariant next == FirstNearest(matrix, from, listed[..n])
    {
      assert listed[..n + 1][..n] == listed[..n];
      if matrix[from][listed[n]] < matrix[from][next] {
        next := listed[n];
      }
    }
  }

  lemma ListedAreStops(indices: seq<nat>, order: SetOrder, path: seq<nat>)
    requires Iterates(order)
    ensures forall x :: x in order(indices, path) <==> x in indices && x !in path
  {
    forall x ensures x in order(indices, path) <==> x in indices && x !in path {
      assert x in Elements(order(indices, path)) <==> x in Elements(indices) - Elements(path);
    }
  }

  /** The greedy tour from a start after at most `steps` legs. */
  function TourAfter(indices: seq<nat>, matrix: Matrix, order: SetOrder, start: nat, steps: nat): (path: seq<nat>)
    requires Addressable(matrix, indices) && Iterates(order) && start in indices
    ensures path != [] && path[0] == start && forall x | x in path :: x in indices
  {
    if steps == 0 then [start]
    else
      var path := TourAfter(indices, matrix, order, start, steps - 1);
      var listed := order(indices, path);
      if listed == [] then path
      else
        ListedAreStops(indices, order, path);
        CanLeave(indices, matrix, Last(path), listed);
        path + [FirstNearest(matrix, Last(path), listed)]
  }

  lemma CanLeave(indices: seq<nat>, matrix: Matrix, from: nat, listed: seq<nat>)
    requires Addressable(matrix, indices) && from in indices
    requires forall x | x in listed :: x in indices
    ensures from < |matrix| && Within(listed, |matrix[from]|)
  {
    forall k | 0 <= k < |listed| ensures from < |matrix| && listed[k] < |matrix[from]| {
      var r := listed[k];
      assert r in indices;
      var i :| 0 <= i < |indices| && indices[i] == from;
      var j :| 0 <= j < |indices| && indices[j] == r;
    }
    var i :| 0 <= i < |indices| && indices[i] == from;
    assert indices[i] < |matrix|;
  }

  lemma LengthExtends(matrix: Matrix, path: seq<nat>, next: nat)
    requires path != [] && Addressable(matrix, path + [next])
    requires path[|path| - 1] < |matrix| && next < |matrix[path[|path| - 1]]|
    ensures Addressable(matrix, path)
    ensures Length(matrix, path + [next]) == Length(matrix, path) + matrix[path[|path| - 1]][next]
  {
    forall i, j | 0 <= i < |path| && 0 <= j < |path| ensures path[i] < |matrix| && path[j] < |matrix[path[i]]| {
      assert (path + [next])[i] == path[i] && (path + [next])[j] == path[j];
    }
    assert (path + [next])[..|path|] == path;
  }

  /** A nearest-neighbour path under way: what it has visited and what remains. */
  ghost predicate Touring(matrix: Matrix, items: set<nat>, path: seq<nat>, remaining: set<nat>) {
    && path != [] && Distinct(path)
    && NearestFirst(matrix, items, path)
    && (forall x :: x in remaining <==> x in items && x !in path)
  }

  lemma NearestStep(matrix: Matrix, items: set<nat>, path: seq<nat>, next: nat)
    requires path != [] && NearestFirst(matrix, items, path) && next in items && path[|path| - 1] in items
    requires NearestNext(matrix, items, path, next)
    ensures NearestFirst(matrix, items, path + [next])
  {
    hide NearestNext;
    var path1 := path + [next];
    forall i | 1 <= i < |path1| ensures NearestNext(matrix, items, path1[..i], path1[i]) {
      assert path1[..i] == path[..i];
      if i == |path| {
        assert path[..i] == path;
      }
    }
  }

  lemma TouringStep(matrix: Matrix, items: set<nat>, path: seq<nat>, remaining: set<nat>, next: nat)
    requires Touring(matrix, items, path, remaining)
    requires next in remaining
    requires path[|path| - 1] in items && Connected(matrix, items)
    requires forall r | r in remaining :: matrix[path[|path| - 1]][next] <= matrix[path[|path| - 1]][r]
    ensures Touring(matrix, items, path + [next], remaining - {next})
  {
    assert NearestNext(matrix, items, path, next);
    NearestStep(matrix, items, path, next);
    hide NearestFirst, NearestNext;
    assert forall x :: x in path + [next] <==> x in path || x == next;
  }

  lemma TouringStarts(matrix: Matrix, items: set<nat>, start: nat)
    requires start in items && Connected(matrix, items)
    ensures Touring(matrix, items, [start], items - {start})
    ensures Addressable(matrix, [start]) && Length(matrix, [start]) == 0.0
  {
  }

  /** The path's length grows by the leg to `next`. */
  lemma TouringLeg(matrix: Matrix, items: set<nat>, path: seq<nat>, remaining: set<nat>, next: nat)
    requires Touring(matrix, items, path, remaining)
    requires next in remaining
    ensures Addressable(matrix, path) && Addressable(matrix, path + [next])
    ensures path[|path| - 1] < |matrix| && next < |matrix[path[|path| - 1]]|
    ensures Length(matrix, path + [next]) == Length(matrix, path) + matrix[path[|path| - 1]][next]
  {
    assert path[|path| - 1] in items;
    LengthExtends(matrix, path, next);
  }

  lemma TouringEnds(matrix: Matrix, items: set<nat>, path: seq<nat>)
    requires Touring(matrix, items, path, {})
    ensures Tour(items, path) && NearestFirst(matrix, items, path)
  {
    forall x | x in items ensures x in path {
      assert x !in {};
    }
  }

  /** Every state of the greedy walk is a nearest-neighbour path under way, one leg longer each time. */
  lemma {:induction false} TourAfterKeeps(indices: seq<nat>, matrix: Matrix, order: SetOrder, start: nat, steps: nat)
    requires Addressable(matrix, indices) && Iterates(order) && start in indices
    ensures var path := TourAfter(indices, matrix, order, start, steps);
            && Touring(matrix, Elements(indices), path, Elements(indices) - Elements(path))
            && (|path| == steps + 1 || order(indices, path) == [])
  {
    hide Touring, Addressable, Iterates, Distinct;
    ElementsConnected(matrix, indices);
    if steps == 0 {
      TouringStarts(matrix, Elements(indices), start);
      assert Elements([start]) == {start};
    } else {
      TourAfterKeeps(indices, matrix, order, start, steps - 1);
      var path := TourAfter(indices, matrix, order, start, steps - 1);
      var listed := order(indices, path);
      if listed != [] {
        ListedAreStops(indices, order, path);
        CanLeave(indices, matrix, Last(path), listed);
        var next := FirstNearest(matrix, Last(path), listed);
        TouringStep(matrix, Elements(indices), path, Elements(indices) - Elements(path), next);
        assert Elements(path + [next]) == Elements(path) + {next};
        assert Elements(indices) - Elements(path) - {next} == Elements(indices) - Elements(path + [next]);
      }
    }
  }

  /** Once nothing remains, further steps change nothing. */
  lemma {:induction false} TourStays(indices: seq<nat>, matrix: Matrix, order: SetOrder, start: nat, steps: nat,
                                     later: nat)
    requires Addressable(matrix, indices) && Iterates(order) && start in indices && steps <= later
    requires order(indices, TourAfter(indices, matrix, order, start, steps)) == []
    ensures TourAfter(indices, matrix, order, start, later) == TourAfter(indices, matrix, order, start, steps)
  {
    hide Addressable, Iterates;
    if steps < later {
      TourStays(indices, matrix, order, start, steps, later - 1);
    }
  }

  /** As many steps as there are stops visit all of them. */
  lemma TourEnds(indices: seq<nat>, matrix: Matrix, order: SetOrder, start: nat)
    requires Addressable(matrix, indices) && Iterates(order) && start in indices
    ensures var path := TourAfter(indices, matrix, order, start, |indices|);
            && Tour(Elements(indices), path) && NearestFirst(matrix, Elements(indices), path)
            && Addressable(matrix, path)
            && order(indices, path) == []
  {
    hide Tour, NearestFirst, Iterates, Addressable, TourAfter;
    var path := TourAfter(indices, matrix, order, start, |indices|);
    var remaining := Elements(indices) - Elements(path);
    TourAfterKeeps(indices, matrix, order, start, |indices|);
    ListCount(path);
    ListCount(indices);
    assert Elements(path) <= Elements(indices);
    SubsetCount(Elements(path), Elements(indices));
    assert order(indices, path) == [];
    ListedAreStops(indices, order, path);
    assert remaining == {} by {
      assert forall x | x in indices :: x !in order(indices, path);
    }
    TouringEnds(matrix, Elements(indices), path);
    StopsAddressable(matrix, indices, path);
  }

  lemma StopsAddressable(matrix: Matrix, indices: seq<nat>, path: seq<nat>)
    requires Addressable(matrix, indices) && forall x | x in path :: x in indices
    ensures Addressable(matrix, path)
  {
    hide Addressable;
    ElementsConnected(matrix, indices);
    ConnectedAddressable(matrix, Elements(indices), path);
  }

  lemma ConnectedAddressable(matrix: Matrix, items: set<nat>, path: seq<nat>)
    requires Connected(matrix, items) && forall x | x in path :: x in items
    ensures Addressable(matrix, path)
  {
    forall i, j | 0 <= i < |path| && 0 <= j < |path| ensures path[i] < |matrix| && path[j] < |matrix[path[i]]| {
      assert path[i] in items && path[j] in items;
    }
  }

  method TourFrom(indices: seq<nat>, matrix: Matrix, order: SetOrder, start: nat) returns (path: seq<nat>, cost: real)
    requires Addressable(matrix, indices) && Iterates(order) && start in indices
    ensures path == TourAfter(indices, matrix, order, start, |indices|)
    ensures path != [] && path[0] == start
    ensures Tour(Elements(indices), path) && NearestFirst(matrix, Elements(indices), path)
    ensures Addressable(matrix, path) && cost == Length(matrix, path)
  {
    hide Touring, Tour, NearestFirst, Addressable, Length, Iterates, FirstNearest, Distinct;
    var remaining := Elements(indices) - {start};
    path, cost := [start], 0.0;
    ghost var steps := 0;
    CanLeave(indices, matrix, start, [start]);
    assert [start][0] == start;
    SingleStop(matrix, start);
    while remaining != {}
      invariant path == TourAfter(indices, matrix, order, start, steps)
      invariant remaining == Elements(indices) - Elements(path)
      invariant Addressable(matrix, path) && cost == Length(matrix, path)
      decreases remaining
    {
      ListedAreStops(indices, order, path);
      var listed := order(indices, path);
      var some :| some in remaining;
      assert some in listed;
      CanLeave(indices, matrix, Last(path), listed);
      var next := Nearest(matrix, path[|path| - 1], listed);
      TourAfterKeeps(indices, matrix, order, start, steps);
      TouringLeg(matrix, Elements(indices), path, remaining, next);
      assert Elements(path + [next]) == Elements(path) + {next};
      cost := cost + matrix[path[|path| - 1]][next];
      path := path + [next];
      remaining := remaining - {next};
      steps := steps + 1;
    }
    ListedAreStops(indices, order, path);
    NothingListed(indices, order, path);
    TourIsDone(indices, matrix, order, start, steps);
  }

  lemma SingleStop(matrix: Matrix, start: nat)
    requires start < |matrix| && start < |matrix[start]|
    ensures Addressable(matrix, [start]) && Length(matrix, [start]) == 0.0
  {
  }

  lemma NothingListed(indices: seq<nat>, order: SetOrder, path: seq<nat>)
    requires Iterates(order) && Elements(indices) - Elements(path) == {}
    ensures order(indices, path) == []
  {
    SomeElement(order(indices, path));
  }

  lemma SomeElement(s: seq<nat>)
    ensures Elements(s) == {} <==> s == []
  {
    if s != [] {
      assert s[0] in Elements(s);
    }
  }

  lemma TourIsDone(indices: seq<nat>, matrix: Matrix, order: SetOrder, start: nat, steps: nat)
    requires Addressable(matrix, indices) && Iterates(order) && start in indices
    requires order(indices, TourAfter(indices, matrix, order, start, steps)) == []
    ensures TourAfter(indices, matrix, order, start, |indices|) == TourAfter(indices, matrix, order, start, steps)
    ensures var path := TourAfter(indices, matrix, order, start, |indices|);
            Tour(Elements(indices), path) && NearestFirst(matrix, Elements(indices), path)
  {
    hide Addressable, Iterates, Tour, NearestFirst, TourAfter;
    TourEnds(indices, matrix, order, start);
    if steps <= |indices| {
      TourStays(indices, matrix, order, start, steps, |indices|);
    } else {
      TourStays(indices, matrix, order, start, |indices|, steps);
    }
  }

  /** What the nearest-neighbour branch promises of the first `count` starts: `path` is the cheapest
      of one nearest-neighbour tour per start. */
  ghost predicate BestTour(starts: seq<nat>, count: nat, items: set<nat>, matrix: Matrix, path: seq<nat>, cost: real,
                           tried: seq<seq<nat>>)
  {
    && |tried| == count <= |starts|
    && (forall i | 0 <= i < count ::
          && tried[i] != [] && tried[i][0] == starts[i]
          && Tour(items, tried[i])
          && NearestFirst(matrix, items, tried[i])
          && Addressable(matrix, tried[i])
          && cost <= Length(matrix, tried[i]))
    && path in tried
    && Addressable(matrix, path) && cost == Length(matrix, path)
  }

  /** One more start: its tour joins the tried ones and replaces the best if it is shorter. */
  lemma BestTourStep(starts: seq<nat>, count: nat, items: set<nat>, matrix: Matrix, path: seq<nat>, cost: real,
                     tried: seq<seq<nat>>, path1: seq<nat>, cost1: real)
    requires count < |starts|
    requires if count == 0 then tried == [] else BestTour(starts, count, items, matrix, path, cost, tried)
    requires path1 != [] && path1[0] == starts[count] && Tour(items, path1) && NearestFirst(matrix, items, path1)
    requires Addressable(matrix, path1) && cost1 == Length(matrix, path1)
    ensures count == 0 || cost1 < cost ==> BestTour(starts, count + 1, items, matrix, path1, cost1, tried + [path1])
    ensures count != 0 && cost1 >= cost ==> BestTour(starts, count + 1, items, matrix, path, cost, tried + [path1])
  {
    hide Tour, NearestFirst, Addressable, Length;
    var tried1 := tried + [path1];
    assert path1 == tried1[|tried|];
    assert path in tried ==> path in tried1;
  }

  /** The cheapest of the greedy tours from the first `count` starts, the first of equally cheap ones. */
  function NearestRoute(indices: seq<nat>, matrix: Matrix, order: SetOrder, count: nat): (r: (seq<nat>, real))
    requires Addressable(matrix, indices) && Iterates(order) && 1 <= count <= |indices|
  {
    TourEnds(indices, matrix, order, indices[count - 1]);
    var path := TourAfter(indices, matrix, order, indices[count - 1], |indices|);
    var cost := Length(matrix, path);
    if count == 1 then (path, cost)
    else
      var best := NearestRoute(indices, matrix, order, count - 1);
      if cost < best.1 then (path, cost) else best
  }

  lemma {:induction false} NearestRouteIsBest(indices: seq<nat>, matrix: Matrix, order: SetOrder, count: nat)
    returns (tried: seq<seq<nat>>)
    requires Addressable(matrix, indices) && Iterates(order) && 1 <= count <= |indices|
    ensures var (path, cost) := NearestRoute(indices, matrix, order, count);
            BestTour(indices, count, Elements(indices), matrix, path, cost, tried)
  {
    hide Addressable, Iterates, BestTour, Tour, NearestFirst, Length, TourAfter, Elements;
    var start := indices[count - 1];
    TourEnds(indices, matrix, order, start);
    var path := TourAfter(indices, matrix, order, start, |indices|);
    var cost := Length(matrix, path);
    tried := [];
    if count == 1 {
      BestTourStep(indices, 0, Elements(indices), matrix, path, cost, [], path, cost);
    } else {
      tried := NearestRouteIsBest(indices, matrix, order, count - 1);
      var best := NearestRoute(indices, matrix, order, count - 1);
      BestTourStep(indices, count - 1, Elements(indices), matrix, best.0, best.1, tried, path, cost);
    }
    tried := tried + [path];
  }

  method RouteByNearest(indices: seq<nat>, matrix: Matrix, order: SetOrder) returns (path: seq<nat>, cost: real)
    requires Addressable(matrix, indices) && Iterates(order) && indices != []
    ensures (path, cost) == NearestRoute(indices, matrix, order, |indices|)
    ensures exists tried :: BestTour(indices, |indices|, Elements(indices), matrix, path, cost, tried)
  {
    hide Elements, Iterates, Addressable, BestTour, Tour, NearestFirst, Length, TourAfter;
    path, cost := [], 0.0;
    for start := 0 to |indices|
      invariant start > 0 ==> (path, cost) == NearestRoute(indices, matrix, order, start)
    {
      var path1, cost1 := TourFrom(indices, matrix, order, indices[start]);
      if start == 0 || cost1 < cost {
        path, cost := path1, cost1;
      }
    }
    ghost var tried := NearestRouteIsBest(indices, matrix, order, |indices|);
  }

  /** What a route is worth: up to one stop there is nothing to order, up to ten the order is a cheapest
      one, beyond that it is the best nearest-neighbour tour. */
  ghost predicate OpenPath(indices: seq<nat>, matrix: Matrix, path: seq<nat>, cost: real) {
    && (|indices| <= 1 ==> path == indices && cost == 0.0)
    && (|indices| <= 10 ==> CheapestArrangement(indices, matrix, path, cost))
    && (|indices| > 10 ==> exists tried :: BestTour(indices, |indices|, Elements(indices), matrix, path, cost, tried))
  }

  /** The route and travel time that `shortest_open_path` returns. */
  function Route(indices: seq<nat>, matrix: Matrix, order: SetOrder): (r: (seq<nat>, real))
    requires Addressable(matrix, indices) && Iterates(order)
  {
    if |indices| <= 1 then (indices, 0.0)
    else if |indices| > 10 then NearestRoute(indices, matrix, order, |indices|)
    else TableRoute(indices, matrix)
  }

  lemma RouteIsOpenPath(indices: seq<nat>, matrix: Matrix, order: SetOrder)
    requires Addressable(matrix, indices) && Iterates(order)
    ensures var (path, cost) := Route(indices, matrix, order); OpenPath(indices, matrix, path, cost)
  {
    hide Addressable, Iterates, CheapestArrangement, BestTour, NearestRoute, TableRoute, Elements;
    if |indices| <= 1 {
      TrivialRoute(indices, matrix);
    } else if |indices| > 10 {
      var tried := NearestRouteIsBest(indices, matrix, order, |indices|);
    } else {
      TableRouteIsCheapest(indices, matrix);
    }
  }

  lemma TrivialRoute(indices: seq<nat>, matrix: Matrix)
    requires Addressable(matrix, indices) && |indices| <= 1
    ensures OpenPath(indices, matrix, indices, 0.0)
  {
    forall order | Arrangement(indices, order) ensures order == indices {
      assert |multiset(order)| == |order| && |multiset(indices)| == |indices|;
      if |indices| == 1 {
        assert order[0] in multiset(indices);
      }
    }
  }

  method ShortestOpenPath(indices: seq<nat>, matrix: Matrix, order: SetOrder) returns (path: seq<nat>, cost: real)
    requires Addressable(matrix, indices) && Iterates(order)
    ensures (path, cost) == Route(indices, matrix, order)
    ensures OpenPath(indices, matrix, path, cost)
  {
    hide OpenPath, NearestRoute, TableRoute, Addressable, Iterates;
    RouteIsOpenPath(indices, matrix, order);
    if |indices| <= 1 {
      path, cost := indices, 0.0;
    } else if |indices| > 10 {
      path, cost := RouteByNearest(indices, matrix, order);
    } else {
      path, cost := RouteByTable(indices, matrix);
    }
  }

  lemma TourIsArrangement(indices: seq<nat>, path: seq<nat>)
    requires Distinct(indices) && Tour(Elements(indices), path)
    ensures Arrangement(indices, path)
  {
    var visits: multiset<nat>, wanted: multiset<nat> := multiset(path), multiset(indices);
    forall x: nat ensures visits[x] == wanted[x] {
      DistinctMultiset(path, x);
      DistinctMultiset(indices, x);
      assert x in path <==> x in Elements(path);
      assert x in indices <==> x in Elements(indices);
    }
    assert visits == wanted;
  }

  /** On every branch, distinct stops come back as the same stops, each once, with the true travel time. */
  lemma RouteIsPermutation(indices: seq<nat>, matrix: Matrix, path: seq<nat>, cost: real)
    requires Distinct(indices)
    requires OpenPath(indices, matrix, path, cost)
    ensures Arrangement(indices, path)
    ensures Addressable(matrix, path) && cost == Length(matrix, path)
  {
    hide Distinct, Elements, Addressable, Arrangement, NearestFirst, Length, Tour;
    if |indices| > 10 {
      var tried :| BestTour(indices, |indices|, Elements(indices), matrix, path, cost, tried);
      TourIsArrangement(indices, path);
    }
  }

  /** Up to ten stops the travel time is determined: it is the least over all orders. */
  lemma ShortRouteIsUnique(indices: seq<nat>, matrix: Matrix, path: seq<nat>, cost: real, path1: seq<nat>, cost1: real)
    requires |indices| <= 10
    requires OpenPath(indices, matrix, path, cost) && OpenPath(indices, matrix, path1, cost1)
    ensures cost == cost1
  {
    assert Arrangement(indices, path) && Arrangement(indices, path1);
  }

  // ---------------------------------------------------------------- the symmetric table

  function SymmetricEntry(matrix: Matrix, row: nat, column: nat): real
    requires Square(matrix) && row < |matrix| && column < |matrix|
  {
    if row == column then 0.0 else (matrix[row][column] + matrix[column][row]) / 2.0
  }

  /** The mean of both directions, as the clustering distance. */
  function SymmetricMatrix(matrix: Matrix): (r: Matrix)
    requires Square(matrix)
    ensures |r| == |matrix| && Square(r)
    ensures forall i, j | 0 <= i < |r| && 0 <= j < |r| :: r[i][j] == r[j][i] && r[i][i] == 0.0
    ensures forall i, j | 0 <= i < |r| && 0 <= j < |r| && i != j :: r[i][j] == (matrix[i][j] + matrix[j][i]) / 2.0
  {
    seq(|matrix|, row requires 0 <= row < |matrix| =>
      seq(|matrix|, column requires 0 <= column < |matrix| => SymmetricEntry(matrix, row, column)))
  }
}
