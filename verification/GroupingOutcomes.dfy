/**
  What the grouping computes, as sums, least distances and single steps: the regret and the order of
  assignment, where each attraction goes, what a grouping is judged by, and which attraction a full day
  gives up.
 */
module GroupingOutcomes {
  import opened Clustering
  import opened Matrices
  import opened Routing
  import opened Sequences

  // ---------------------------------------------------------------- sums

  function DistancesFrom(distance: Matrix, from: nat, cluster: seq<nat>): (r: seq<real>)
    requires from < |distance| && Within(cluster, |distance[from]|)
    ensures |r| == |cluster|
  {
    seq(|cluster|, i requires 0 <= i < |cluster| => distance[from][cluster[i]])
  }

  lemma {:induction false} DistanceSumIs(distance: Matrix, from: nat, cluster: seq<nat>)
    requires from < |distance| && Within(cluster, |distance[from]|)
    ensures DistanceSum(distance, from, cluster) == Sum(DistancesFrom(distance, from, cluster))
  {
    if cluster != [] {
      var init, last := cluster[..|cluster| - 1], cluster[|cluster| - 1];
      DistanceSumIs(distance, from, init);
      SumExtends(DistancesFrom(distance, from, init), distance[from][last]);
      assert DistancesFrom(distance, from, cluster) == DistancesFrom(distance, from, init) + [distance[from][last]];
    }
  }

  /** From each item of a group to its medoid. */
  function DistancesTo(distance: Matrix, cluster: seq<nat>, medoid: nat): seq<real>
    requires Square(distance) && Within(cluster, |distance|) && medoid < |distance|
  {
    seq(|cluster|, i requires 0 <= i < |cluster| => distance[cluster[i]][medoid])
  }

  function GroupSums(distance: Matrix, clusters: seq<seq<nat>>, medoids: seq<nat>): (r: seq<real>)
    requires Square(distance) && Within(medoids, |distance|) && |clusters| == |medoids|
    requires forall i | 0 <= i < |clusters| :: Within(clusters[i], |distance|)
    ensures |r| == |clusters|
  {
    seq(|clusters|, i requires 0 <= i < |clusters| => Sum(DistancesTo(distance, clusters[i], medoids[i])))
  }

  function Penalties(pois: seq<Poi>, unassigned: seq<nat>): seq<real>
    requires Within(unassigned, |pois|)
  {
    seq(|unassigned|, j requires 0 <= j < |unassigned| => 1000.0 + pois[unassigned[j]].score)
  }

  predicate Symmetric(distance: Matrix) {
    Square(distance) && forall i, j | 0 <= i < |distance| && 0 <= j < |distance| :: distance[i][j] == distance[j][i]
  }

  lemma {:induction false} GroupCostIs(distance: Matrix, clusters: seq<seq<nat>>, medoids: seq<nat>)
    requires Symmetric(distance) && Within(medoids, |distance|) && |clusters| == |medoids|
    requires forall i | 0 <= i < |clusters| :: Within(clusters[i], |distance|)
    ensures GroupCost(distance, clusters, medoids) == Sum(GroupSums(distance, clusters, medoids))
  {
    if clusters != [] {
      var last := |clusters| - 1;
      GroupCostIs(distance, clusters[..last], medoids[..last]);
      DistanceSumIs(distance, medoids[last], clusters[last]);
      assert DistancesFrom(distance, medoids[last], clusters[last])
          == DistancesTo(distance, clusters[last], medoids[last]);
      var sum := Sum(DistancesTo(distance, clusters[last], medoids[last]));
      SumExtends(GroupSums(distance, clusters[..last], medoids[..last]), sum);
      assert GroupSums(distance, clusters, medoids)
          == GroupSums(distance, clusters[..last], medoids[..last]) + [sum];
    }
  }

  lemma {:induction false} PenaltyIs(pois: seq<Poi>, unassigned: seq<nat>)
    requires Within(unassigned, |pois|)
    ensures Penalty(pois, unassigned) == Sum(Penalties(pois, unassigned))
  {
    if unassigned != [] {
      var init, last := unassigned[..|unassigned| - 1], unassigned[|unassigned| - 1];
      PenaltyIs(pois, init);
      SumExtends(Penalties(pois, init), 1000.0 + pois[last].score);
      assert Penalties(pois, unassigned) == Penalties(pois, init) + [1000.0 + pois[last].score];
    }
  }

  /** An iteration is judged by the distances of all items to their medoids, plus 1000 and the score for every
      attraction left over. */
  lemma ObjectiveIs(pois: seq<Poi>, travelMinutes: Matrix, capacity: int, medoids: seq<nat>)
    requires Square(travelMinutes) && |travelMinutes| == |pois|
    requires medoids != [] && IndexList(medoids, |pois|)
    ensures var distance := SymmetricMatrix(travelMinutes);
            var st := Assigned(pois, distance, medoids, capacity);
            && (forall i | 0 <= i < |st.clusters| :: Within(st.clusters[i], |pois|)) && Within(st.unassigned, |pois|)
            && Objective(pois, distance, capacity, medoids)
               == Sum(GroupSums(distance, st.clusters, medoids)) + Sum(Penalties(pois, st.unassigned))
  {
    hide Assigned, GroupCost, Penalty, Sum, GroupSums, Penalties, Distinct;
    var distance := SymmetricMatrix(travelMinutes);
    var st := Assigned(pois, distance, medoids, capacity);
    IterationFacts(pois, distance, capacity, medoids);
    GroupCostIs(distance, st.clusters, medoids);
    PenaltyIs(pois, st.unassigned);
  }

  function Visits(pois: seq<Poi>, cluster: seq<nat>): seq<int>
    requires Within(cluster, |pois|)
  {
    seq(|cluster|, i requires 0 <= i < |cluster| => pois[cluster[i]].visitMinutes)
  }

  /** A group's minutes: its visits, and for its load 15 more between each two of them. */
  lemma {:induction false} MinutesAre(pois: seq<Poi>, cluster: seq<nat>)
    requires Within(cluster, |pois|)
    ensures VisitMinutes(pois, cluster) == SumInts(Visits(pois, cluster))
    ensures cluster != [] ==> BufferedLoad(pois, cluster) == SumInts(Visits(pois, cluster)) + 15 * (|cluster| - 1)
  {
    if cluster != [] {
      var init, last := cluster[..|cluster| - 1], cluster[|cluster| - 1];
      MinutesAre(pois, init);
      SumIntsExtends(Visits(pois, init), pois[last].visitMinutes);
      assert Visits(pois, cluster) == Visits(pois, init) + [pois[last].visitMinutes as int];
      if |cluster| == 1 {
        assert Visits(pois, init) == [];
      }
    }
  }

  function Legs(matrix: Matrix, path: seq<nat>): seq<real>
    requires Addressable(matrix, path) && path != []
  {
    seq(|path| - 1, i requires 0 <= i < |path| - 1 => matrix[path[i]][path[i + 1]])
  }

  /** The time along a path is the sum of the legs from each stop to the next. */
  lemma {:induction false} LengthIs(matrix: Matrix, path: seq<nat>)
    requires Addressable(matrix, path) && path != []
    ensures Length(matrix, path) == Sum(Legs(matrix, path))
  {
    if |path| > 1 {
      var init, leg := path[..|path| - 1], matrix[path[|path| - 2]][path[|path| - 1]];
      LengthIs(matrix, init);
      SumExtends(Legs(matrix, init), leg);
      assert Legs(matrix, path) == Legs(matrix, init) + [leg];
    } else {
      assert Legs(matrix, path) == [];
    }
  }

  // ---------------------------------------------------------------- medoids

  lemma {:induction false} NearestIs(distance: Matrix, medoids: seq<nat>, index: nat) returns (i: nat)
    requires index < |distance| && medoids != [] && Within(medoids, |distance[index]|)
    ensures i < |medoids| && NearestDistance(distance, medoids, index) == distance[index][medoids[i]]
    ensures forall j | 0 <= j < |medoids| :: distance[index][medoids[i]] <= distance[index][medoids[j]]
  {
    var last := |medoids| - 1;
    i := last;
    if last > 0 {
      var r := NearestIs(distance, medoids[..last], index);
      if distance[index][medoids[last]] >= NearestDistance(distance, medoids[..last], index) {
        i := r;
      }
    }
  }

  lemma {:induction false} OthersInOrder(n: nat, listed: seq<nat>)
    ensures Increasing(Others(n, listed), n)
  {
    if n > 0 {
      OthersInOrder(n - 1, listed);
    }
  }

  /** Of equally far and equally scored attractions the first becomes a medoid. */
  lemma NextIsFirst(pois: seq<Poi>, distance: Matrix, medoids: seq<nat>)
    requires Square(distance) && |distance| == |pois|
    requires medoids != [] && IndexList(medoids, |pois|) && |medoids| < |pois|
    ensures var next := NextMedoid(pois, distance, medoids);
            forall x: nat | x < next && x !in medoids ::
              KeyLess((NearestDistance(distance, medoids, x), pois[x].score),
                      (NearestDistance(distance, medoids, next), pois[next].score))
  {
    hide NearestDistance, Distinct;
    var candidates := Others(|pois|, medoids);
    MoreIndices(|pois|, medoids);
    OthersAre(|pois|, medoids);
    OthersInOrder(|pois|, medoids);
    var keys := SpreadKeys(pois, distance, medoids, candidates);
    var k := ArgMax(keys);
    assert NextMedoid(pois, distance, medoids) == candidates[k];
    forall x: nat | x < candidates[k] && x !in medoids ensures exists i :: 0 <= i < k && candidates[i] == x {
      assert x in candidates;
      var i :| 0 <= i < |candidates| && candidates[i] == x;
    }
    assert forall i | 0 <= i < k :: KeyLess(keys[i], keys[k]);
  }

  /** An attraction before the `j`-th medoid, and not taken yet, had a smaller distance or score. */
  predicate FallsShort(pois: seq<Poi>, distance: Matrix, medoids: seq<nat>, j: nat, x: nat)
    requires Square(distance) && |distance| == |pois|
    requires j < |medoids| && Within(medoids, |pois|)
  {
    x < medoids[j] && x !in medoids[..j] ==>
      if j == 0 then pois[x].score < pois[medoids[0]].score
      else KeyLess((NearestDistance(distance, medoids[..j], x), pois[x].score),
                   (NearestDistance(distance, medoids[..j], medoids[j]), pois[medoids[j]].score))
  }

  lemma StillFallsShort(pois: seq<Poi>, distance: Matrix, medoids: seq<nat>, next: nat, j: nat, x: nat)
    requires Square(distance) && |distance| == |pois|
    requires j < |medoids| && Within(medoids, |pois|) && next < |pois|
    requires FallsShort(pois, distance, medoids, j, x)
    ensures FallsShort(pois, distance, medoids + [next], j, x)
  {
    hide NearestDistance;
    assert (medoids + [next])[..j] == medoids[..j];
  }

  lemma NextLeavesShort(pois: seq<Poi>, distance: Matrix, medoids: seq<nat>, x: nat)
    requires Square(distance) && |distance| == |pois|
    requires medoids != [] && IndexList(medoids, |pois|) && |medoids| < |pois|
    ensures FallsShort(pois, distance, medoids + [NextMedoid(pois, distance, medoids)], |medoids|, x)
  {
    hide NearestDistance, NextMedoid, Distinct;
    var next := NextMedoid(pois, distance, medoids);
    NextIsFirst(pois, distance, medoids);
    assert (medoids + [next])[..|medoids|] == medoids;
  }

  /** Ties among the medoids go to the first attraction, from the best score on. */
  lemma {:induction false} TiesGoFirst(pois: seq<Poi>, distance: Matrix, k: nat, j: nat, x: nat)
    requires Square(distance) && |distance| == |pois|
    requires 1 <= k <= |pois| && j < k
    ensures FallsShort(pois, distance, FarthestList(pois, distance, k), j, x)
  {
    hide NextMedoid, Distinct, FarthestList, FallsShort, FarthestFirst;
    if k == 1 {
      BestScoredIsFirst(pois, distance, x);
    } else {
      FarthestListGrows(pois, distance, k - 1);
      var medoids := FarthestList(pois, distance, k - 1);
      if j == k - 1 {
        NextLeavesShort(pois, distance, medoids, x);
      } else {
        TiesGoFirst(pois, distance, k - 1, j, x);
        StillFallsShort(pois, distance, medoids, NextMedoid(pois, distance, medoids), j, x);
      }
    }
  }

  lemma BestScoredIsFirst(pois: seq<Poi>, distance: Matrix, x: nat)
    requires Square(distance) && |distance| == |pois| >= 1
    ensures FallsShort(pois, distance, FarthestList(pois, distance, 1), 0, x)
  {
    hide FarthestList, NearestDistance;
    FarthestListStarts(pois, distance);
    var keys := ScoreKeys(pois);
    assert x < ArgMax(keys) ==> KeyLess(keys[x], keys[ArgMax(keys)]);
  }

  /** The member of a group with the least sum of distances to the group, the first of several. */
  ghost predicate IsCentre(distance: Matrix, cluster: seq<nat>, centre: nat)
    requires Square(distance) && Within(cluster, |distance|)
  {
    exists k: nat ::
      && k < |cluster| && centre == cluster[k]
      && forall i | 0 <= i < |cluster| ::
           var mine, other := Sum(DistancesFrom(distance, centre, cluster)),
                              Sum(DistancesFrom(distance, cluster[i], cluster));
           if i < k then mine < other else mine <= other
  }

  lemma CentreIs(distance: Matrix, cluster: seq<nat>)
    requires Square(distance) && Within(cluster, |distance|) && cluster != []
    ensures IsCentre(distance, cluster, Centre(distance, cluster))
  {
    hide DistanceSum, Sum, DistancesFrom;
    var keys := CentreKeys(distance, cluster);
    var k := ArgMin(keys);
    forall i | 0 <= i < |cluster|
      ensures !KeyLess(keys[i], keys[k]) && (i < k ==> KeyLess(keys[k], keys[i]))
      ensures DistanceSum(distance, cluster[i], cluster) == Sum(DistancesFrom(distance, cluster[i], cluster))
    {
      DistanceSumIs(distance, cluster[i], cluster);
    }
  }

  /** The next iteration starts from the centres of the groups. */
  lemma RecentredIs(pois: seq<Poi>, distance: Matrix, capacity: int, medoids: seq<nat>)
    requires Square(distance) && |distance| == |pois|
    requires medoids != [] && IndexList(medoids, |pois|)
    ensures var st, r := Assigned(pois, distance, medoids, capacity), Recentred(pois, distance, capacity, medoids);
            && |r| == |st.clusters|
            && forall i | 0 <= i < |r| ::
                 Within(st.clusters[i], |distance|) && IsCentre(distance, st.clusters[i], r[i])
  {
    hide Assigned, Recentred, Objective, IsCentre, Centre, Distinct, GroupCost, Penalty;
    IterationFacts(pois, distance, capacity, medoids);
    var clusters := Assigned(pois, distance, medoids, capacity).clusters;
    forall i | 0 <= i < |clusters| ensures IsCentre(distance, clusters[i], Centre(distance, clusters[i])) {
      CentreIs(distance, clusters[i]);
    }
  }

  // ---------------------------------------------------------------- regret

  lemma {:induction false} AscendingPlace(x: real, s: seq<real>) returns (k: nat)
    ensures k <= |s| && InsertAscending(x, s) == s[..k] + [x] + s[k..]
    ensures (forall i | 0 <= i < k :: s[i] < x) && (k < |s| ==> x <= s[k])
  {
    if s == [] || x <= s[0] {
      k := 0;
    } else {
      k := AscendingPlace(x, s[1..]);
      assert s[..k + 1] == [s[0]] + s[1..][..k];
      k := k + 1;
    }
  }

  predicate Rising(s: seq<real>) {
    forall i, j | 0 <= i < j < |s| :: s[i] <= s[j]
  }

  lemma PlaceKeepsRising(x: real, s: seq<real>, k: nat)
    requires Rising(s) && k <= |s|
    requires (forall i | 0 <= i < k :: s[i] < x) && (k < |s| ==> x <= s[k])
    ensures Rising(s[..k] + [x] + s[k..])
  {
    var r := s[..k] + [x] + s[k..];
    forall i | 0 <= i < |r| ensures r[i] == if i < k then s[i] else if i == k then x else s[i - 1] {
    }
  }

  /** Sorting reorders the distances, the least first. */
  lemma {:induction false} AscendingIs(s: seq<real>) returns (perm: seq<nat>)
    ensures Rising(Ascending(s)) && Reorders(perm, |s|)
    ensures forall i | 0 <= i < |s| :: perm[i] < |s| && Ascending(s)[i] == s[perm[i]]
  {
    hide Reorders, PutAt, InsertAscending, Rising;
    if s == [] {
      perm := [];
      NothingReorders();
      NothingRises();
    } else {
      var rest := AscendingIs(s[1..]);
      ReorderedWithin(rest, |s| - 1);
      var sorted := Ascending(s[1..]);
      var k := AscendingPlace(s[0], sorted);
      PlaceKeepsRising(s[0], sorted, k);
      perm := PutAt(rest, k);
      PutAtReorders(rest, k, |s| - 1);
      ReorderedWithin(perm, |s|);
      forall i | 0 <= i < |s| ensures Ascending(s)[i] == s[perm[i]] {
        if i < k {
          assert Ascending(s)[i] == sorted[i];
        } else if i > k {
          assert Ascending(s)[i] == sorted[i - 1];
        }
      }
    }
  }

  lemma NothingRises()
    ensures Rising([])
  {
  }

  /** The regret of an attraction is the gap between its two nearest medoids, or the distance of the only one;
      among equals the longer visit counts. */
  lemma RegretIs(pois: seq<Poi>, distance: Matrix, medoids: seq<nat>, index: nat) returns (a: nat, b: nat)
    requires Square(distance) && |distance| == |pois| && index < |pois|
    requires medoids != [] && Within(medoids, |pois|)
    ensures Regret(pois, distance, medoids, index).1 == pois[index].visitMinutes as real
    ensures |medoids| == 1 ==> Regret(pois, distance, medoids, index).0 == distance[index][medoids[0]]
    ensures |medoids| > 1 ==>
              && a < |medoids| && b < |medoids| && a != b
              && Regret(pois, distance, medoids, index).0 == distance[index][medoids[b]] - distance[index][medoids[a]]
              && forall c | 0 <= c < |medoids| ::
                   && distance[index][medoids[a]] <= distance[index][medoids[c]]
                   && (c != a ==> distance[index][medoids[b]] <= distance[index][medoids[c]])
  {
    hide Ascending;
    var distances := MedoidDistances(distance, medoids, index);
    var perm := AscendingIs(distances);
    a, b := perm[0], 0;
    if |medoids| > 1 {
      b := perm[1];
      ReordersAll(perm, |distances|);
      forall c | 0 <= c < |medoids|
        ensures distances[c] == distance[index][medoids[c]]
        ensures distances[a] <= distances[c] && (c != a ==> distances[b] <= distances[c])
      {
        assert c in perm;
        var i :| 0 <= i < |perm| && perm[i] == c;
        assert Ascending(distances)[i] == distances[c];
      }
    }
  }

  // ---------------------------------------------------------------- the order of assignment

  /** Greatest regret first, and among equals the first attraction first. */
  predicate RegretOrder(pois: seq<Poi>, distance: Matrix, medoids: seq<nat>, items: seq<nat>)
    requires Square(distance) && |distance| == |pois|
    requires medoids != [] && Within(medoids, |pois|) && Within(items, |pois|)
  {
    forall i, j | 0 <= i < j < |items| :: Precedes(pois, distance, medoids, items[i], items[j])
  }

  predicate Precedes(pois: seq<Poi>, distance: Matrix, medoids: seq<nat>, x: nat, y: nat)
    requires Square(distance) && |distance| == |pois|
    requires medoids != [] && Within(medoids, |pois|) && x < |pois| && y < |pois|
  {
    var a, b := Regret(pois, distance, medoids, x), Regret(pois, distance, medoids, y);
    a.0 > b.0 || (a.0 == b.0 && (a.1 > b.1 || (a.1 == b.1 && x < y)))
  }

  lemma PrecedesTransitive(pois: seq<Poi>, distance: Matrix, medoids: seq<nat>, x: nat, y: nat, z: nat)
    requires Square(distance) && |distance| == |pois|
    requires medoids != [] && Within(medoids, |pois|) && x < |pois| && y < |pois| && z < |pois|
    requires !RegretLess(pois, distance, medoids, x, y) && x < y && x < z
    requires y == z || Precedes(pois, distance, medoids, y, z)
    ensures Precedes(pois, distance, medoids, x, z)
  {
    hide Regret;
  }

  lemma {:induction false} InsertKeepsPlaces(pois: seq<Poi>, distance: Matrix, medoids: seq<nat>, x: nat,
                                             items: seq<nat>)
    requires Square(distance) && |distance| == |pois| && x < |pois|
    requires medoids != [] && Within(medoids, |pois|) && Within(items, |pois|)
    requires RegretOrder(pois, distance, medoids, items) && forall i | 0 <= i < |items| :: x < items[i]
    ensures RegretOrder(pois, distance, medoids, InsertByRegret(pois, distance, medoids, x, items))
  {
    hide Regret, Precedes, RegretLess;
    if items == [] {
    } else if !RegretLess(pois, distance, medoids, x, items[0]) {
      forall j | 0 <= j < |items| ensures Precedes(pois, distance, medoids, x, items[j]) {
        PrecedesTransitive(pois, distance, medoids, x, items[0], items[j]);
      }
    } else {
      var rest := InsertByRegret(pois, distance, medoids, x, items[1..]);
      InsertKeepsPlaces(pois, distance, medoids, x, items[1..]);
      InsertKeepsItems(pois, distance, medoids, x, items[1..]);
      LessPrecedes(pois, distance, medoids, x, items[0]);
      forall j | 0 <= j < |rest| ensures Precedes(pois, distance, medoids, items[0], rest[j]) {
        assert rest[j] in multiset(rest);
        if rest[j] != x {
          assert rest[j] in items[1..];
        }
      }
    }
  }

  lemma LessPrecedes(pois: seq<Poi>, distance: Matrix, medoids: seq<nat>, x: nat, y: nat)
    requires Square(distance) && |distance| == |pois|
    requires medoids != [] && Within(medoids, |pois|) && x < |pois| && y < |pois|
    requires RegretLess(pois, distance, medoids, x, y)
    ensures Precedes(pois, distance, medoids, y, x)
  {
    hide Regret;
  }

  lemma {:induction false} SortKeepsPlaces(pois: seq<Poi>, distance: Matrix, medoids: seq<nat>, items: seq<nat>)
    requires Square(distance) && |distance| == |pois|
    requires medoids != [] && Within(medoids, |pois|) && Increasing(items, |pois|) && Within(items, |pois|)
    ensures RegretOrder(pois, distance, medoids, SortByRegret(pois, distance, medoids, items))
  {
    hide Regret, Precedes, RegretLess, InsertByRegret;
    if items != [] {
      SortKeepsPlaces(pois, distance, medoids, items[1..]);
      SortedByRegret(pois, distance, medoids, items[1..]);
      var sorted := SortByRegret(pois, distance, medoids, items[1..]);
      forall i | 0 <= i < |sorted| ensures items[0] < sorted[i] {
        assert sorted[i] in multiset(sorted);
        assert sorted[i] in items[1..];
      }
      InsertKeepsPlaces(pois, distance, medoids, items[0], sorted);
    }
  }

  // ---------------------------------------------------------------- the placements

  /** One attraction placed: in the nearest group with room, or left over if none has. */
  ghost predicate PlacedNext(pois: seq<Poi>, distance: Matrix, medoids: seq<nat>, capacity: int, st: Placement,
                             index: nat, st1: Placement)
    requires Square(distance) && |distance| == |pois| && index < |pois| && Within(medoids, |pois|)
  {
    && |st.clusters| == |st.loads| == |medoids|
    && var required := pois[index].visitMinutes + 15;
       if exists i :: 0 <= i < |medoids| && st.loads[i] + required <= capacity
       then exists chosen: nat ::
              && NearestWithRoom(distance, medoids, st.loads, index, required, capacity, chosen)
              && st1 == Placement(st.clusters[chosen := st.clusters[chosen] + [index]],
                                  st.loads[chosen := st.loads[chosen] + required], st.unassigned)
       else st1 == Placement(st.clusters, st.loads, st.unassigned + [index])
  }

  /** Every group starts with its medoid alone. */
  predicate Opening(pois: seq<Poi>, medoids: seq<nat>, st: Placement)
    requires Within(medoids, |pois|)
  {
    && |st.clusters| == |st.loads| == |medoids| && st.unassigned == []
    && forall i | 0 <= i < |medoids| :: st.clusters[i] == [medoids[i]] && st.loads[i] == pois[medoids[i]].visitMinutes
  }

  lemma {:induction false} PlacedInTurn(pois: seq<Poi>, distance: Matrix, medoids: seq<nat>, capacity: int,
                                        items: seq<nat>)
    returns (steps: seq<Placement>)
    requires Square(distance) && |distance| == |pois| && Within(medoids, |pois|) && Within(items, |pois|)
    ensures |steps| == |items| + 1 && Opening(pois, medoids, steps[0])
    ensures steps[|items|] == PlaceAll(pois, distance, medoids, capacity, items)
    ensures forall n | 0 <= n < |items| ::
              PlacedNext(pois, distance, medoids, capacity, steps[n], items[n], steps[n + 1])
  {
    hide PlacedNext, PlaceOne;
    if items == [] {
      steps := [StartPlacement(pois, medoids)];
    } else {
      var init, last := items[..|items| - 1], items[|items| - 1];
      steps := PlacedInTurn(pois, distance, medoids, capacity, init);
      var st := PlaceAll(pois, distance, medoids, capacity, init);
      OnePlaced(pois, distance, medoids, capacity, st, last);
      steps := steps + [PlaceOne(pois, distance, medoids, capacity, st, last)];
    }
  }

  lemma OnePlaced(pois: seq<Poi>, distance: Matrix, medoids: seq<nat>, capacity: int, st: Placement, index: nat)
    requires Square(distance) && |distance| == |pois| && index < |pois| && Within(medoids, |pois|)
    requires |st.clusters| == |st.loads| == |medoids|
    ensures PlacedNext(pois, distance, medoids, capacity, st, index,
                       PlaceOne(pois, distance, medoids, capacity, st, index))
  {
    hide PlaceOne, NearestWithRoom;
    var chosen := JoinsNearest(pois, distance, medoids, capacity, st, index);
  }

  /** The assignment: every attraction that is no medoid, greatest regret first, goes to the nearest group
      with room, or is left over. */
  lemma AssignmentHistory(pois: seq<Poi>, distance: Matrix, medoids: seq<nat>, capacity: int)
    returns (items: seq<nat>, steps: seq<Placement>)
    requires Square(distance) && |distance| == |pois| && medoids != [] && Within(medoids, |pois|)
    ensures Within(items, |pois|) && RegretOrder(pois, distance, medoids, items)
    ensures forall x: nat :: multiset(items)[x] == if x < |pois| && x !in medoids then 1 else 0
    ensures |steps| == |items| + 1 && Opening(pois, medoids, steps[0])
    ensures steps[|items|] == Assigned(pois, distance, medoids, capacity)
    ensures forall n | 0 <= n < |items| ::
              PlacedNext(pois, distance, medoids, capacity, steps[n], items[n], steps[n + 1])
  {
    hide RegretOrder, PlacedNext, PlaceAll, Opening, Others, RegretDescending;
    var others := Others(|pois|, medoids);
    OthersAre(|pois|, medoids);
    OthersInOrder(|pois|, medoids);
    items := SortByRegret(pois, distance, medoids, others);
    SortKeepsPlaces(pois, distance, medoids, others);
    SortedByRegret(pois, distance, medoids, others);
    forall x: nat ensures multiset(items)[x] == if x < |pois| && x !in medoids then 1 else 0 {
      DistinctMultiset(others, x);
    }
    steps := PlacedInTurn(pois, distance, medoids, capacity, items);
  }

  // ---------------------------------------------------------------- trimming

  /** The worst of a group: lowest score, longest visit among equals, the first of those. */
  predicate IsWorst(pois: seq<Poi>, cluster: seq<nat>, k: nat)
    requires Within(cluster, |pois|)
  {
    && k < |cluster|
    && forall i | 0 <= i < |cluster| && i != k ::
         var a, b := pois[cluster[k]], pois[cluster[i]];
         || a.score < b.score
         || (a.score == b.score
             && (a.visitMinutes > b.visitMinutes || (a.visitMinutes == b.visitMinutes && k < i)))
  }

  /** One attraction given up: the worst one, while visits and route overrun the day. */
  ghost predicate GivesUp(pois: seq<Poi>, matrix: Matrix, order: SetOrder, capacity: int, cluster: seq<nat>,
                          smaller: seq<nat>, given: nat)
  {
    && Within(cluster, |pois|)
    && !(&& Addressable(matrix, cluster) && Iterates(order)
         && SumInts(Visits(pois, cluster)) as real + Route(cluster, matrix, order).1 <= capacity as real)
    && exists k: nat ::
         IsWorst(pois, cluster, k) && given == cluster[k] && smaller == cluster[..k] + cluster[k + 1..]
  }

  lemma WorstGoes(pois: seq<Poi>, matrix: Matrix, order: SetOrder, capacity: int, cluster: seq<nat>)
    requires Within(cluster, |pois|) && cluster != []
    requires !FitsDay(pois, matrix, order, cluster, capacity)
    ensures GivesUp(pois, matrix, order, capacity, cluster, Without(cluster, Worst(pois, cluster)),
                    cluster[Worst(pois, cluster)])
  {
    hide Route, VisitMinutes, Visits, SumInts, Addressable, Iterates;
    MinutesAre(pois, cluster);
    assert IsWorst(pois, cluster, Worst(pois, cluster));
  }

  /** A trimmed group is what is left after giving up attractions one by one, each the worst of a group that
      overran the day. */
  lemma {:induction false} TrimHistory(pois: seq<Poi>, matrix: Matrix, order: SetOrder, original: seq<nat>,
                                       capacity: int, m: nat)
    returns (steps: seq<seq<nat>>)
    requires Within(original, |pois|) && m < |original|
    requires forall t: nat | t < m :: !FitsDay(pois, matrix, order, AfterDropping(pois, original, t), capacity)
    ensures |steps| == m + 1 && steps[0] == original && steps[m] == AfterDropping(pois, original, m)
    ensures |Dropped(pois, original, m)| == m
    ensures forall t | 0 <= t < m ::
              GivesUp(pois, matrix, order, capacity, steps[t], steps[t + 1], Dropped(pois, original, m)[t])
  {
    hide GivesUp, FitsDay, Without, Worst;
    if m == 0 {
      steps := [original];
    } else {
      steps := TrimHistory(pois, matrix, order, original, capacity, m - 1);
      WorstGoes(pois, matrix, order, capacity, AfterDropping(pois, original, m - 1));
      steps := steps + [AfterDropping(pois, original, m)];
    }
  }
}
