/**
  Capacity-constrained K-Medoids: groups nearby attractions by day, and drops attractions from
  a group until its visits and its route fit into the day.

  Attractions are numbered by their position in the candidate list.
 */
module Clustering {
  import opened Wrappers
  import opened Matrices
  import opened Routing
  import opened Sequences

  datatype Poi = Poi(score: real, visitMinutes: nat)

  const TRANSFER_BUFFER: nat := 15

  // ---------------------------------------------------------------- choosing by key

  type SortKey = (real, real)

  predicate KeyLess(a: SortKey, b: SortKey) {
    a.0 < b.0 || (a.0 == b.0 && a.1 < b.1)
  }

  /** The first position of a least key, as `min(..., key=...)` picks it. */
  function ArgMin(keys: seq<SortKey>): (r: nat)
    requires keys != []
    ensures r < |keys|
    ensures forall j | 0 <= j < |keys| :: !KeyLess(keys[j], keys[r])
    ensures forall j | 0 <= j < r :: KeyLess(keys[r], keys[j])
  {
    var last := |keys| - 1;
    if last == 0 then 0
    else
      var r := ArgMin(keys[..last]);
      if KeyLess(keys[last], keys[r]) then last else r
  }

  /** The first position of a greatest key, as `max(..., key=...)` picks it. */
  function ArgMax(keys: seq<SortKey>): (r: nat)
    requires keys != []
    ensures r < |keys|
    ensures forall j | 0 <= j < |keys| :: !KeyLess(keys[r], keys[j])
    ensures forall j | 0 <= j < r :: KeyLess(keys[j], keys[r])
  {
    var last := |keys| - 1;
    if last == 0 then 0
    else
      var r := ArgMax(keys[..last]);
      if KeyLess(keys[r], keys[last]) then last else r
  }

  // ---------------------------------------------------------------- medoids

  /** Indices below `n`, none twice. */
  predicate IndexList(s: seq<nat>, n: nat) {
    Within(s, n) && Distinct(s)
  }

  /** The indices below `n` that are not listed, in increasing order. */
  function Others(n: nat, listed: seq<nat>): (r: seq<nat>)
    ensures Within(r, n)
  {
    if n == 0 then []
    else if n - 1 in listed then Others(n - 1, listed)
    else Others(n - 1, listed) + [n - 1]
  }

  lemma {:induction false} OthersAre(n: nat, listed: seq<nat>)
    ensures Distinct(Others(n, listed))
    ensures forall x: nat :: x in Others(n, listed) <==> x < n && x !in listed
  {
    if n > 0 {
      OthersAre(n - 1, listed);
    }
  }

  function NearestDistance(distance: Matrix, medoids: seq<nat>, index: nat): (r: real)
    requires index < |distance| && medoids != [] && Within(medoids, |distance[index]|)
    ensures forall i | 0 <= i < |medoids| :: r <= distance[index][medoids[i]]
  {
    var last := |medoids| - 1;
    if last == 0 then distance[index][medoids[0]]
    else
      var r := NearestDistance(distance, medoids[..last], index);
      if distance[index][medoids[last]] < r then distance[index][medoids[last]] else r
  }

  function SpreadKeys(pois: seq<Poi>, distance: Matrix, medoids: seq<nat>, candidates: seq<nat>): (r: seq<SortKey>)
    requires Square(distance) && |distance| == |pois|
    requires medoids != [] && Within(medoids, |pois|) && Within(candidates, |pois|)
    ensures |r| == |candidates|
    ensures forall i | 0 <= i < |r| ::
              r[i] == (NearestDistance(distance, medoids, candidates[i]), pois[candidates[i]].score)
  {
    seq(|candidates|, i requires 0 <= i < |candidates| =>
      (NearestDistance(distance, medoids, candidates[i]), pois[candidates[i]].score))
  }

  function ScoreKeys(pois: seq<Poi>): (r: seq<SortKey>)
    ensures |r| == |pois| && forall i | 0 <= i < |r| :: r[i] == (pois[i].score, 0.0)
  {
    seq(|pois|, i requires 0 <= i < |pois| => (pois[i].score, 0.0))
  }

  /** A medoid list grown from the best-scored attraction by always adding the one farthest from
      the medoids so far, better score first among equally far ones. */
  ghost predicate FarthestFirst(pois: seq<Poi>, distance: Matrix, medoids: seq<nat>)
    requires Square(distance) && |distance| == |pois|
  {
    && medoids != [] && IndexList(medoids, |pois|)
    && (forall x: nat | x < |pois| :: pois[x].score <= pois[medoids[0]].score)
    && (forall j: nat, x: nat | 1 <= j < |medoids| && x < |pois| && x !in medoids[..j] ::
          !KeyLess((NearestDistance(distance, medoids[..j], medoids[j]), pois[medoids[j]].score),
                   (NearestDistance(distance, medoids[..j], x), pois[x].score)))
  }

  /** The next medoid: the greatest (distance, score) among the attractions not chosen yet. */
  function NextMedoid(pois: seq<Poi>, distance: Matrix, medoids: seq<nat>): (next: nat)
    requires Square(distance) && |distance| == |pois|
    requires medoids != [] && IndexList(medoids, |pois|) && |medoids| < |pois|
    ensures next < |pois| && next !in medoids
    ensures forall x: nat | x < |pois| && x !in medoids ::
              !KeyLess((NearestDistance(distance, medoids, next), pois[next].score),
                       (NearestDistance(distance, medoids, x), pois[x].score))
  {
    var candidates := Others(|pois|, medoids);
    MoreIndices(|pois|, medoids);
    OthersAre(|pois|, medoids);
    candidates[ArgMax(SpreadKeys(pois, distance, medoids, candidates))]
  }

  /** The first `k` medoids. */
  function FarthestList(pois: seq<Poi>, distance: Matrix, k: nat): (medoids: seq<nat>)
    requires Square(distance) && |distance| == |pois|
    requires 1 <= k <= |pois|
    ensures |medoids| == k && FarthestFirst(pois, distance, medoids)
  {
    if k == 1 then
      var first := ArgMax(ScoreKeys(pois));
      assert forall x: nat | x < |pois| :: ScoreKeys(pois)[x].0 <= ScoreKeys(pois)[first].0;
      [first]
    else
      var medoids := FarthestList(pois, distance, k - 1);
      var next := NextMedoid(pois, distance, medoids);
      FarthestStep(pois, distance, medoids, next);
      medoids + [next]
  }

  lemma FarthestListStarts(pois: seq<Poi>, distance: Matrix)
    requires Square(distance) && |distance| == |pois| >= 1
    ensures FarthestList(pois, distance, 1) == [ArgMax(ScoreKeys(pois))]
  {
  }

  lemma FarthestListGrows(pois: seq<Poi>, distance: Matrix, k: nat)
    requires Square(distance) && |distance| == |pois|
    requires 1 <= k < |pois|
    ensures var medoids := FarthestList(pois, distance, k);
            && medoids != [] && IndexList(medoids, |pois|)
            && FarthestList(pois, distance, k + 1) == medoids + [NextMedoid(pois, distance, medoids)]
  {
    hide NextMedoid;
  }

  method InitialMedoids(pois: seq<Poi>, distance: Matrix, k: nat) returns (medoids: seq<nat>)
    requires Square(distance) && |distance| == |pois|
    requires 1 <= k <= |pois|
    ensures medoids == FarthestList(pois, distance, k)
  {
    hide *;
    FarthestListStarts(pois, distance);
    medoids := [ArgMax(ScoreKeys(pois))];
    ghost var count := 1;
    while |medoids| < k
      invariant 1 <= count == |medoids| <= k
      invariant medoids == FarthestList(pois, distance, count)
    {
      FarthestListGrows(pois, distance, count);
      medoids := medoids + [NextMedoid(pois, distance, medoids)];
      count := count + 1;
    }
  }

  /** A list shorter than the number of indices leaves one out. */
  lemma MoreIndices(n: nat, listed: seq<nat>)
    requires IndexList(listed, n) && |listed| < n
    ensures Others(n, listed) != []
  {
    ListCount(listed);
    OthersAre(n, listed);
    if forall x: nat | x < n :: x in listed {
      AllListed(n, Elements(listed));
      assert false;
    }
  }

  lemma {:induction false} AllListed(n: nat, s: set<nat>)
    requires forall x: nat | x < n :: x in s
    ensures |s| >= n
  {
    if n > 0 {
      AllListed(n - 1, s - {n - 1});
    }
  }

  lemma FarthestStep(pois: seq<Poi>, distance: Matrix, medoids: seq<nat>, next: nat)
    requires Square(distance) && |distance| == |pois|
    requires FarthestFirst(pois, distance, medoids)
    requires next < |pois| && next !in medoids
    requires forall x: nat | x < |pois| && x !in medoids ::
               !KeyLess((NearestDistance(distance, medoids, next), pois[next].score),
                        (NearestDistance(distance, medoids, x), pois[x].score))
    ensures FarthestFirst(pois, distance, medoids + [next])
  {
    var medoids1 := medoids + [next];
    forall j: nat, x: nat | 1 <= j < |medoids1| && x < |pois| && x !in medoids1[..j]
      ensures !KeyLess((NearestDistance(distance, medoids1[..j], medoids1[j]), pois[medoids1[j]].score),
                       (NearestDistance(distance, medoids1[..j], x), pois[x].score))
    {
      assert medoids1[..j] == medoids[..j];
      if j == |medoids| {
        assert medoids[..j] == medoids;
      }
    }
  }

  // ---------------------------------------------------------------- the order of assignment

  function InsertAscending(x: real, s: seq<real>): (r: seq<real>)
    ensures |r| == |s| + 1
  {
    if s == [] || x <= s[0] then [x] + s else [s[0]] + InsertAscending(x, s[1..])
  }

  function Ascending(s: seq<real>): (r: seq<real>)
    ensures |r| == |s|
  {
    if s == [] then [] else InsertAscending(s[0], Ascending(s[1..]))
  }

  function MedoidDistances(distance: Matrix, medoids: seq<nat>, index: nat): (r: seq<real>)
    requires index < |distance| && Within(medoids, |distance[index]|)
    ensures |r| == |medoids|
  {
    seq(|medoids|, i requires 0 <= i < |medoids| => distance[index][medoids[i]])
  }

  /** How much an attraction loses if its nearest medoid is taken; longer visits first among equals. */
  function Regret(pois: seq<Poi>, distance: Matrix, medoids: seq<nat>, index: nat): SortKey
    requires Square(distance) && |distance| == |pois| && index < |pois|
    requires medoids != [] && Within(medoids, |pois|)
  {
    var ordered := Ascending(MedoidDistances(distance, medoids, index));
    var difference := if |ordered| > 1 then ordered[1] - ordered[0] else ordered[0];
    (difference, pois[index].visitMinutes as real)
  }

  predicate RegretLess(pois: seq<Poi>, distance: Matrix, medoids: seq<nat>, x: nat, y: nat)
    requires Square(distance) && |distance| == |pois| && x < |pois| && y < |pois|
    requires medoids != [] && Within(medoids, |pois|)
  {
    KeyLess(Regret(pois, distance, medoids, x), Regret(pois, distance, medoids, y))
  }

  predicate RegretDescending(pois: seq<Poi>, distance: Matrix, medoids: seq<nat>, items: seq<nat>)
    requires Square(distance) && |distance| == |pois|
    requires medoids != [] && Within(medoids, |pois|)
  {
    && Within(items, |pois|)
    && forall i | 0 < i < |items| :: !RegretLess(pois, distance, medoids, items[i - 1], items[i])
  }

  /** Stable insertion: `x` came before everything in `items`, so it stays ahead of its equals. */
  function InsertByRegret(pois: seq<Poi>, distance: Matrix, medoids: seq<nat>, x: nat, items: seq<nat>): (r: seq<nat>)
    requires Square(distance) && |distance| == |pois| && x < |pois|
    requires medoids != [] && Within(medoids, |pois|) && Within(items, |pois|)
    ensures |r| == |items| + 1 && Within(r, |pois|)
  {
    if items == [] || !RegretLess(pois, distance, medoids, x, items[0]) then [x] + items
    else [items[0]] + InsertByRegret(pois, distance, medoids, x, items[1..])
  }

  function SortByRegret(pois: seq<Poi>, distance: Matrix, medoids: seq<nat>, items: seq<nat>): (r: seq<nat>)
    requires Square(distance) && |distance| == |pois|
    requires medoids != [] && Within(medoids, |pois|) && Within(items, |pois|)
    ensures |r| == |items| && Within(r, |pois|)
  {
    if items == [] then []
    else InsertByRegret(pois, distance, medoids, items[0], SortByRegret(pois, distance, medoids, items[1..]))
  }

  lemma {:induction false} InsertKeepsOrder(pois: seq<Poi>, distance: Matrix, medoids: seq<nat>, x: nat,
                                            items: seq<nat>)
    requires Square(distance) && |distance| == |pois| && x < |pois|
    requires medoids != [] && Within(medoids, |pois|)
    requires RegretDescending(pois, distance, medoids, items)
    ensures RegretDescending(pois, distance, medoids, InsertByRegret(pois, distance, medoids, x, items))
    ensures InsertByRegret(pois, distance, medoids, x, items)[0] == x
            || (items != [] && InsertByRegret(pois, distance, medoids, x, items)[0] == items[0])
  {
    hide Regret;
    if items != [] && RegretLess(pois, distance, medoids, x, items[0]) {
      var r := InsertByRegret(pois, distance, medoids, x, items[1..]);
      InsertKeepsOrder(pois, distance, medoids, x, items[1..]);
      assert !RegretLess(pois, distance, medoids, items[0], r[0]);
    }
  }

  lemma {:induction false} InsertKeepsItems(pois: seq<Poi>, distance: Matrix, medoids: seq<nat>, x: nat,
                                            items: seq<nat>)
    requires Square(distance) && |distance| == |pois| && x < |pois|
    requires medoids != [] && Within(medoids, |pois|) && Within(items, |pois|)
    ensures multiset(InsertByRegret(pois, distance, medoids, x, items)) == multiset(items) + multiset{x}
  {
    hide Regret, RegretLess;
    if items != [] {
      InsertKeepsItems(pois, distance, medoids, x, items[1..]);
      assert items == [items[0]] + items[1..];
    }
  }

  lemma NothingToSort(pois: seq<Poi>, distance: Matrix, medoids: seq<nat>)
    requires Square(distance) && |distance| == |pois| && medoids != [] && Within(medoids, |pois|)
    ensures RegretDescending(pois, distance, medoids, [])
  {
  }

  /** Greatest regret first, and every item still there as often as before. */
  lemma {:induction false} SortedByRegret(pois: seq<Poi>, distance: Matrix, medoids: seq<nat>, items: seq<nat>)
    requires Square(distance) && |distance| == |pois|
    requires medoids != [] && Within(medoids, |pois|) && Within(items, |pois|)
    ensures RegretDescending(pois, distance, medoids, SortByRegret(pois, distance, medoids, items))
    ensures multiset(SortByRegret(pois, distance, medoids, items)) == multiset(items)
  {
    hide Regret, RegretLess, RegretDescending, InsertByRegret;
    if items == [] {
      NothingToSort(pois, distance, medoids);
    } else {
      SortedByRegret(pois, distance, medoids, items[1..]);
      InsertKeepsOrder(pois, distance, medoids, items[0], SortByRegret(pois, distance, medoids, items[1..]));
      InsertKeepsItems(pois, distance, medoids, items[0], SortByRegret(pois, distance, medoids, items[1..]));
      assert items == [items[0]] + items[1..];
    }
  }

  // ---------------------------------------------------------------- assignment

  /** One group per medoid, its load with transfer buffers, and what fits nowhere. */
  datatype Placement = Placement(clusters: seq<seq<nat>>, loads: seq<nat>, unassigned: seq<nat>)

  function FeasibleClusters(loads: seq<nat>, required: nat, capacity: int): (r: seq<nat>)
    ensures forall i :: i in r <==> 0 <= i < |loads| && loads[i] + required <= capacity
    ensures Within(r, |loads|)
  {
    if loads == [] then []
    else
      var last := |loads| - 1;
      FeasibleClusters(loads[..last], required, capacity) + if loads[last] + required <= capacity then [last] else []
  }

  function PlacementKeys(distance: Matrix, medoids: seq<nat>, loads: seq<nat>, index: nat, feasible: seq<nat>)
    : (r: seq<SortKey>)
    requires index < |distance| && Within(medoids, |distance[index]|)
    requires |loads| == |medoids| && Within(feasible, |medoids|)
    ensures |r| == |feasible|
    ensures forall i | 0 <= i < |r| :: r[i] == (distance[index][medoids[feasible[i]]], loads[feasible[i]] as real)
  {
    seq(|feasible|, i requires 0 <= i < |feasible| =>
      (distance[index][medoids[feasible[i]]], loads[feasible[i]] as real))
  }

  /** The nearest group that still has room, the less loaded one among equally near ones. */
  function PlaceOne(pois: seq<Poi>, distance: Matrix, medoids: seq<nat>, capacity: int, st: Placement, index: nat)
    : Placement
    requires Square(distance) && |distance| == |pois| && index < |pois|
    requires Within(medoids, |pois|) && |st.clusters| == |st.loads| == |medoids|
  {
    var required := pois[index].visitMinutes + TRANSFER_BUFFER;
    var feasible := FeasibleClusters(st.loads, required, capacity);
    if feasible == [] then st.(unassigned := st.unassigned + [index])
    else
      var chosen := feasible[ArgMin(PlacementKeys(distance, medoids, st.loads, index, feasible))];
      st.(clusters := st.clusters[chosen := st.clusters[chosen] + [index]],
          loads := st.loads[chosen := st.loads[chosen] + required])
  }

  function StartPlacement(pois: seq<Poi>, medoids: seq<nat>): (st: Placement)
    requires Within(medoids, |pois|)
    ensures |st.clusters| == |st.loads| == |medoids| && st.unassigned == []
  {
    Placement(seq(|medoids|, i requires 0 <= i < |medoids| => [medoids[i]]),
              seq(|medoids|, i requires 0 <= i < |medoids| => pois[medoids[i]].visitMinutes), [])
  }

  /** Placing the items one after the other. */
  function PlaceAll(pois: seq<Poi>, distance: Matrix, medoids: seq<nat>, capacity: int, items: seq<nat>)
    : (st: Placement)
    requires Square(distance) && |distance| == |pois|
    requires Within(medoids, |pois|) && Within(items, |pois|)
    ensures |st.clusters| == |st.loads| == |medoids|
  {
    if items == [] then StartPlacement(pois, medoids)
    else PlaceOne(pois, distance, medoids, capacity,
                  PlaceAll(pois, distance, medoids, capacity, items[..|items| - 1]), items[|items| - 1])
  }

  /** Visits plus one transfer buffer between consecutive visits. */
  function BufferedLoad(pois: seq<Poi>, cluster: seq<nat>): nat
    requires Within(cluster, |pois|)
  {
    if cluster == [] then 0
    else if |cluster| == 1 then pois[cluster[0]].visitMinutes
    else BufferedLoad(pois, cluster[..|cluster| - 1]) + pois[cluster[|cluster| - 1]].visitMinutes + TRANSFER_BUFFER
  }

  /** How often `x` is listed. */
  ghost function Times(s: seq<nat>, x: nat): nat {
    multiset(s)[x]
  }

  lemma TimesExtend(s: seq<nat>, k: nat, x: nat)
    ensures Times(s + [k], x) == Times(s, x) + if x == k then 1 else 0
  {
  }

  /** How often `x` occurs in the groups altogether. */
  ghost function Memberships(clusters: seq<seq<nat>>, x: nat): nat {
    if clusters == [] then 0 else Times(clusters[0], x) + Memberships(clusters[1..], x)
  }

  lemma {:induction false} MembershipsUpdate(clusters: seq<seq<nat>>, k: nat, y: nat, x: nat)
    requires k < |clusters|
    ensures Memberships(clusters[k := clusters[k] + [y]], x) == Memberships(clusters, x) + if x == y then 1 else 0
  {
    TimesExtend(clusters[k], y, x);
    if k > 0 {
      assert clusters[k := clusters[k] + [y]][1..] == clusters[1..][k - 1 := clusters[1..][k - 1] + [y]];
      MembershipsUpdate(clusters[1..], k - 1, y, x);
    } else {
      assert clusters[0 := clusters[0] + [y]][1..] == clusters[1..];
    }
  }

  lemma {:induction false} MembershipsOfStart(clusters: seq<seq<nat>>, medoids: seq<nat>, x: nat)
    requires |clusters| == |medoids| && forall i | 0 <= i < |medoids| :: clusters[i] == [medoids[i]]
    ensures Memberships(clusters, x) == Times(medoids, x)
  {
    if medoids != [] {
      MembershipsOfStart(clusters[1..], medoids[1..], x);
      assert medoids == [medoids[0]] + medoids[1..];
    }
  }

  /** What every placement step keeps. */
  ghost predicate Placed(pois: seq<Poi>, medoids: seq<nat>, capacity: int, items: seq<nat>, st: Placement) {
    && |st.clusters| == |st.loads| == |medoids|
    && (forall i | 0 <= i < |medoids| :: st.clusters[i] != [] && st.clusters[i][0] == medoids[i])
    && (forall i | 0 <= i < |medoids| :: Within(st.clusters[i], |pois|))
    && (forall i | 0 <= i < |medoids| :: st.loads[i] == BufferedLoad(pois, st.clusters[i]))
    && (forall i | 0 <= i < |medoids| && |st.clusters[i]| > 1 :: st.loads[i] <= capacity)
    && (forall x: nat :: Memberships(st.clusters, x) + Times(st.unassigned, x) == Times(medoids, x) + Times(items, x))
    && Within(st.unassigned, |pois|)
    && (forall j, i | 0 <= j < |st.unassigned| && 0 <= i < |medoids| ::
          st.loads[i] + pois[st.unassigned[j]].visitMinutes + TRANSFER_BUFFER > capacity)
  }

  lemma LeavingOutKeeps(pois: seq<Poi>, medoids: seq<nat>, capacity: int, items: seq<nat>, st: Placement, index: nat)
    requires Placed(pois, medoids, capacity, items, st) && index < |pois|
    requires forall i | 0 <= i < |medoids| :: st.loads[i] + pois[index].visitMinutes + TRANSFER_BUFFER > capacity
    ensures Placed(pois, medoids, capacity, items + [index], st.(unassigned := st.unassigned + [index]))
  {
    forall x: nat ensures Memberships(st.clusters, x) + Times(st.unassigned + [index], x)
        == Times(medoids, x) + Times(items + [index], x) {
      TimesExtend(st.unassigned, index, x);
      TimesExtend(items, index, x);
    }
  }

  lemma GrownLoad(pois: seq<Poi>, cluster: seq<nat>, index: nat)
    requires cluster != [] && Within(cluster, |pois|) && index < |pois|
    ensures Within(cluster + [index], |pois|)
    ensures BufferedLoad(pois, cluster + [index])
         == BufferedLoad(pois, cluster) + pois[index].visitMinutes + TRANSFER_BUFFER
  {
    assert (cluster + [index])[..|cluster|] == cluster;
  }

  lemma JoiningKeeps(pois: seq<Poi>, medoids: seq<nat>, capacity: int, items: seq<nat>, st: Placement, index: nat,
                     chosen: nat)
    requires Placed(pois, medoids, capacity, items, st) && index < |pois| && chosen < |medoids|
    requires st.loads[chosen] + pois[index].visitMinutes + TRANSFER_BUFFER <= capacity
    ensures Placed(pois, medoids, capacity, items + [index],
                   st.(clusters := st.clusters[chosen := st.clusters[chosen] + [index]],
                       loads := st.loads[chosen := st.loads[chosen] + pois[index].visitMinutes + TRANSFER_BUFFER]))
  {
    hide Memberships, Times, BufferedLoad;
    var cluster := st.clusters[chosen] + [index];
    GrownLoad(pois, st.clusters[chosen], index);
    var clusters1 := st.clusters[chosen := cluster];
    forall x: nat ensures Memberships(clusters1, x) + Times(st.unassigned, x)
        == Times(medoids, x) + Times(items + [index], x) {
      MembershipsUpdate(st.clusters, chosen, index, x);
      TimesExtend(items, index, x);
    }
  }

  lemma PlaceOneKeeps(pois: seq<Poi>, distance: Matrix, medoids: seq<nat>, capacity: int, items: seq<nat>,
                      st: Placement, index: nat)
    requires Square(distance) && |distance| == |pois| && index < |pois|
    requires Within(medoids, |pois|) && Within(items, |pois|)
    requires Placed(pois, medoids, capacity, items, st)
    ensures Placed(pois, medoids, capacity, items + [index], PlaceOne(pois, distance, medoids, capacity, st, index))
  {
    var required := pois[index].visitMinutes + TRANSFER_BUFFER;
    var feasible := FeasibleClusters(st.loads, required, capacity);
    if feasible == [] {
      forall i | 0 <= i < |medoids| ensures st.loads[i] + required > capacity {
        assert i !in feasible;
      }
      LeavingOutKeeps(pois, medoids, capacity, items, st, index);
    } else {
      var chosen := feasible[ArgMin(PlacementKeys(distance, medoids, st.loads, index, feasible))];
      assert chosen in feasible;
      JoiningKeeps(pois, medoids, capacity, items, st, index, chosen);
    }
  }

  /** Of the groups with room the nearest, of equally near ones the least loaded, and of those the first. */
  predicate NearestWithRoom(distance: Matrix, medoids: seq<nat>, loads: seq<nat>, index: nat, required: nat,
                            capacity: int, chosen: nat)
    requires index < |distance| && Within(medoids, |distance[index]|) && |loads| == |medoids|
  {
    && chosen < |medoids| && loads[chosen] + required <= capacity
    && forall i | 0 <= i < |medoids| && loads[i] + required <= capacity ::
         || distance[index][medoids[chosen]] < distance[index][medoids[i]]
         || (distance[index][medoids[chosen]] == distance[index][medoids[i]]
             && (if i < chosen then loads[chosen] < loads[i] else loads[chosen] <= loads[i]))
  }

  lemma {:induction false} FeasibleInOrder(loads: seq<nat>, required: nat, capacity: int)
    ensures Increasing(FeasibleClusters(loads, required, capacity), |loads|)
  {
    if loads != [] {
      FeasibleInOrder(loads[..|loads| - 1], required, capacity);
    }
  }

  /** An item is left out only if no group has room; otherwise it joins the nearest one that has. */
  lemma JoinsNearest(pois: seq<Poi>, distance: Matrix, medoids: seq<nat>, capacity: int, st: Placement, index: nat)
    returns (chosen: nat)
    requires Square(distance) && |distance| == |pois| && index < |pois|
    requires Within(medoids, |pois|) && |st.clusters| == |st.loads| == |medoids|
    ensures var required := pois[index].visitMinutes + TRANSFER_BUFFER;
            var placed := PlaceOne(pois, distance, medoids, capacity, st, index);
            if exists i :: 0 <= i < |medoids| && st.loads[i] + required <= capacity
            then && NearestWithRoom(distance, medoids, st.loads, index, required, capacity, chosen)
                 && placed.unassigned == st.unassigned
                 && placed.clusters == st.clusters[chosen := st.clusters[chosen] + [index]]
                 && placed.loads == st.loads[chosen := st.loads[chosen] + required]
            else placed == st.(unassigned := st.unassigned + [index])
  {
    hide FeasibleClusters, ArgMin;
    var required := pois[index].visitMinutes + TRANSFER_BUFFER;
    var feasible := FeasibleClusters(st.loads, required, capacity);
    if feasible == [] {
      chosen := 0;
      forall i | 0 <= i < |medoids| ensures st.loads[i] + required > capacity {
        assert i !in feasible;
      }
    } else {
      var keys := PlacementKeys(distance, medoids, st.loads, index, feasible);
      chosen := feasible[ArgMin(keys)];
      assert chosen in feasible;
      FeasibleInOrder(st.loads, required, capacity);
      forall i | 0 <= i < |medoids| && st.loads[i] + required <= capacity
        ensures !KeyLess((distance[index][medoids[i]], st.loads[i] as real),
                         (distance[index][medoids[chosen]], st.loads[chosen] as real))
        ensures i < chosen ==> KeyLess((distance[index][medoids[chosen]], st.loads[chosen] as real),
                                       (distance[index][medoids[i]], st.loads[i] as real))
      {
        assert i in feasible;
        var k :| 0 <= k < |feasible| && feasible[k] == i;
        assert !KeyLess(keys[k], keys[ArgMin(keys)]);
        assert k < ArgMin(keys) ==> KeyLess(keys[ArgMin(keys)], keys[k]);
      }
    }
  }

  lemma StartPlaced(pois: seq<Poi>, medoids: seq<nat>, capacity: int)
    requires Within(medoids, |pois|)
    ensures Placed(pois, medoids, capacity, [], StartPlacement(pois, medoids))
  {
    hide Memberships;
    var st := StartPlacement(pois, medoids);
    forall x: nat ensures Memberships(st.clusters, x) == Times(medoids, x) {
      MembershipsOfStart(st.clusters, medoids, x);
    }
  }

  lemma {:induction false} PlaceAllKeeps(pois: seq<Poi>, distance: Matrix, medoids: seq<nat>, capacity: int,
                                         items: seq<nat>)
    requires Square(distance) && |distance| == |pois|
    requires Within(medoids, |pois|) && Within(items, |pois|)
    ensures Placed(pois, medoids, capacity, items, PlaceAll(pois, distance, medoids, capacity, items))
  {
    hide Placed, PlaceOne;
    if items == [] {
      StartPlaced(pois, medoids, capacity);
    } else {
      var init := items[..|items| - 1];
      PlaceAllKeeps(pois, distance, medoids, capacity, init);
      PlaceOneKeeps(pois, distance, medoids, capacity, init, PlaceAll(pois, distance, medoids, capacity, init),
                    items[|items| - 1]);
      assert init + [items[|items| - 1]] == items;
    }
  }

  /** The assignment for one list of medoids: greatest regret first. */
  function Assigned(pois: seq<Poi>, distance: Matrix, medoids: seq<nat>, capacity: int): (st: Placement)
    requires Square(distance) && |distance| == |pois|
    requires medoids != [] && Within(medoids, |pois|)
    ensures |st.clusters| == |st.loads| == |medoids|
  {
    PlaceAll(pois, distance, medoids, capacity, SortByRegret(pois, distance, medoids, Others(|pois|, medoids)))
  }

  lemma PlaceAllStarts(pois: seq<Poi>, distance: Matrix, medoids: seq<nat>, capacity: int)
    requires Square(distance) && |distance| == |pois| && Within(medoids, |pois|)
    ensures PlaceAll(pois, distance, medoids, capacity, []) == StartPlacement(pois, medoids)
  {
  }

  lemma PlaceAllGrows(pois: seq<Poi>, distance: Matrix, medoids: seq<nat>, capacity: int, items: seq<nat>, n: nat)
    requires Square(distance) && |distance| == |pois|
    requires Within(medoids, |pois|) && Within(items, |pois|) && n < |items|
    ensures PlaceAll(pois, distance, medoids, capacity, items[..n + 1])
            == PlaceOne(pois, distance, medoids, capacity, PlaceAll(pois, distance, medoids, capacity, items[..n]),
                        items[n])
  {
    hide PlaceOne;
    assert items[..n + 1][..n] == items[..n];
  }

  method AssignToMedoids(pois: seq<Poi>, distance: Matrix, medoids: seq<nat>, capacity: int)
    returns (clusters: seq<seq<nat>>, unassigned: seq<nat>)
    requires Square(distance) && |distance| == |pois|
    requires medoids != [] && Within(medoids, |pois|)
    ensures clusters == Assigned(pois, distance, medoids, capacity).clusters
    ensures unassigned == Assigned(pois, distance, medoids, capacity).unassigned
  {
    hide PlaceAll, SortByRegret, ArgMin, Others, Distinct;
    var start := StartPlacement(pois, medoids);
    clusters, unassigned := start.clusters, [];
    var loads: seq<nat> := start.loads;
    var remaining := SortByRegret(pois, distance, medoids, Others(|pois|, medoids));
    assert remaining[..0] == [];
    PlaceAllStarts(pois, distance, medoids, capacity);
    for n := 0 to |remaining|
      invariant Placement(clusters, loads, unassigned) == PlaceAll(pois, distance, medoids, capacity, remaining[..n])
    {
      PlaceAllGrows(pois, distance, medoids, capacity, remaining, n);
      var index := remaining[n];
      var required := pois[index].visitMinutes + TRANSFER_BUFFER;
      var feasible := FeasibleClusters(loads, required, capacity);
      if feasible == [] {
        unassigned := unassigned + [index];
      } else {
        var chosen := feasible[ArgMin(PlacementKeys(distance, medoids, loads, index, feasible))];
        clusters := clusters[chosen := clusters[chosen] + [index]];
        loads := loads[chosen := loads[chosen] + required];
      }
    }
    assert remaining[..|remaining|] == remaining;
  }

  /** Groups and leftovers in which every attraction occurs exactly once. */
  ghost predicate Partition(n: nat, clusters: seq<seq<nat>>, unassigned: seq<nat>) {
    forall x: nat :: Memberships(clusters, x) + Times(unassigned, x) == if x < n then 1 else 0
  }

  /** What every explored grouping satisfies. */
  ghost predicate ValidGrouping(pois: seq<Poi>, capacity: int, clusters: seq<seq<nat>>, medoids: seq<nat>,
                                unassigned: seq<nat>) {
    && |clusters| == |medoids|
    && IndexList(medoids, |pois|)
    && Partition(|pois|, clusters, unassigned)
    && Within(unassigned, |pois|)
    && (forall i | 0 <= i < |clusters| ::
        clusters[i] != [] && clusters[i][0] == medoids[i] && Within(clusters[i], |pois|))
    && (forall i | 0 <= i < |clusters| && |clusters[i]| > 1 :: BufferedLoad(pois, clusters[i]) <= capacity)
    && (forall j, i | 0 <= j < |unassigned| && 0 <= i < |clusters| ::
          BufferedLoad(pois, clusters[i]) + pois[unassigned[j]].visitMinutes + TRANSFER_BUFFER > capacity)
  }

  lemma AssignedIsValid(pois: seq<Poi>, distance: Matrix, medoids: seq<nat>, capacity: int)
    requires Square(distance) && |distance| == |pois|
    requires medoids != [] && IndexList(medoids, |pois|)
    ensures var st := Assigned(pois, distance, medoids, capacity);
            ValidGrouping(pois, capacity, st.clusters, medoids, st.unassigned)
  {
    var others := Others(|pois|, medoids);
    var items := SortByRegret(pois, distance, medoids, others);
    SortedByRegret(pois, distance, medoids, others);
    PlaceAllKeeps(pois, distance, medoids, capacity, items);
    OthersAre(|pois|, medoids);
    forall x: nat ensures Times(medoids, x) + Times(items, x) == if x < |pois| then 1 else 0 {
      DistinctMultiset(medoids, x);
      DistinctMultiset(others, x);
    }
  }

  // ---------------------------------------------------------------- re-centring

  function DistanceSum(distance: Matrix, from: nat, cluster: seq<nat>): real
    requires from < |distance| && Within(cluster, |distance[from]|)
  {
    if cluster == [] then 0.0
    else DistanceSum(distance, from, cluster[..|cluster| - 1]) + distance[from][cluster[|cluster| - 1]]
  }

  function CentreKeys(distance: Matrix, cluster: seq<nat>): (r: seq<SortKey>)
    requires Square(distance) && Within(cluster, |distance|)
    ensures |r| == |cluster|
    ensures forall i | 0 <= i < |r| :: r[i] == (DistanceSum(distance, cluster[i], cluster), 0.0)
  {
    seq(|cluster|, i requires 0 <= i < |cluster| => (DistanceSum(distance, cluster[i], cluster), 0.0))
  }

  /** The member with the least total distance to the group. */
  function Centre(distance: Matrix, cluster: seq<nat>): (r: nat)
    requires Square(distance) && Within(cluster, |distance|) && cluster != []
    ensures r in cluster && r < |distance|
    ensures forall i | 0 <= i < |cluster| ::
              DistanceSum(distance, r, cluster) <= DistanceSum(distance, cluster[i], cluster)
  {
    var keys := CentreKeys(distance, cluster);
    var k := ArgMin(keys);
    assert forall i | 0 <= i < |cluster| :: keys[k].0 <= keys[i].0;
    cluster[k]
  }

  function Centres(distance: Matrix, clusters: seq<seq<nat>>): (r: seq<nat>)
    requires Square(distance)
    requires forall i | 0 <= i < |clusters| :: clusters[i] != [] && Within(clusters[i], |distance|)
    ensures |r| == |clusters| && Within(r, |distance|)
    ensures forall i | 0 <= i < |r| :: r[i] == Centre(distance, clusters[i])
  {
    if clusters == [] then []
    else Centres(distance, clusters[..|clusters| - 1]) + [Centre(distance, clusters[|clusters| - 1])]
  }

  lemma {:induction false} MemberCounts(clusters: seq<seq<nat>>, i: nat, x: nat)
    requires i < |clusters| && x in clusters[i]
    ensures Memberships(clusters, x) >= 1
    ensures forall j | 0 <= j < |clusters| && j != i && x in clusters[j] :: Memberships(clusters, x) >= 2
  {
    if i > 0 {
      MemberCounts(clusters[1..], i - 1, x);
    } else {
      forall j | 0 < j < |clusters| && x in clusters[j] ensures Memberships(clusters[1..], x) >= 1 {
        MemberCounts(clusters[1..], j - 1, x);
      }
    }
  }

  /** Centres of disjoint groups are distinct. */
  lemma CentresDistinct(distance: Matrix, clusters: seq<seq<nat>>, unassigned: seq<nat>)
    requires Square(distance)
    requires forall i | 0 <= i < |clusters| :: clusters[i] != [] && Within(clusters[i], |distance|)
    requires Partition(|distance|, clusters, unassigned)
    ensures IndexList(Centres(distance, clusters), |distance|)
  {
    var r := Centres(distance, clusters);
    forall i, j | 0 <= i < j < |r| ensures r[i] != r[j] {
      MemberCounts(clusters, i, r[i]);
      assert Memberships(clusters, r[i]) + Times(unassigned, r[i]) <= 1;
    }
  }

  // ---------------------------------------------------------------- the iteration

  const UNASSIGNED_PENALTY: real := 1000.0

  function GroupCost(distance: Matrix, clusters: seq<seq<nat>>, medoids: seq<nat>): real
    requires Square(distance) && Within(medoids, |distance|) && |clusters| == |medoids|
    requires forall i | 0 <= i < |clusters| :: Within(clusters[i], |distance|)
  {
    if clusters == [] then 0.0
    else
      var last := |clusters| - 1;
      GroupCost(distance, clusters[..last], medoids[..last]) + DistanceSum(distance, medoids[last], clusters[last])
  }

  function Penalty(pois: seq<Poi>, unassigned: seq<nat>): real
    requires Within(unassigned, |pois|)
  {
    if unassigned == [] then 0.0
    else
      var last := |unassigned| - 1;
      Penalty(pois, unassigned[..last]) + UNASSIGNED_PENALTY + pois[unassigned[last]].score
  }

  /** What one iteration is judged by: distances to the medoids, and a penalty per leftover. */
  function Objective(pois: seq<Poi>, distance: Matrix, capacity: int, medoids: seq<nat>): real
    requires Square(distance) && |distance| == |pois|
    requires medoids != [] && IndexList(medoids, |pois|)
  {
    AssignedIsValid(pois, distance, medoids, capacity);
    var st := Assigned(pois, distance, medoids, capacity);
    GroupCost(distance, st.clusters, medoids) + Penalty(pois, st.unassigned)
  }

  /** The medoids of the next iteration. */
  function Recentred(pois: seq<Poi>, distance: Matrix, capacity: int, medoids: seq<nat>): (r: seq<nat>)
    requires Square(distance) && |distance| == |pois|
    requires medoids != [] && IndexList(medoids, |pois|)
    ensures |r| == |medoids| && IndexList(r, |pois|)
  {
    AssignedIsValid(pois, distance, medoids, capacity);
    var st := Assigned(pois, distance, medoids, capacity);
    CentresDistinct(distance, st.clusters, st.unassigned);
    Centres(distance, st.clusters)
  }

  function MedoidsAt(pois: seq<Poi>, distance: Matrix, capacity: int, initial: seq<nat>, t: nat): (r: seq<nat>)
    requires Square(distance) && |distance| == |pois|
    requires initial != [] && IndexList(initial, |pois|)
    ensures |r| == |initial| && IndexList(r, |pois|)
  {
    if t == 0 then initial
    else Recentred(pois, distance, capacity, MedoidsAt(pois, distance, capacity, initial, t - 1))
  }

  /** The grouping of iteration `best` is the first cheapest of the first `count` iterations. */
  ghost predicate CheapestIteration(pois: seq<Poi>, distance: Matrix, capacity: int, initial: seq<nat>, count: nat,
                                    best: nat,
                                    clusters: seq<seq<nat>>, medoids: seq<nat>, unassigned: seq<nat>)
  {
    && Square(distance) && |distance| == |pois|
    && initial != [] && IndexList(initial, |pois|)
    && best < count
    && medoids == MedoidsAt(pois, distance, capacity, initial, best)
    && clusters == Assigned(pois, distance, medoids, capacity).clusters
    && unassigned == Assigned(pois, distance, medoids, capacity).unassigned
    && (forall t: nat | t < count ::
          Objective(pois, distance, capacity, medoids)
          <= Objective(pois, distance, capacity, MedoidsAt(pois, distance, capacity, initial, t)))
    && (forall t: nat | t < best ::
          Objective(pois, distance, capacity, medoids)
          < Objective(pois, distance, capacity, MedoidsAt(pois, distance, capacity, initial, t)))
  }

  /** Once re-centring changes nothing, no later iteration would. */
  lemma {:induction false} FixedPoint(pois: seq<Poi>, distance: Matrix, capacity: int, initial: seq<nat>, t: nat,
                                      later: nat)
    requires Square(distance) && |distance| == |pois|
    requires initial != [] && IndexList(initial, |pois|)
    requires MedoidsAt(pois, distance, capacity, initial, t + 1) == MedoidsAt(pois, distance, capacity, initial, t)
    requires t <= later
    ensures MedoidsAt(pois, distance, capacity, initial, later) == MedoidsAt(pois, distance, capacity, initial, t)
    decreases later - t
  {
    hide Recentred, Distinct;
    if later > t {
      FixedPoint(pois, distance, capacity, initial, t, later - 1);
    }
  }

  lemma StoppingLosesNothing(pois: seq<Poi>, distance: Matrix, capacity: int, initial: seq<nat>, t: nat, max: nat,
                             best: nat,
                             clusters: seq<seq<nat>>, medoids: seq<nat>, unassigned: seq<nat>)
    requires CheapestIteration(pois, distance, capacity, initial, t + 1, best, clusters, medoids, unassigned)
    requires MedoidsAt(pois, distance, capacity, initial, t + 1) == MedoidsAt(pois, distance, capacity, initial, t)
    requires t < max
    ensures CheapestIteration(pois, distance, capacity, initial, max, best, clusters, medoids, unassigned)
  {
    hide Recentred, Distinct, MedoidsAt, Objective, Assigned;
    forall s: nat | s < max
      ensures Objective(pois, distance, capacity, medoids)
              <= Objective(pois, distance, capacity, MedoidsAt(pois, distance, capacity, initial, s))
    {
      if t < s {
        FixedPoint(pois, distance, capacity, initial, t, s);
      }
    }
  }

  lemma CheapestSoFar(pois: seq<Poi>, distance: Matrix, capacity: int, initial: seq<nat>, count: nat, best: nat,
                      clusters: seq<seq<nat>>, medoids: seq<nat>, unassigned: seq<nat>)
    requires CheapestIteration(pois, distance, capacity, initial, count, best, clusters, medoids, unassigned)
    ensures var next := MedoidsAt(pois, distance, capacity, initial, count);
            var st := Assigned(pois, distance, next, capacity);
            if Objective(pois, distance, capacity, next) < Objective(pois, distance, capacity, medoids)
            then CheapestIteration(pois, distance, capacity, initial, count + 1, count, st.clusters, next,
                                   st.unassigned)
            else CheapestIteration(pois, distance, capacity, initial, count + 1, best, clusters, medoids, unassigned)
  {
    hide Recentred, Distinct, MedoidsAt, Objective, Assigned;
  }

  lemma FirstIteration(pois: seq<Poi>, distance: Matrix, capacity: int, initial: seq<nat>)
    requires Square(distance) && |distance| == |pois|
    requires initial != [] && IndexList(initial, |pois|)
    ensures MedoidsAt(pois, distance, capacity, initial, 0) == initial
    ensures var st := Assigned(pois, distance, initial, capacity);
            CheapestIteration(pois, distance, capacity, initial, 1, 0, st.clusters, initial, st.unassigned)
  {
    hide Distinct, Objective, Assigned;
  }

  lemma NextMedoids(pois: seq<Poi>, distance: Matrix, capacity: int, initial: seq<nat>, t: nat)
    requires Square(distance) && |distance| == |pois|
    requires initial != [] && IndexList(initial, |pois|)
    ensures MedoidsAt(pois, distance, capacity, initial, t + 1)
         == Recentred(pois, distance, capacity, MedoidsAt(pois, distance, capacity, initial, t))
  {
    hide Recentred, Distinct, Within;
  }

  /** What an iteration computes from its groups. */
  lemma IterationFacts(pois: seq<Poi>, distance: Matrix, capacity: int, medoids: seq<nat>)
    requires Square(distance) && |distance| == |pois|
    requires medoids != [] && IndexList(medoids, |pois|)
    ensures var st := Assigned(pois, distance, medoids, capacity);
            && |st.clusters| == |medoids|
            && Within(medoids, |distance|)
            && (forall i | 0 <= i < |st.clusters| :: st.clusters[i] != [] && Within(st.clusters[i], |distance|))
            && Within(st.unassigned, |pois|)
            && Objective(pois, distance, capacity, medoids)
               == GroupCost(distance, st.clusters, medoids) + Penalty(pois, st.unassigned)
            && Recentred(pois, distance, capacity, medoids) == Centres(distance, st.clusters)
  {
    hide Distinct, Assigned, GroupCost, Penalty, Partition;
    AssignedIsValid(pois, distance, medoids, capacity);
  }

  lemma CheapestIsValid(pois: seq<Poi>, distance: Matrix, capacity: int, initial: seq<nat>, count: nat, best: nat,
                        clusters: seq<seq<nat>>, medoids: seq<nat>, unassigned: seq<nat>)
    requires CheapestIteration(pois, distance, capacity, initial, count, best, clusters, medoids, unassigned)
    ensures ValidGrouping(pois, capacity, clusters, medoids, unassigned)
  {
    hide Distinct, Assigned, Objective, MedoidsAt, ValidGrouping;
    AssignedIsValid(pois, distance, medoids, capacity);
  }

  lemma FarthestMedoids(pois: seq<Poi>, distance: Matrix, k: nat)
    requires Square(distance) && |distance| == |pois|
    requires 1 <= k <= |pois|
    ensures IndexList(FarthestList(pois, distance, k), |pois|)
  {
    hide Distinct, NextMedoid, Within;
  }

  method CapacitatedKMedoids(pois: seq<Poi>, travelMinutes: Matrix, k: nat, capacity: int, maxIterations: nat)
    returns (bestClusters: seq<seq<nat>>, bestMedoids: seq<nat>, bestUnassigned: seq<nat>)
    requires Square(travelMinutes) && |travelMinutes| == |pois|
    requires 1 <= k <= |pois|
    ensures |bestMedoids| == k
    ensures maxIterations == 0 ==> bestClusters == [] && bestUnassigned == Others(|pois|, [])
    ensures maxIterations >= 1 ==>
              ValidGrouping(pois, capacity, bestClusters, bestMedoids, bestUnassigned)
    ensures maxIterations >= 1 ==>
              var distance := SymmetricMatrix(travelMinutes);
              exists best :: CheapestIteration(pois, distance, capacity, FarthestList(pois, distance, k),
                                               maxIterations, best,
                                               bestClusters, bestMedoids, bestUnassigned)
  {
    hide Distinct, Objective, Assigned, ValidGrouping, CheapestIteration, SymmetricMatrix, FarthestList, Within,
        Recentred,
         MedoidsAt, GroupCost, Penalty, Centres, Others;
    var distance := SymmetricMatrix(travelMinutes);
    var medoids := InitialMedoids(pois, distance, k);
    ghost var initial := medoids;
    bestClusters, bestMedoids, bestUnassigned := [], medoids, Others(|pois|, []);
    var bestObjective: Option<real> := None;
    ghost var best: nat := 0;
    FarthestMedoids(pois, distance, k);
    FirstIteration(pois, distance, capacity, initial);
    for iteration := 0 to maxIterations
      invariant IndexList(medoids, |pois|) && |medoids| == |bestMedoids| == k
      invariant medoids == MedoidsAt(pois, distance, capacity, initial, iteration)
      invariant iteration == 0 ==> bestObjective == None && bestClusters == [] && bestUnassigned == Others(|pois|, [])
      invariant iteration > 0 ==>
                  && CheapestIteration(pois, distance, capacity, initial, iteration, best, bestClusters, bestMedoids,
                                       bestUnassigned)
                  && IndexList(bestMedoids, |pois|)
                  && bestObjective == Some(Objective(pois, distance, capacity, bestMedoids))
    {
      var clusters, unassigned := AssignToMedoids(pois, distance, medoids, capacity);
      IterationFacts(pois, distance, capacity, medoids);
      var objective := GroupCost(distance, clusters, medoids) + Penalty(pois, unassigned);
      if iteration > 0 {
        CheapestSoFar(pois, distance, capacity, initial, iteration, best, bestClusters, bestMedoids, bestUnassigned);
      }
      if bestObjective.None? || objective < bestObjective.value {
        bestClusters, bestMedoids, bestUnassigned := clusters, medoids, unassigned;
        bestObjective := Some(objective);
        best := iteration;
      }
      var newMedoids := Centres(distance, clusters);
      NextMedoids(pois, distance, capacity, initial, iteration);
      if newMedoids == medoids {
        StoppingLosesNothing(pois, distance, capacity, initial, iteration, maxIterations, best,
                             bestClusters, bestMedoids, bestUnassigned);
        break;
      }
      medoids := newMedoids;
    }
    if maxIterations >= 1 {
      CheapestIsValid(pois, distance, capacity, initial, maxIterations, best, bestClusters, bestMedoids,
                      bestUnassigned);
    }
  }

  // ---------------------------------------------------------------- trimming to the real route

  function VisitMinutes(pois: seq<Poi>, cluster: seq<nat>): nat
    requires Within(cluster, |pois|)
  {
    if cluster == [] then 0
    else VisitMinutes(pois, cluster[..|cluster| - 1]) + pois[cluster[|cluster| - 1]].visitMinutes
  }

  function WorstKeys(pois: seq<Poi>, cluster: seq<nat>): (r: seq<SortKey>)
    requires Within(cluster, |pois|)
    ensures |r| == |cluster|
    ensures forall i | 0 <= i < |r| :: r[i] == (pois[cluster[i]].score, -(pois[cluster[i]].visitMinutes as real))
  {
    seq(|cluster|, i requires 0 <= i < |cluster| =>
      (pois[cluster[i]].score, -(pois[cluster[i]].visitMinutes as real)))
  }

  /** Position of the attraction to give up first: worst score, longest visit among equals, the first such. */
  function Worst(pois: seq<Poi>, cluster: seq<nat>): (k: nat)
    requires Within(cluster, |pois|) && cluster != []
    ensures k < |cluster|
    ensures forall i | 0 <= i < |cluster| ::
              || pois[cluster[k]].score < pois[cluster[i]].score
              || (pois[cluster[k]].score == pois[cluster[i]].score
                  && pois[cluster[k]].visitMinutes >= pois[cluster[i]].visitMinutes)
    ensures forall i | 0 <= i < k ::
              || pois[cluster[k]].score < pois[cluster[i]].score
              || (pois[cluster[k]].score == pois[cluster[i]].score
                  && pois[cluster[k]].visitMinutes > pois[cluster[i]].visitMinutes)
  {
    var keys := WorstKeys(pois, cluster);
    var k := ArgMin(keys);
    assert forall i | 0 <= i < |cluster| :: !KeyLess(keys[i], keys[k]);
    assert forall i | 0 <= i < k :: KeyLess(keys[k], keys[i]);
    k
  }

  /** The group after giving up its `m` worst attractions, one after the other. */
  function AfterDropping(pois: seq<Poi>, cluster: seq<nat>, m: nat): (r: seq<nat>)
    requires Within(cluster, |pois|) && m < |cluster|
    ensures |r| == |cluster| - m && Within(r, |pois|)
  {
    if m == 0 then cluster
    else
      var r := AfterDropping(pois, cluster, m - 1);
      Without(r, Worst(pois, r))
  }

  function Dropped(pois: seq<Poi>, cluster: seq<nat>, m: nat): (r: seq<nat>)
    requires Within(cluster, |pois|) && m < |cluster|
    ensures |r| == m
  {
    if m == 0 then []
    else
      var r := AfterDropping(pois, cluster, m - 1);
      Dropped(pois, cluster, m - 1) + [r[Worst(pois, r)]]
  }

  /** The visits and the route that `shortest_open_path` returns for the group stay within the day. */
  ghost predicate FitsDay(pois: seq<Poi>, matrix: Matrix, order: SetOrder, cluster: seq<nat>, capacity: int)
    requires Within(cluster, |pois|)
  {
    && Addressable(matrix, cluster) && Iterates(order)
    && VisitMinutes(pois, cluster) as real + Route(cluster, matrix, order).1 <= capacity as real
  }

  /** Up to ten stops it fits exactly when some order of its stops fits. */
  lemma ShortGroupFitsIfAnyOrderDoes(pois: seq<Poi>, matrix: Matrix, order: SetOrder, cluster: seq<nat>, capacity: int)
    requires Within(cluster, |pois|) && |cluster| <= 10 && Addressable(matrix, cluster) && Iterates(order)
    ensures FitsDay(pois, matrix, order, cluster, capacity) <==>
              exists path :: Arrangement(cluster, path) && Addressable(matrix, path)
                && VisitMinutes(pois, cluster) as real + Length(matrix, path) <= capacity as real
  {
    hide Route, VisitMinutes, Length, Addressable, Arrangement, Iterates;
    RouteIsOpenPath(cluster, matrix, order);
    var (path, cost) := Route(cluster, matrix, order);
    assert Arrangement(cluster, path);
  }

  /** The group is what is left after giving up exactly the `m` worst attractions that made it overrun. */
  ghost predicate TrimmedTo(pois: seq<Poi>, matrix: Matrix, order: SetOrder, original: seq<nat>, capacity: int,
                            m: nat, cluster: seq<nat>, dropped: seq<nat>)
    requires Within(original, |pois|)
  {
    && m < |original|
    && cluster == AfterDropping(pois, original, m)
    && dropped == Dropped(pois, original, m)
    && (forall t: nat | t < m :: !FitsDay(pois, matrix, order, AfterDropping(pois, original, t), capacity))
    && (|cluster| > 1 ==> FitsDay(pois, matrix, order, cluster, capacity))
  }

  lemma WithoutTimes(s: seq<nat>, k: nat, x: nat)
    requires k < |s|
    ensures Times(Without(s, k), x) + (if x == s[k] then 1 else 0) == Times(s, x)
  {
    WithoutMultiset(s, k);
    assert s[k] in multiset(s);
  }

  lemma {:induction false} DroppingKeepsMembers(pois: seq<Poi>, cluster: seq<nat>, m: nat, x: nat)
    requires Within(cluster, |pois|) && m < |cluster|
    ensures Times(AfterDropping(pois, cluster, m), x) + Times(Dropped(pois, cluster, m), x) == Times(cluster, x)
    ensures Within(Dropped(pois, cluster, m), |pois|)
  {
    hide Without, Worst;
    if m > 0 {
      DroppingKeepsMembers(pois, cluster, m - 1, x);
      var r := AfterDropping(pois, cluster, m - 1);
      WithoutTimes(r, Worst(pois, r), x);
      TimesExtend(Dropped(pois, cluster, m - 1), r[Worst(pois, r)], x);
    }
  }

  lemma WithinAddressable(matrix: Matrix, cluster: seq<nat>)
    requires Square(matrix) && Within(cluster, |matrix|)
    ensures Addressable(matrix, cluster)
  {
  }

  method TrimCluster(original: seq<nat>, pois: seq<Poi>, matrix: Matrix,
                     order: SetOrder, capacity: int)
    returns (cluster: seq<nat>, dropped: seq<nat>)
    requires Square(matrix) && |matrix| == |pois| && Iterates(order)
    requires Within(original, |pois|) && original != []
    ensures TrimmedTo(pois, matrix, order, original, capacity, |dropped|, cluster, dropped)
  {
    hide OpenPath, Route, Iterates, Addressable, VisitMinutes, Worst, Without;
    cluster, dropped := original, [];
    ghost var m := 0;
    while |cluster| > 1
      invariant m < |original|
      invariant cluster == AfterDropping(pois, original, m)
      invariant dropped == Dropped(pois, original, m)
      invariant forall t: nat | t < m :: !FitsDay(pois, matrix, order, AfterDropping(pois, original, t), capacity)
      decreases |cluster|
    {
      WithinAddressable(matrix, cluster);
      var path, routeMinutes := ShortestOpenPath(cluster, matrix, order);
      if VisitMinutes(pois, cluster) as real + routeMinutes <= capacity as real {
        break;
      }
      var removable := Worst(pois, cluster);
      dropped := dropped + [cluster[removable]];
      cluster := Without(cluster, removable);
      m := m + 1;
      assert |cluster| == |original| - m;
    }
  }

  ghost predicate ProperlyTrimmed(pois: seq<Poi>, matrix: Matrix, order: SetOrder, original: seq<nat>, capacity: int,
                                  cluster: seq<nat>)
    requires Within(original, |pois|)
  {
    exists m, dropped :: TrimmedTo(pois, matrix, order, original, capacity, m, cluster, dropped)
  }

  /** Group by group: nothing is invented or lost, no group is emptied, and every group with a route fits. */
  ghost predicate TrimmedGroups(pois: seq<Poi>, matrix: Matrix, order: SetOrder, capacity: int, clusters: seq<seq<nat>>,
                                trimmed: seq<seq<nat>>, dropped: seq<nat>)
  {
    && |trimmed| == |clusters|
    && (forall i | 0 <= i < |clusters| :: Within(clusters[i], |pois|) && Within(trimmed[i], |pois|) && trimmed[i] != [])
    && (forall i | 0 <= i < |clusters| ::
          ProperlyTrimmed(pois, matrix, order, clusters[i], capacity, trimmed[i]))
    && (forall x: nat :: Memberships(trimmed, x) + Times(dropped, x) == Memberships(clusters, x))
    && Within(dropped, |pois|)
  }

  method TrimClustersToCapacity(clusters: seq<seq<nat>>, pois: seq<Poi>, matrix: Matrix,
                     order: SetOrder, capacity: int)
    returns (trimmed: seq<seq<nat>>, dropped: seq<nat>)
    requires Square(matrix) && |matrix| == |pois| && Iterates(order)
    requires forall i | 0 <= i < |clusters| :: clusters[i] != [] && Within(clusters[i], |pois|)
    ensures TrimmedGroups(pois, matrix, order, capacity, clusters, trimmed, dropped)
  {
    hide TrimmedTo;
    trimmed, dropped := [], [];
    for n := 0 to |clusters|
      invariant TrimmedGroups(pois, matrix, order, capacity, clusters[..n], trimmed, dropped)
    {
      var cluster, out := TrimCluster(clusters[n], pois, matrix, order, capacity);
      TrimStep(pois, matrix, order, capacity, clusters[..n], trimmed, dropped, clusters[n], cluster, out, |out|);
      assert clusters[..n + 1] == clusters[..n] + [clusters[n]];
      trimmed, dropped := trimmed + [cluster], dropped + out;
    }
    assert clusters[..|clusters|] == clusters;
  }

  lemma {:induction false} MembershipsAppend(clusters: seq<seq<nat>>, cluster: seq<nat>, x: nat)
    ensures Memberships(clusters + [cluster], x) == Memberships(clusters, x) + Times(cluster, x)
  {
    if clusters != [] {
      assert (clusters + [cluster])[1..] == clusters[1..] + [cluster];
      MembershipsAppend(clusters[1..], cluster, x);
    }
  }

  lemma TimesAppend(s: seq<nat>, t: seq<nat>, x: nat)
    ensures Times(s + t, x) == Times(s, x) + Times(t, x)
  {
  }

  lemma TrimmedGroupIsProper(pois: seq<Poi>, matrix: Matrix, order: SetOrder, original: seq<nat>, capacity: int,
                             m: nat, cluster: seq<nat>, out: seq<nat>)
    requires Within(original, |pois|)
    requires TrimmedTo(pois, matrix, order, original, capacity, m, cluster, out)
    ensures cluster != [] && Within(cluster, |pois|) && Within(out, |pois|)
    ensures forall x: nat :: Times(cluster, x) + Times(out, x) == Times(original, x)
  {
    hide FitsDay;
    forall x: nat ensures Times(cluster, x) + Times(out, x) == Times(original, x) {
      DroppingKeepsMembers(pois, original, m, x);
    }
    DroppingKeepsMembers(pois, original, m, 0);
  }

  lemma WithinAppend(s: seq<nat>, t: seq<nat>, n: nat)
    requires Within(s, n) && Within(t, n)
    ensures Within(s + t, n)
  {
    forall i | 0 <= i < |s + t| ensures (s + t)[i] < n {
      assert (s + t)[i] == if i < |s| then s[i] else t[i - |s|];
    }
  }

  lemma TrimStep(pois: seq<Poi>, matrix: Matrix, order: SetOrder, capacity: int, clusters: seq<seq<nat>>,
                 trimmed: seq<seq<nat>>, dropped: seq<nat>,
                 original: seq<nat>, cluster: seq<nat>, out: seq<nat>, m: nat)
    requires TrimmedGroups(pois, matrix, order, capacity, clusters, trimmed, dropped)
    requires Within(original, |pois|)
    requires TrimmedTo(pois, matrix, order, original, capacity, m, cluster, out)
    ensures TrimmedGroups(pois, matrix, order, capacity, clusters + [original], trimmed + [cluster], dropped + out)
  {
    hide TrimmedTo, Times;
    assert ProperlyTrimmed(pois, matrix, order, original, capacity, cluster);
    TrimmedGroupIsProper(pois, matrix, order, original, capacity, m, cluster, out);
    var clusters1, trimmed1 := clusters + [original], trimmed + [cluster];
    forall i | 0 <= i < |clusters1|
      ensures Within(clusters1[i], |pois|) && Within(trimmed1[i], |pois|) && trimmed1[i] != []
      ensures ProperlyTrimmed(pois, matrix, order, clusters1[i], capacity, trimmed1[i])
    {
      if i < |clusters| {
        assert clusters1[i] == clusters[i] && trimmed1[i] == trimmed[i];
      } else {
        assert clusters1[i] == original && trimmed1[i] == cluster;
      }
    }
    forall x: nat
      ensures Memberships(trimmed + [cluster], x) + Times(dropped + out, x) == Memberships(clusters + [original], x)
    {
      MembershipsAppend(trimmed, cluster, x);
      MembershipsAppend(clusters, original, x);
      TimesAppend(dropped, out, x);
    }
    WithinAppend(dropped, out, |pois|);
  }
}
