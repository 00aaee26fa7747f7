/**
  The deterministic middle of `plan_trip`: select candidates, group them by day, trim each group
  to its real route, and match the groups to the forecast days.

  What the network supplies is a parameter: the travel-time table of the selected attractions and
  the price of putting a group on a day.
 */
module Planner {
  import opened Wrappers
  import opened Matrices
  import opened Routing
  import opened Sequences
  import opened Clustering
  import Assignment
  import GroupingOutcomes
  import WeatherAssignment

  /** An attraction as ranked by score, with what decides whether it can be used. */
  datatype Listing = Listing(poi: Poi, permanentlyClosed: bool, located: bool)

  datatype Config = Config(tripDays: nat, dailyMinutes: nat, maxCandidates: nat) {
    /** The ranges the request schema enforces. */
    predicate Valid() {
      1 <= tripDays <= 7 && 240 <= dailyMinutes <= 720 && 3 <= maxCandidates <= 35
    }

    /** The day without the lunch hour. */
    function CapacityWithoutLunch(): int {
      dailyMinutes - 60
    }
  }

  datatype PlanError = InsufficientMappableAttractions | CapacityTooSmall

  /** Groups of candidate numbers, the forecast day of each group, and what was left out. */
  datatype Plan = Plan(selected: seq<Poi>, clusters: seq<seq<nat>>, dayOf: seq<int>, dropped: seq<nat>)

  const ITERATIONS: nat := 12

  predicate IsUsable(listing: Listing, config: Config) {
    && !listing.permanentlyClosed
    && listing.located
    && listing.poi.visitMinutes <= config.CapacityWithoutLunch()
  }

  function Usable(ranked: seq<Listing>, config: Config): (r: seq<Poi>)
    ensures forall i | 0 <= i < |r| :: r[i].visitMinutes <= config.CapacityWithoutLunch()
  {
    if ranked == [] then []
    else
      var last := |ranked| - 1;
      Usable(ranked[..last], config) + if IsUsable(ranked[last], config) then [ranked[last].poi] else []
  }

  function TotalCapacity(config: Config): int {
    config.tripDays * config.CapacityWithoutLunch()
  }

  datatype Choice = Choice(selected: seq<Poi>, load: nat)

  /** The candidates chosen from the first `n` usable attractions, in rank order: always the first
      `tripDays`, then those that still fit the whole trip with a transfer buffer each, up to
      `maxCandidates`. */
  function Chosen(usable: seq<Poi>, config: Config, n: nat): Choice
    requires n <= |usable|
  {
    if n == 0 then Choice([], 0)
    else
      var before := Chosen(usable, config, n - 1);
      var load := usable[n - 1].visitMinutes + if before.selected != [] then TRANSFER_BUFFER else 0;
      if |before.selected| >= config.maxCandidates then before
      else if |before.selected| < config.tripDays
           || before.load + load <= TotalCapacity(config)
      then Choice(before.selected + [usable[n - 1]], before.load + load)
      else before
  }

  method SelectCandidates(usable: seq<Poi>, config: Config) returns (selected: seq<Poi>)
    requires config.Valid()
    ensures selected == Chosen(usable, config, |usable|).selected
    ensures RightChoice(usable, config, selected)
  {
    hide TotalCapacity, ChosenAt, Decided;
    ghost var at := ChoiceIsRanked(usable, config, |usable|);
    var totalCapacity := TotalCapacity(config);
    selected := [];
    var estimatedLoad := 0;
    for n := 0 to |usable|
      invariant |selected| < config.maxCandidates && estimatedLoad >= 0
      invariant Chosen(usable, config, n) == Choice(selected, estimatedLoad)
    {
      var load := usable[n].visitMinutes + if selected != [] then TRANSFER_BUFFER else 0;
      if |selected| < config.tripDays || estimatedLoad + load <= totalCapacity {
        selected := selected + [usable[n]];
        estimatedLoad := estimatedLoad + load;
      }
      if |selected| >= config.maxCandidates {
        ChoiceIsFull(usable, config, n + 1, |usable|);
        break;
      }
    }
  }

  lemma {:induction false} ChoiceIsFull(usable: seq<Poi>, config: Config, n: nat, m: nat)
    requires n <= m <= |usable| && |Chosen(usable, config, n).selected| >= config.maxCandidates
    ensures Chosen(usable, config, m) == Chosen(usable, config, n)
  {
    if n < m {
      ChoiceIsFull(usable, config, n, m - 1);
    }
  }

  function Visits(pois: seq<Poi>): nat {
    if pois == [] then 0 else Visits(pois[..|pois| - 1]) + pois[|pois| - 1].visitMinutes
  }

  /** Distinct places of the ranking, in its order, starting with the first `tripDays`. */
  predicate ChosenAt(usable: seq<Poi>, config: Config, n: nat, selected: seq<Poi>, at: seq<nat>) {
    && |at| == |selected|
    && (forall i | 0 <= i < |at| :: at[i] < n && n <= |usable| && selected[i] == usable[at[i]])
    && (forall i, j | 0 <= i < j < |at| :: at[i] < at[j])
    && (forall i | 0 <= i < |at| && i < config.tripDays :: at[i] == i)
  }

  /** Visits with a transfer buffer between them. */
  function TripLoad(chosen: seq<Poi>): nat {
    Visits(chosen) + if chosen == [] then 0 else TRANSFER_BUFFER * (|chosen| - 1)
  }

  /** Whether another attraction may join those chosen so far: below the candidate limit, one of the first
      `tripDays`, or within the time of the whole trip, lunch hours left out. */
  predicate HasRoom(config: Config, chosen: seq<Poi>, poi: Poi) {
    && |chosen| < config.maxCandidates
    && (|chosen| < config.tripDays || TripLoad(chosen + [poi]) <= config.tripDays * (config.dailyMinutes - 60))
  }

  /** How many of the positions lie before `p`. */
  function Before(at: seq<nat>, p: nat): (c: nat)
    ensures c <= |at|
  {
    if at == [] then 0 else Before(at[..|at| - 1], p) + if at[|at| - 1] < p then 1 else 0
  }

  /** Every attraction of the ranking was decided in its turn: taken if there was room for it with the better
      ones that were taken, and only then. */
  ghost predicate Decided(usable: seq<Poi>, config: Config, n: nat, selected: seq<Poi>, at: seq<nat>)
    requires n <= |usable|
  {
    forall p: nat | p < n ::
      Before(at, p) <= |selected| && (p in at <==> HasRoom(config, selected[..Before(at, p)], usable[p]))
  }

  lemma {:induction false} VisitsAre(pois: seq<Poi>)
    ensures Visits(pois) == SumInts(seq(|pois|, i requires 0 <= i < |pois| => pois[i].visitMinutes))
  {
    if pois != [] {
      var init, last := pois[..|pois| - 1], pois[|pois| - 1];
      VisitsAre(init);
      var minutes: seq<int> := seq(|init|, i requires 0 <= i < |init| => init[i].visitMinutes);
      SumIntsExtends(minutes, last.visitMinutes);
      assert seq(|pois|, i requires 0 <= i < |pois| => pois[i].visitMinutes) == minutes + [last.visitMinutes];
    }
  }

  lemma {:induction false} AllBefore(at: seq<nat>, p: nat)
    requires forall i | 0 <= i < |at| :: at[i] < p
    ensures Before(at, p) == |at|
  {
    if at != [] {
      AllBefore(at[..|at| - 1], p);
    }
  }

  lemma BeforeExtends(at: seq<nat>, last: nat, p: nat)
    ensures Before(at + [last], p) == Before(at, p) + if last < p then 1 else 0
  {
    assert (at + [last])[..|at|] == at;
  }

  lemma LoadExtends(chosen: seq<Poi>, poi: Poi)
    ensures TripLoad(chosen + [poi])
         == TripLoad(chosen) + poi.visitMinutes + if chosen != [] then TRANSFER_BUFFER else 0
  {
    assert (chosen + [poi])[..|chosen|] == chosen;
  }

  /** The choice takes every attraction at most once and in rank order, and decides each in its turn. */
  lemma {:induction false} ChoiceIsRanked(usable: seq<Poi>, config: Config, n: nat) returns (at: seq<nat>)
    requires config.Valid() && n <= |usable|
    ensures var selected := Chosen(usable, config, n).selected;
            ChosenAt(usable, config, n, selected, at) && Decided(usable, config, n, selected, at)
  {
    hide Chosen, ChosenAt, Decided, HasRoom, TotalCapacity;
    if n == 0 {
      at := [];
      NothingToChoose(usable, config);
      NoneChosen(usable, config);
    } else {
      at := ChoiceIsRanked(usable, config, n - 1);
      ChoiceSize(usable, config, n - 1);
      ChoiceLoad(usable, config, n - 1);
      var before, c := Chosen(usable, config, n - 1), Chosen(usable, config, n);
      NextDecision(usable, config, n);
      PositionsBelow(usable, config, n - 1, before.selected, at);
      if HasRoom(config, before.selected, usable[n - 1]) {
        OneMoreChosen(usable, config, n, before.selected, at);
        OneMoreDecided(usable, config, n, before.selected, at);
        at := at + [n - 1];
      } else {
        StillChosen(usable, config, n, c.selected, at);
        StillDecided(usable, config, n, c.selected, at);
      }
    }
  }

  lemma PositionsBelow(usable: seq<Poi>, config: Config, n: nat, selected: seq<Poi>, at: seq<nat>)
    requires ChosenAt(usable, config, n, selected, at)
    ensures |at| == |selected| && forall i | 0 <= i < |at| :: at[i] < n
  {
  }

  lemma NothingToChoose(usable: seq<Poi>, config: Config)
    ensures Chosen(usable, config, 0).selected == []
  {
  }

  lemma NextDecision(usable: seq<Poi>, config: Config, n: nat)
    requires 0 < n <= |usable|
    ensures var before := Chosen(usable, config, n - 1);
            before.load == TripLoad(before.selected) ==>
              Chosen(usable, config, n).selected ==
                if HasRoom(config, before.selected, usable[n - 1]) then before.selected + [usable[n - 1]]
                else before.selected
    ensures var chosen := Chosen(usable, config, n - 1).selected;
            HasRoom(config, chosen, usable[n - 1]) ==> |chosen| < config.maxCandidates
  {
    LoadExtends(Chosen(usable, config, n - 1).selected, usable[n - 1]);
  }

  lemma {:induction false} ChoiceLoad(usable: seq<Poi>, config: Config, n: nat)
    requires n <= |usable|
    ensures Chosen(usable, config, n).load == TripLoad(Chosen(usable, config, n).selected)
  {
    hide TotalCapacity;
    if n > 0 {
      ChoiceLoad(usable, config, n - 1);
      LoadExtends(Chosen(usable, config, n - 1).selected, usable[n - 1]);
    }
  }

  lemma OneMoreDecided(usable: seq<Poi>, config: Config, n: nat, selected: seq<Poi>, at: seq<nat>)
    requires 0 < n <= |usable| && |at| == |selected| && forall i | 0 <= i < |at| :: at[i] < n - 1
    requires Decided(usable, config, n - 1, selected, at) && HasRoom(config, selected, usable[n - 1])
    ensures Decided(usable, config, n, selected + [usable[n - 1]], at + [n - 1])
  {
    hide HasRoom, Before;
    var grown := selected + [usable[n - 1]];
    AllBefore(at, n - 1);
    forall p: nat | p < n
      ensures Before(at + [n - 1], p) <= |grown|
      ensures p in at + [n - 1] <==> HasRoom(config, grown[..Before(at + [n - 1], p)], usable[p])
    {
      BeforeExtends(at, n - 1, p);
      assert grown[..Before(at, p)] == selected[..Before(at, p)];
      assert p in at + [n - 1] <==> p in at || p == n - 1;
      if p == n - 1 {
        assert selected[..|at|] == selected;
        assert p !in at;
      }
    }
  }

  lemma StillDecided(usable: seq<Poi>, config: Config, n: nat, selected: seq<Poi>, at: seq<nat>)
    requires 0 < n <= |usable| && |at| == |selected| && forall i | 0 <= i < |at| :: at[i] < n - 1
    requires Decided(usable, config, n - 1, selected, at) && !HasRoom(config, selected, usable[n - 1])
    ensures Decided(usable, config, n, selected, at)
  {
    hide HasRoom;
    AllBefore(at, n - 1);
    assert selected[..|at|] == selected;
  }

  /** The attractions a plan may use, in rank order: those not closed for good, with coordinates, that one
      day has time for. */
  predicate UsableAt(ranked: seq<Listing>, config: Config, usable: seq<Poi>, at: seq<nat>) {
    && |at| == |usable|
    && (forall i | 0 <= i < |at| :: at[i] < |ranked| && usable[i] == ranked[at[i]].poi)
    && (forall i, j | 0 <= i < j < |at| :: at[i] < at[j])
    && (forall p: nat | p < |ranked| :: p in at <==>
          && !ranked[p].permanentlyClosed && ranked[p].located
          && ranked[p].poi.visitMinutes <= config.dailyMinutes - 60)
  }

  lemma {:induction false} UsableAreRanked(ranked: seq<Listing>, config: Config) returns (at: seq<nat>)
    ensures UsableAt(ranked, config, Usable(ranked, config), at)
  {
    if ranked == [] {
      at := [];
    } else {
      var last := |ranked| - 1;
      at := UsableAreRanked(ranked[..last], config);
      if IsUsable(ranked[last], config) {
        at := at + [last];
      }
    }
  }

  /** What was taken of some attractions: each decided in its turn, in rank order. */
  ghost predicate RightChoice(usable: seq<Poi>, config: Config, selected: seq<Poi>) {
    exists at: seq<nat> ::
      ChosenAt(usable, config, |usable|, selected, at) && Decided(usable, config, |usable|, selected, at)
  }

  /** The candidates of a plan: the usable attractions, decided one after the other. */
  ghost predicate RightCandidates(ranked: seq<Listing>, config: Config, selected: seq<Poi>) {
    exists usable, from: seq<nat> ::
      UsableAt(ranked, config, usable, from) && RightChoice(usable, config, selected)
  }

  lemma NoneChosen(usable: seq<Poi>, config: Config)
    ensures ChosenAt(usable, config, 0, [], []) && Decided(usable, config, 0, [], [])
  {
  }

  lemma OneMoreChosen(usable: seq<Poi>, config: Config, n: nat, selected: seq<Poi>, at: seq<nat>)
    requires 0 < n <= |usable| && ChosenAt(usable, config, n - 1, selected, at)
    requires |selected| < config.tripDays ==> |selected| == n - 1
    ensures ChosenAt(usable, config, n, selected + [usable[n - 1]], at + [n - 1])
  {
  }

  lemma StillChosen(usable: seq<Poi>, config: Config, n: nat, selected: seq<Poi>, at: seq<nat>)
    requires 0 < n <= |usable| && ChosenAt(usable, config, n - 1, selected, at)
    ensures ChosenAt(usable, config, n, selected, at)
  {
  }

  /** It stays within the candidate limit, and reaches one attraction per day exactly when it can. */
  lemma {:induction false} ChoiceSize(usable: seq<Poi>, config: Config, n: nat)
    requires config.Valid() && n <= |usable|
    ensures var size := |Chosen(usable, config, n).selected|;
            && size <= config.maxCandidates
            && (n < config.tripDays || size < config.tripDays ==> size == Smaller(n, config.maxCandidates))
            && (size >= config.tripDays <==> n >= config.tripDays && config.maxCandidates >= config.tripDays)
  {
    hide TotalCapacity;
    if n > 0 {
      ChoiceSize(usable, config, n - 1);
    }
  }

  function Smaller(a: nat, b: nat): nat {
    if a <= b then a else b
  }

  /** Beyond the first `tripDays` attractions it takes only what the whole trip has time for. */
  lemma {:induction false} ChoiceFitsTrip(usable: seq<Poi>, config: Config, n: nat)
    requires n <= |usable|
    ensures var c := Chosen(usable, config, n);
            && c.load == TripLoad(c.selected)
            && (|c.selected| > config.tripDays ==> c.load <= config.tripDays * (config.dailyMinutes - 60))
  {
    hide TotalCapacity;
    if n > 0 {
      ChoiceFitsTrip(usable, config, n - 1);
      var before, c := Chosen(usable, config, n - 1), Chosen(usable, config, n);
      if c != before {
        LoadExtends(before.selected, usable[n - 1]);
      }
    }
    CapacityIs(config);
  }

  lemma CapacityIs(config: Config)
    ensures TotalCapacity(config) == config.tripDays * (config.dailyMinutes - 60)
  {
  }

  /** The day prices: one row per group and one column per day. */
  function CostMatrix(pois: seq<Poi>, clusters: seq<seq<nat>>, days: nat, price: (seq<Poi>, seq<nat>, nat) -> real)
    : (matrix: Matrix)
    ensures |matrix| == |clusters|
    ensures forall i | 0 <= i < |matrix| :: |matrix[i]| == days
    ensures forall i, j | 0 <= i < |matrix| && 0 <= j < days :: matrix[i][j] == price(pois, clusters[i], j)
  {
    seq(|clusters|, i requires 0 <= i < |clusters| =>
      seq(days, j requires 0 <= j < days => price(pois, clusters[i], j)))
  }

  method AssignmentCosts(pois: seq<Poi>, clusters: seq<seq<nat>>, days: nat, price: (seq<Poi>, seq<nat>, nat) -> real)
    returns (matrix: Matrix)
    ensures matrix == CostMatrix(pois, clusters, days, price)
  {
    matrix := [];
    for n := 0 to |clusters|
      invariant matrix == CostMatrix(pois, clusters, days, price)[..n]
    {
      var row := [];
      for day := 0 to days
        invariant row == CostMatrix(pois, clusters, days, price)[n][..day]
      {
        row := row + [price(pois, clusters[n], day)];
      }
      assert row == CostMatrix(pois, clusters, days, price)[n];
      matrix := matrix + [row];
    }
  }

  /** What a returned plan guarantees. */
  ghost predicate SoundPlan(config: Config, travel: Matrix, order: SetOrder, costs: Matrix, plan: Plan) {
    && |plan.clusters| == config.tripDays
    && Square(travel) && |travel| == |plan.selected|
    // every group is non-empty, has a route, and its visits and route fit into the day
    && (forall i | 0 <= i < |plan.clusters| ::
          && plan.clusters[i] != []
          && Within(plan.clusters[i], |plan.selected|)
          && FitsDay(plan.selected, travel, order, plan.clusters[i], config.dailyMinutes - 60))
    // every candidate is scheduled once or reported as dropped once
    && Partition(|plan.selected|, plan.clusters, plan.dropped)
    // groups and days match one to one, at least total cost
    && Rectangular(costs) && |costs| == config.tripDays == Columns(costs)
    && Assignment.IsAssignment(plan.dayOf, config.tripDays, config.tripDays)
    && Assignment.Cheapest(costs, plan.dayOf)
  }

  /** Every forecast day receives exactly one group. */
  lemma EveryDayHasOneGroup(config: Config, travel: Matrix, order: SetOrder, costs: Matrix, plan: Plan, day: nat)
    returns (i: nat)
    requires SoundPlan(config, travel, order, costs, plan) && day < config.tripDays
    ensures i < |plan.clusters| && plan.dayOf[i] == day
    ensures forall k | 0 <= k < |plan.clusters| && plan.dayOf[k] == day :: k == i
  {
    hide FitsDay, Partition, Within, Square;
    i := AssignmentOnto(plan.dayOf, config.tripDays, day);
  }

  lemma AssignmentOnto(a: seq<int>, n: nat, day: nat) returns (i: nat)
    requires Assignment.IsAssignment(a, n, n) && day < n
    ensures i < n && a[i] == day
  {
    var days: seq<nat> := a;
    ListCount(days);
    RangeCount(n, Elements(days));
    assert day in Elements(days);
    i :| 0 <= i < n && days[i] == day;
  }

  /** Every scheduled attraction is in one group only, hence on one day only, and listed there once. */
  lemma ScheduledOnOneDay(config: Config, travel: Matrix, order: SetOrder, costs: Matrix, plan: Plan, x: nat, i: nat,
                          j: nat)
    requires SoundPlan(config, travel, order, costs, plan)
    requires i < |plan.clusters| && j < |plan.clusters|
    requires x in plan.clusters[i] && x in plan.clusters[j]
    ensures i == j && Times(plan.clusters[i], x) == 1 && x !in plan.dropped
  {
    hide FitsDay, Within, Square, Times;
    MemberCounts(plan.clusters, i, x);
    MemberTimes(plan.clusters, i, x);
    ListedTimes(plan.clusters[i], x);
    ListedTimes(plan.dropped, x);
    assert Memberships(plan.clusters, x) + Times(plan.dropped, x) <= 1;
  }

  lemma ListedTimes(s: seq<nat>, x: nat)
    ensures Times(s, x) >= 1 <==> x in s
  {
  }

  lemma {:induction false} MemberTimes(clusters: seq<seq<nat>>, i: nat, x: nat)
    requires i < |clusters|
    ensures Memberships(clusters, x) >= Times(clusters[i], x)
  {
    if i > 0 {
      MemberTimes(clusters[1..], i - 1, x);
    }
  }

  /** Every group fits: trimmed groups by construction, single attractions because longer visits were filtered out. */
  lemma TrimmedGroupFits(pois: seq<Poi>, matrix: Matrix, order: SetOrder, original: seq<nat>, capacity: int,
                         cluster: seq<nat>)
    requires Square(matrix) && |matrix| == |pois| && Iterates(order)
    requires Within(original, |pois|) && Within(cluster, |pois|) && cluster != []
    requires ProperlyTrimmed(pois, matrix, order, original, capacity, cluster)
    requires forall i | 0 <= i < |pois| :: pois[i].visitMinutes <= capacity
    ensures FitsDay(pois, matrix, order, cluster, capacity)
  {
    hide Addressable, Iterates;
    if |cluster| == 1 {
      WithinAddressable(matrix, cluster);
      assert VisitMinutes(pois, cluster) == pois[cluster[0]].visitMinutes;
    }
  }

  lemma PlanIsPartition(n: nat, groups: seq<seq<nat>>, unassigned: seq<nat>, clusters: seq<seq<nat>>, dropped: seq<nat>)
    requires Partition(n, groups, unassigned)
    requires forall x: nat :: Memberships(clusters, x) + Times(dropped, x) == Memberships(groups, x)
    ensures Partition(n, clusters, unassigned + dropped)
  {
    hide Times, Memberships;
    forall x: nat ensures Memberships(clusters, x) + Times(unassigned + dropped, x) == if x < n then 1 else 0 {
      TimesAppend(unassigned, dropped, x);
    }
  }

  /** The groups of a plan: the first cheapest of at most twelve groupings around farthest-first medoids, each
      group trimmed to its day, with everything left over or given up on the way. */
  ghost predicate BestGroups(pois: seq<Poi>, travel: Matrix, order: SetOrder, config: Config, clusters: seq<seq<nat>>,
                             dropped: seq<nat>)
  {
    var capacity := config.dailyMinutes - 60;
    && Square(travel) && |travel| == |pois| && 1 <= config.tripDays <= |pois|
    && exists best, groups, medoids, unassigned, givenUp ::
      && Grouped(pois, travel, config, best, groups, medoids, unassigned)
      && TrimmedGroups(pois, travel, order, capacity, groups, clusters, givenUp)
      && dropped == unassigned + givenUp
  }

  ghost predicate Grouped(pois: seq<Poi>, travel: Matrix, config: Config, best: nat, groups: seq<seq<nat>>,
                          medoids: seq<nat>, unassigned: seq<nat>)
    requires Square(travel) && |travel| == |pois| && 1 <= config.tripDays <= |pois|
  {
    var distance := SymmetricMatrix(travel);
    CheapestIteration(pois, distance, config.dailyMinutes - 60, FarthestList(pois, distance, config.tripDays), 12, best,
                      groups, medoids, unassigned)
  }

  /** No group had room for the attraction beside what it held. */
  predicate NoRoomFor(pois: seq<Poi>, capacity: int, groups: seq<seq<nat>>, x: nat) {
    && x < |pois|
    && forall i | 0 <= i < |groups| ::
         Within(groups[i], |pois|) && BufferedLoad(pois, groups[i]) + pois[x].visitMinutes + 15 > capacity
  }

  /** The attraction was given up as the worst of a group that overran its day. */
  ghost predicate GivenUp(pois: seq<Poi>, travel: Matrix, order: SetOrder, capacity: int, x: nat) {
    exists group, smaller :: GroupingOutcomes.GivesUp(pois, travel, order, capacity, group, smaller, x)
  }

  /** Nothing is left out of a plan without a reason: there was no room for it in any group, or its group
      overran the day and it was the worst of it. */
  lemma DroppedForAReason(pois: seq<Poi>, travel: Matrix, order: SetOrder, config: Config, clusters: seq<seq<nat>>,
                          dropped: seq<nat>, x: nat)
    returns (groups: seq<seq<nat>>)
    requires BestGroups(pois, travel, order, config, clusters, dropped) && x in dropped
    ensures || NoRoomFor(pois, config.dailyMinutes - 60, groups, x)
            || GivenUp(pois, travel, order, config.dailyMinutes - 60, x)
    ensures |groups| == |clusters|
  {
    hide TrimmedGroups, Grouped, NoRoomFor, GivenUp;
    var capacity := config.dailyMinutes - 60;
    var best, grouped, medoids, unassigned, givenUp :|
      && Grouped(pois, travel, config, best, grouped, medoids, unassigned)
      && TrimmedGroups(pois, travel, order, capacity, grouped, clusters, givenUp)
      && dropped == unassigned + givenUp;
    groups := grouped;
    SameNumber(pois, travel, order, capacity, groups, clusters, givenUp);
    if x in unassigned {
      LeftOverHadNoRoom(pois, travel, config, best, groups, medoids, unassigned, x);
    } else {
      TrimmedAsWorst(pois, travel, order, capacity, groups, clusters, givenUp, x);
    }
  }

  lemma SameNumber(pois: seq<Poi>, travel: Matrix, order: SetOrder, capacity: int, groups: seq<seq<nat>>,
                   clusters: seq<seq<nat>>, givenUp: seq<nat>)
    requires TrimmedGroups(pois, travel, order, capacity, groups, clusters, givenUp)
    ensures |groups| == |clusters|
  {
  }

  lemma LeftOverHadNoRoom(pois: seq<Poi>, travel: Matrix, config: Config, best: nat, groups: seq<seq<nat>>,
                          medoids: seq<nat>, unassigned: seq<nat>, x: nat)
    requires Square(travel) && |travel| == |pois| && 1 <= config.tripDays <= |pois|
    requires Grouped(pois, travel, config, best, groups, medoids, unassigned) && x in unassigned
    ensures NoRoomFor(pois, config.dailyMinutes - 60, groups, x)
  {
    hide CheapestIteration, BufferedLoad, Partition, Distinct, FarthestList;
    var distance := SymmetricMatrix(travel);
    CheapestIsValid(pois, distance, config.dailyMinutes - 60, FarthestList(pois, distance, config.tripDays), 12, best,
                    groups, medoids, unassigned);
    var j :| 0 <= j < |unassigned| && unassigned[j] == x;
  }

  lemma TrimmedAsWorst(pois: seq<Poi>, travel: Matrix, order: SetOrder, capacity: int, groups: seq<seq<nat>>,
                       clusters: seq<seq<nat>>, givenUp: seq<nat>, x: nat)
    requires TrimmedGroups(pois, travel, order, capacity, groups, clusters, givenUp) && x in givenUp
    ensures GivenUp(pois, travel, order, capacity, x)
  {
    hide Memberships, Times, FitsDay;
    ListedTimes(givenUp, x);
    var i := LostFrom(groups, clusters, x);
    assert ProperlyTrimmed(pois, travel, order, groups[i], capacity, clusters[i]);
    var m, out :| TrimmedTo(pois, travel, order, groups[i], capacity, m, clusters[i], out);
    DroppingKeepsMembers(pois, groups[i], m, x);
    ListedTimes(out, x);
    var steps := GroupingOutcomes.TrimHistory(pois, travel, order, groups[i], capacity, m);
    var t :| 0 <= t < |out| && out[t] == x;
    assert GroupingOutcomes.GivesUp(pois, travel, order, capacity, steps[t], steps[t + 1], x);
  }

  lemma {:induction false} LostFrom(groups: seq<seq<nat>>, clusters: seq<seq<nat>>, x: nat) returns (i: nat)
    requires |groups| == |clusters| && Memberships(clusters, x) < Memberships(groups, x)
    ensures i < |groups| && Times(clusters[i], x) < Times(groups[i], x)
  {
    hide Times;
    if groups == [] || Times(clusters[0], x) < Times(groups[0], x) {
      i := 0;
    } else {
      i := LostFrom(groups[1..], clusters[1..], x);
      i := i + 1;
    }
  }

  /** Groups the selected attractions and trims the groups: the part of the plan that concerns capacity. */
  method GroupAndTrim(selected: seq<Poi>, travel: Matrix, order: SetOrder, config: Config)
    returns (clusters: seq<seq<nat>>, dropped: seq<nat>)
    requires config.Valid() && config.tripDays <= |selected|
    requires Square(travel) && |travel| == |selected| && Iterates(order)
    requires forall i | 0 <= i < |selected| :: selected[i].visitMinutes <= config.CapacityWithoutLunch()
    ensures |clusters| == config.tripDays
    ensures forall i | 0 <= i < |clusters| ::
              && clusters[i] != [] && Within(clusters[i], |selected|)
              && FitsDay(selected, travel, order, clusters[i], config.CapacityWithoutLunch())
    ensures Partition(|selected|, clusters, dropped)
    ensures BestGroups(selected, travel, order, config, clusters, dropped)
  {
    hide Iterates, FitsDay, Times, Memberships, CheapestIteration, Partition, ProperlyTrimmed, Distinct, BufferedLoad,
         FarthestList;
    var capacity := config.CapacityWithoutLunch();
    var groups, medoids, unassigned := CapacitatedKMedoids(selected, travel, config.tripDays, capacity, ITERATIONS);
    ghost var best: nat :| CheapestIteration(selected, SymmetricMatrix(travel), capacity,
                                             FarthestList(selected, SymmetricMatrix(travel), config.tripDays),
                                                 ITERATIONS,
                                             best, groups, medoids, unassigned);
    var capacityDropped;
    clusters, capacityDropped := TrimClustersToCapacity(groups, selected, travel, order, capacity);
    forall i | 0 <= i < |clusters| ensures FitsDay(selected, travel, order, clusters[i], capacity) {
      TrimmedGroupFits(selected, travel, order, groups[i], capacity, clusters[i]);
    }
    PlanIsPartition(|selected|, groups, unassigned, clusters, capacityDropped);
    dropped := unassigned + capacityDropped;
    assert Grouped(selected, travel, config, best, groups, medoids, unassigned);
  }

  lemma SelectedAreUsable(ranked: seq<Listing>, config: Config, selected: seq<Poi>, at: seq<nat>)
    requires ChosenAt(Usable(ranked, config), config, |Usable(ranked, config)|, selected, at)
    ensures forall i | 0 <= i < |selected| :: selected[i].visitMinutes <= config.CapacityWithoutLunch()
  {
  }

  /** The whole pipeline. It fails exactly when too few attractions can be used, or when the candidate
      limit is below the number of days; otherwise the plan is sound. */
  method PlanTrip(ranked: seq<Listing>, config: Config, travelTimes: seq<Poi> -> Matrix,
                  order: SetOrder, price: (seq<Poi>, seq<nat>, nat) -> real)
    returns (r: Result<Plan, PlanError>)
    requires config.Valid() && Iterates(order)
    requires forall pois :: Square(travelTimes(pois)) && |travelTimes(pois)| == |pois|
    ensures r == Failure(InsufficientMappableAttractions) <==> |Usable(ranked, config)| < config.tripDays
    ensures r == Failure(CapacityTooSmall)
            <==> |Usable(ranked, config)| >= config.tripDays && config.maxCandidates < config.tripDays
    ensures r.Success? ==>
              var plan := r.value;
              && RightCandidates(ranked, config, plan.selected)
              && SoundPlan(config, travelTimes(plan.selected), order,
                           CostMatrix(plan.selected, plan.clusters, config.tripDays, price), plan)
              && BestGroups(plan.selected, travelTimes(plan.selected), order, config, plan.clusters, plan.dropped)
  {
    hide BestGroups, Iterates, FitsDay, Partition, Assignment.Cheapest, Chosen, ChosenAt, Decided, RightChoice, UsableAt, Visits;
    var usable := Usable(ranked, config);
    if |usable| < config.tripDays {
      return Failure(InsufficientMappableAttractions);
    }
    var selected := SelectCandidates(usable, config);
    ghost var at := ChoiceIsRanked(usable, config, |usable|);
    ChoiceSize(usable, config, |usable|);
    SelectedAreUsable(ranked, config, selected, at);
    ghost var from := UsableAreRanked(ranked, config);
    assert RightCandidates(ranked, config, selected);
    if |selected| < config.tripDays {
      return Failure(CapacityTooSmall);
    }
    var travel := travelTimes(selected);
    var clusters, dropped := GroupAndTrim(selected, travel, order, config);
    var costs := AssignmentCosts(selected, clusters, config.tripDays, price);
    var clusterToDay := WeatherAssignment.Hungarian(costs);
    var plan := Plan(selected, clusters, clusterToDay.value, dropped);
    assert SoundPlan(config, travel, order, costs, plan);
    return Success(plan);
  }

  /** A request the schema accepts and the planner refuses for its limits alone: four days and at most three
      candidates, with four attractions of an hour each. */
  lemma RefusedForItsLimits(listing: Listing)
    requires listing == Listing(Poi(1.0, 60), false, true)
    ensures var config := Config(4, 480, 3);
            && config.Valid() && config.maxCandidates < config.tripDays
            && |Usable([listing, listing, listing, listing], config)| == config.tripDays
  {
    var config := Config(4, 480, 3);
    var one, two, three := [listing], [listing, listing], [listing, listing, listing];
    assert [listing, listing, listing, listing][..3] == three && three[..2] == two && two[..1] == one && one[..0] == [];
    assert |Usable(one, config)| == 1 && |Usable(two, config)| == 2 && |Usable(three, config)| == 3;
  }
}
