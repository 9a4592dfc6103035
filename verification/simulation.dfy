/**
 * The hourly bike-share simulation: `hours` rounds of Phase 1 (trips on the
 * road advance, dock or are rerouted) followed by Phase 2 (the rentals of
 * the hour), over a stock vector with one slot per hub and two per-hour
 * event counters.
 */
module Simulation {
  import opened Sums
  import opened Network
  import opened Transit
  import opened Rentals

  /**
   * What a run is given: the travel-time matrix (its size is the number of
   * hubs), `distribution[hub][hour]` rentals arriving at `hub` in `hour`,
   * the destination drawn for each of them, the number of hours, the hub
   * capacity and the number of bikes each hub starts with.
   */
  datatype Inputs = Inputs(travel: seq<seq<int>>, distribution: seq<seq<nat>>, draws: seq<seq<seq<nat>>>,
                           hours: nat, maxBikes: nat, initialBikes: nat)

  /**
   * A single hub that starts without bikes: no trip can ever start, so it
   * never has a bike to lend and no destination is ever drawn.
   */
  predicate LoneEmptyHub(p: Inputs)
  {
    |p.travel| == 1 && p.initialBikes == 0
  }

  /**
   * The matrix is square, and every hub has a demand and a draw for each
   * rental of each hour; a hub never draws itself as destination, except a
   * lone hub that starts empty, whose draws are never read.
   */
  predicate WellFormed(p: Inputs)
  {
    var n := |p.travel|;
    IsTravelMatrix(p.travel) && |p.distribution| >= n && |p.draws| >= n &&
    forall h :: 0 <= h < n ==>
      |p.distribution[h]| >= p.hours && |p.draws[h]| >= p.hours &&
      forall hour :: 0 <= hour < p.hours ==>
        p.distribution[h][hour] <= |p.draws[h][hour]| &&
        (ValidDraws(n, h, p.draws[h][hour]) || LoneEmptyHub(p))
  }

  /** The draws of `hour` are usable from any stock a run can reach. */
  lemma WellFormedHour(p: Inputs, hour: nat, stock: seq<int>)
    requires WellFormed(p) && hour < p.hours && |stock| == |p.travel|
    requires LoneEmptyHub(p) ==> stock[0] == 0
    ensures ValidHour(|p.travel|, p.distribution, p.draws, hour, stock)
  {
  }

  /** The number of rentals that arrive in `hour`, over all hubs. */
  function Demand(p: Inputs, hour: nat): nat
    requires WellFormed(p) && hour < p.hours
  {
    HourDemand(p.distribution, hour, |p.travel|)
  }

  /**
   * The engine's state between hours: the stock of each hub, the trips on
   * the road, the counters of the hours done so far and the rental log.
   */
  datatype State = State(stock: seq<int>, inTransit: seq<Trip>, noBike: seq<nat>, noParking: seq<nat>,
                         requests: seq<Rental>)

  /** Every hub holds `initialBikes`; nothing is on the road and no hour has run. */
  function Initial(p: Inputs): State
  {
    State(seq(|p.travel|, _ => p.initialBikes as int), [], [], [], [])
  }

  /** The stock and trips of `st` fit the hubs of `p`; a lone empty hub stays empty with nothing on the road. */
  predicate Fits(p: Inputs, st: State)
  {
    |st.stock| == |p.travel| && ValidTrips(|p.travel|, st.inTransit) &&
    (LoneEmptyHub(p) ==> st.stock[0] == 0 && |st.inTransit| == 0)
  }

  /** Phase 1 of an hour from state `st`. */
  function Phase1(p: Inputs, st: State): (a: Advanced)
    requires WellFormed(p) && Fits(p, st)
    ensures |a.stock| == |p.travel|
    ensures LoneEmptyHub(p) ==> a.stock[0] == 0 && |a.onRoad| == 0 && a.noParking == 0
  {
    AdvanceAll(p.travel, p.maxBikes, st.stock, st.inTransit)
  }

  /** Phase 2 of `hour`, started from what Phase 1 left: its stock, and its trips still on the road. */
  function Phase2(p: Inputs, a: Advanced, hour: nat): Rented
    requires WellFormed(p) && hour < p.hours && |a.stock| == |p.travel|
    requires LoneEmptyHub(p) ==> a.stock[0] == 0
  {
    WellFormedHour(p, hour, a.stock);
    RentAll(p.travel, p.distribution, p.draws, hour, Rented(a.stock, a.onRoad, [], 0), |p.travel|)
  }

  /**
   * A lone hub that starts empty never lends a bike: every rental of the
   * hour is a no-bike event, and the stock and the road stay empty.
   */
  lemma LoneHubIdle(p: Inputs, a: Advanced, hour: nat)
    requires WellFormed(p) && hour < p.hours && |a.stock| == |p.travel|
    requires LoneEmptyHub(p) ==> a.stock[0] == 0
    ensures LoneEmptyHub(p) && |a.onRoad| == 0 ==>
      Phase2(p, a, hour).stock[0] == 0 && |Phase2(p, a, hour).inTransit| == 0 &&
      Phase2(p, a, hour).noBike == p.distribution[0][hour]
  {
    if LoneEmptyHub(p) && |a.onRoad| == 0 {
      WellFormedHour(p, hour, a.stock);
      var acc := Rented(a.stock, a.onRoad, [], 0);
      assert Phase2(p, a, hour)
          == RentMore(p.travel, RentAll(p.travel, p.distribution, p.draws, hour, acc, 0), 0,
                      p.draws[0][hour], p.distribution[0][hour]);
      EmptyHubAllFail(p.travel, acc, 0, p.draws[0][hour], p.distribution[0][hour]);
    }
  }

  /** One hour: Phase 1 completes before any rental of the hour is handled. */
  function Hour(p: Inputs, st: State, hour: nat): (s: State)
    requires WellFormed(p) && hour < p.hours && Fits(p, st)
    ensures Fits(p, s)
    ensures |s.noBike| == |st.noBike| + 1 && |s.noParking| == |st.noParking| + 1
    ensures forall j :: 0 <= j < |st.noBike| ==> s.noBike[j] == st.noBike[j]
    ensures forall j :: 0 <= j < |st.noParking| ==> s.noParking[j] == st.noParking[j]
  {
    var a := Phase1(p, st);
    var r := Phase2(p, a, hour);
    WellFormedHour(p, hour, a.stock);
    LoneHubIdle(p, a, hour);
    RentAllKeepsTripsValid(p.travel, p.distribution, p.draws, hour, Rented(a.stock, a.onRoad, [], 0), |p.travel|);
    State(r.stock, r.inTransit, st.noBike + [r.noBike], st.noParking + [a.noParking], st.requests + r.log)
  }

  /** The state after the first `k` hours. */
  function Run(p: Inputs, k: nat): (s: State)
    requires WellFormed(p) && k <= p.hours
    ensures Fits(p, s) && |s.noBike| == k && |s.noParking| == k
    decreases k
  {
    if k == 0 then Initial(p) else Hour(p, Run(p, k - 1), k - 1)
  }

  /** One hour moves bikes between the stock and the road but neither creates nor destroys one. */
  lemma HourConserves(p: Inputs, st: State, hour: nat)
    requires WellFormed(p) && hour < p.hours && Fits(p, st)
    ensures Sum(Hour(p, st, hour).stock) + |Hour(p, st, hour).inTransit| == Sum(st.stock) + |st.inTransit|
  {
    var a := Phase1(p, st);
    WellFormedHour(p, hour, a.stock);
    AdvanceConserves(p.travel, p.maxBikes, st.stock, st.inTransit);
    RentAllConserves(p.travel, p.distribution, p.draws, hour, Rented(a.stock, a.onRoad, [], 0), |p.travel|);
  }

  /**
   * Conservation: at the end of every hour the bikes parked plus the trips
   * on the road add up to the bikes the run started with.
   */
  lemma {:induction false} RunConserves(p: Inputs, k: nat)
    requires WellFormed(p) && k <= p.hours
    ensures Sum(Run(p, k).stock) + |Run(p, k).inTransit| == |p.travel| * p.initialBikes
    decreases k
  {
    if k == 0 {
      SumConstant(|p.travel|, p.initialBikes);
    } else {
      RunConserves(p, k - 1);
      HourConserves(p, Run(p, k - 1), k - 1);
    }
  }

  /** Each phase of an hour keeps every hub within [0, maxBikes]. */
  lemma HourInBounds(p: Inputs, st: State, hour: nat)
    requires WellFormed(p) && hour < p.hours && Fits(p, st)
    requires InBounds(st.stock, p.maxBikes)
    ensures InBounds(Phase1(p, st).stock, p.maxBikes)
    ensures InBounds(Hour(p, st, hour).stock, p.maxBikes)
  {
    var a := Phase1(p, st);
    WellFormedHour(p, hour, a.stock);
    AdvanceInBounds(p.travel, p.maxBikes, st.stock, st.inTransit);
    RentAllInBounds(p.travel, p.distribution, p.draws, hour, Rented(a.stock, a.onRoad, [], 0), |p.travel|, p.maxBikes);
  }

  /** Starting at or below capacity, every hub stays within [0, maxBikes] after every hour. */
  lemma {:induction false} RunInBounds(p: Inputs, k: nat)
    requires WellFormed(p) && k <= p.hours && p.initialBikes <= p.maxBikes
    ensures InBounds(Run(p, k).stock, p.maxBikes)
    ensures k < p.hours ==> InBounds(Phase1(p, Run(p, k)).stock, p.maxBikes)
    decreases k
  {
    if k > 0 {
      var prev := Run(p, k - 1);
      RunInBounds(p, k - 1);
      HourInBounds(p, prev, k - 1);
      assert Run(p, k) == Hour(p, prev, k - 1);
    }
    if k < p.hours {
      HourInBounds(p, Run(p, k), k);
    }
  }

  /**
   * The counters of an hour are written during that hour only, and are
   * bounded: after `k` hours, the no-bike count of hour `h` is at most the
   * rentals arriving in hour `h`, and its no-parking count is at most the
   * trips on the road when hour `h` began.
   */
  lemma {:induction false} CountersBounded(p: Inputs, k: nat)
    requires WellFormed(p) && k <= p.hours
    ensures forall h :: 0 <= h < k ==> Run(p, k).noBike[h] <= Demand(p, h)
    ensures forall h :: 0 <= h < k ==> Run(p, k).noParking[h] <= |Run(p, h).inTransit|
    decreases k
  {
    if k > 0 {
      CountersBounded(p, k - 1);
      var prev := Run(p, k - 1);
      var s := Hour(p, prev, k - 1);
      assert s == Run(p, k);
      forall h | 0 <= h < k
        ensures s.noBike[h] <= Demand(p, h) && s.noParking[h] <= |Run(p, h).inTransit|
      {
        if h == k - 1 {
          var a := Phase1(p, prev);
          WellFormedHour(p, h, a.stock);
        }
      }
    }
  }

  /**
   * A bike docked in Phase 1 is in the stock Phase 2 sees: if after Phase 1
   * every hub holds at least the rentals that arrive there this hour, the
   * hour has no no-bike event, and Phase 1 never lowered any hub's stock.
   */
  lemma DockedBikesRentable(p: Inputs, st: State, hour: nat)
    requires WellFormed(p) && hour < p.hours && Fits(p, st)
    ensures forall h :: 0 <= h < |p.travel| ==> st.stock[h] <= Phase1(p, st).stock[h]
    ensures (forall h :: 0 <= h < |p.travel| ==> Phase1(p, st).stock[h] >= p.distribution[h][hour]) ==>
      Hour(p, st, hour).noBike[|st.noBike|] == 0
  {
    var a := Phase1(p, st);
    WellFormedHour(p, hour, a.stock);
    AdvanceOnlyAdds(p.travel, p.maxBikes, st.stock, st.inTransit);
    RentAllNoFailure(p.travel, p.distribution, p.draws, hour, Rented(a.stock, a.onRoad, [], 0), |p.travel|);
  }

  /**
   * A lone hub that starts empty runs every hour the same way: each rental
   * is a no-bike event, and nothing is ever on the road to be parked.
   */
  lemma {:induction false} LoneEmptyHubRun(p: Inputs, k: nat)
    requires WellFormed(p) && k <= p.hours && LoneEmptyHub(p)
    ensures forall h :: 0 <= h < k ==> Run(p, k).noBike[h] == Demand(p, h) && Run(p, k).noParking[h] == 0
    decreases k
  {
    if k > 0 {
      LoneEmptyHubRun(p, k - 1);
      var prev := Run(p, k - 1);
      var a := Phase1(p, prev);
      LoneHubIdle(p, a, k - 1);
      assert Run(p, k) == Hour(p, prev, k - 1);
      assert Demand(p, k - 1) == p.distribution[0][k - 1];
    }
  }

  /**
   * One hub with no bikes and two rentals in its only hour: the draws are
   * never read, and both rentals are no-bike events.
   */
  lemma LoneEmptyHubExample()
    ensures var p := Inputs([[0]], [[2]], [[[0, 0]]], 1, 10, 0);
      WellFormed(p) && Run(p, 1).noBike == [2] && Run(p, 1).noParking == [0]
  {
    var p := Inputs([[0]], [[2]], [[[0, 0]]], 1, 10, 0);
    assert WellFormed(p);
    LoneEmptyHubRun(p, 1);
    assert Demand(p, 0) == 2;
  }

  /**
   * Two hubs of capacity 1 holding one bike each, 30 minutes from hub 0 to
   * hub 1 and 45 back, and a single rental, at hub 0 in hour 0, bound for
   * hub 1.
   */
  function FullHubExample(): Inputs
  {
    Inputs([[0, 30], [45, 0]], [[1, 0, 0], [0, 0, 0]], [[[1], [], []], [[], [], []]], 3, 1, 1)
  }

  lemma FullHubExampleWellFormed()
    ensures WellFormed(FullHubExample())
  {
  }

  /** Hour 0 of the example: the rental leaves hub 0 empty and puts a bike on the road to hub 1. */
  lemma FullHubExampleHour0(st: State)
    requires st == State([1, 1], [], [], [], [])
    ensures WellFormed(FullHubExample()) && Fits(FullHubExample(), st)
    ensures Hour(FullHubExample(), st, 0) == State([0, 1], [Trip(0, 1, 30)], [0], [0], [CheckedOut(Trip(0, 1, 30))])
  {
    var p := FullHubExample();
    FullHubExampleWellFormed();
    var a := AdvanceAll(p.travel, 1, [1, 1], []);
    assert a == Advanced([1, 1], [], 0);
    var acc := Rented([1, 1], [], [], 0);
    var atHub0 := RentMore(p.travel, acc, 0, [1], 1);
    assert atHub0 == RentOne(p.travel, acc, 0, 1);
    assert RentAll(p.travel, p.distribution, p.draws, 0, acc, 1) == atHub0;
    assert RentAll(p.travel, p.distribution, p.draws, 0, acc, 2) == atHub0;
  }

  /** Hour 1 of the example: the bike finds hub 1 full and is sent on to hub 0, one no-parking event. */
  lemma FullHubExampleHour1(st: State)
    requires st == State([0, 1], [Trip(0, 1, 30)], [0], [0], [CheckedOut(Trip(0, 1, 30))])
    ensures WellFormed(FullHubExample()) && Fits(FullHubExample(), st)
    ensures Hour(FullHubExample(), st, 1) == State([0, 1], [Trip(0, 0, 45)], [0, 0], [0, 1], st.requests)
  {
    var p := FullHubExample();
    FullHubExampleWellFormed();
    var trips := [Trip(0, 1, 30)];
    assert trips[..0] == [];
    NearestHubClosedForm(2, 1);
    var a := AdvanceAll(p.travel, 1, [0, 1], trips);
    assert a == Advanced([0, 1], [Trip(0, 0, 45)], 1);
    var acc := Rented([0, 1], [Trip(0, 0, 45)], [], 0);
    assert RentAll(p.travel, p.distribution, p.draws, 1, acc, 1) == acc;
    assert RentAll(p.travel, p.distribution, p.draws, 1, acc, 2) == acc;
  }

  /** Hour 2 of the example: the bike docks at hub 0, which has room again. */
  lemma FullHubExampleHour2(st: State)
    requires st == State([0, 1], [Trip(0, 0, 45)], [0, 0], [0, 1], [CheckedOut(Trip(0, 1, 30))])
    ensures WellFormed(FullHubExample()) && Fits(FullHubExample(), st)
    ensures Hour(FullHubExample(), st, 2) == State([1, 1], [], [0, 0, 0], [0, 1, 0], st.requests)
  {
    var p := FullHubExample();
    FullHubExampleWellFormed();
    var trips := [Trip(0, 0, 45)];
    assert trips[..0] == [];
    var a := AdvanceAll(p.travel, 1, [0, 1], trips);
    assert a == Advanced([1, 1], [], 0);
    var acc := Rented([1, 1], [], [], 0);
    assert RentAll(p.travel, p.distribution, p.draws, 2, acc, 1) == acc;
    assert RentAll(p.travel, p.distribution, p.draws, 2, acc, 2) == acc;
  }

  /**
   * The whole example run: hub 0 is empty after hour 0, the bike is
   * rerouted in hour 1 because hub 1 is full, and it docks at hub 0 in
   * hour 2, leaving both hubs full and nothing on the road.
   */
  lemma FullHubReroutesInRun()
    ensures WellFormed(FullHubExample())
    ensures Run(FullHubExample(), 3) ==
      State([1, 1], [], [0, 0, 0], [0, 1, 0], [CheckedOut(Trip(0, 1, 30))])
  {
    var p := FullHubExample();
    FullHubExampleWellFormed();
    var s0 := Run(p, 0);
    assert s0.stock == [1, 1];
    FullHubExampleHour0(s0);
    assert Run(p, 1) == Hour(p, s0, 0);
    var s1 := Run(p, 1);
    FullHubExampleHour1(s1);
    assert Run(p, 2) == Hour(p, s1, 1);
    var s2 := Run(p, 2);
    FullHubExampleHour2(s2);
    assert Run(p, 3) == Hour(p, s2, 2);
  }

  /**
   * One hour of the engine, in place: Phase 1 on the trips on the road, then
   * Phase 2 on what it left. Only slot `hour` of each counter array changes.
   */
  method RunHour(p: Inputs, ghost st: State, bikeStock: array<int>, noBike: array<nat>, noParking: array<nat>,
                 hour: nat, inTransit: seq<Trip>) returns (nowInTransit: seq<Trip>, hourLog: seq<Rental>)
    requires WellFormed(p) && hour < p.hours && Fits(p, st)
    requires bikeStock.Length == |p.travel| && noBike.Length == p.hours && noParking.Length == p.hours
    requires noBike != noParking
    requires bikeStock[..] == st.stock && inTransit == st.inTransit
    modifies bikeStock, noBike, noParking
    ensures var s := Hour(p, st, hour);
      bikeStock[..] == s.stock && nowInTransit == s.inTransit && st.requests + hourLog == s.requests &&
      noBike[hour] == old(noBike[hour]) + s.noBike[|st.noBike|] &&
      noParking[hour] == old(noParking[hour]) + s.noParking[|st.noParking|]
    ensures forall j :: 0 <= j < p.hours && j != hour ==> noBike[j] == old(noBike[j]) && noParking[j] == old(noParking[j])
  {
    WellFormedHour(p, hour, Phase1(p, st).stock);
    var onRoad := AdvanceTransit(p.travel, p.maxBikes, bikeStock, noParking, hour, inTransit);
    nowInTransit, hourLog := ProcessRentals(p.travel, p.distribution, p.draws, bikeStock, noBike, hour, onRoad);
  }

  /**
   * The engine: the stock array starts at `initialBikes` per hub, both
   * counter arrays at zero; each hour runs Phase 1 and then Phase 2 on them.
   * Returns the two per-hour counters and the log of every rental attempt.
   */
  method Simulate(p: Inputs) returns (noBikeEvents: seq<nat>, noParkingEvents: seq<nat>, requests: seq<Rental>)
    requires WellFormed(p)
    ensures var s := Run(p, p.hours);
      noBikeEvents == s.noBike && noParkingEvents == s.noParking && requests == s.requests
    ensures |noBikeEvents| == p.hours && |noParkingEvents| == p.hours
    ensures forall h :: 0 <= h < p.hours ==> noBikeEvents[h] <= Demand(p, h)
  {
    var bikeStock := new int[|p.travel|](_ => p.initialBikes as int);
    var inTransit: seq<Trip> := [];
    var noBike := new nat[p.hours](_ => 0);
    var noParking := new nat[p.hours](_ => 0);
    requests := [];
    ghost var st := Initial(p);
    assert bikeStock[..] == st.stock;
    for hour := 0 to p.hours
      invariant st == Run(p, hour)
      invariant bikeStock[..] == st.stock && inTransit == st.inTransit && requests == st.requests
      invariant forall j :: 0 <= j < hour ==> noBike[j] == st.noBike[j] && noParking[j] == st.noParking[j]
      invariant forall j :: hour <= j < p.hours ==> noBike[j] == 0 && noParking[j] == 0
    {
      ghost var next := Hour(p, st, hour);
      var hourLog;
      inTransit, hourLog := RunHour(p, st, bikeStock, noBike, noParking, hour, inTransit);
      requests := requests + hourLog;
      st := next;
    }
    noBikeEvents, noParkingEvents := noBike[..], noParking[..];
    assert noBikeEvents == st.noBike;
    assert noParkingEvents == st.noParking;
    CountersBounded(p, p.hours);
  }
}
