/**
 * Phase 2 of an hour: hub by hub, each rental that arrives this hour either
 * finds no bike (a no-bike event) or checks one out and starts a trip to the
 * destination drawn for it.
 *
 * The weighted random draw of `simulation_code.py` is replaced by a table
 * supplied by the caller: `draws[hub][hour][k]` is the destination drawn for
 * the k-th rental at `hub` in `hour`, and is only read if that rental gets a
 * bike.
 */
module Rentals {
  import opened Sums
  import opened Network
  import opened Transit

  /** The record of one rental attempt, in creation order; `CheckedOut?` is its success flag. */
  datatype Rental = NoBike(origin: nat) | CheckedOut(trip: Trip)

  /** The state Phase 2 builds up: stock, trips on the road, the rentals of the hour, the no-bike tally. */
  datatype Rented = Rented(stock: seq<int>, inTransit: seq<Trip>, log: seq<Rental>, noBike: nat)

  /** Drawn destinations are hubs other than the origin (the origin has probability 0). */
  predicate ValidDraws(n: nat, hub: nat, drawn: seq<nat>)
  {
    forall k :: 0 <= k < |drawn| ==> drawn[k] < n && drawn[k] != hub
  }

  /**
   * The draws of a hub whose stock is `stockAtHub` when its rentals start
   * are usable: they are valid, or there is no other hub to draw and the
   * hub is empty, so that it stays empty through its rentals and reads none.
   */
  predicate DrawsUsable(n: nat, hub: nat, drawn: seq<nat>, stockAtHub: int)
  {
    ValidDraws(n, hub, drawn) || (n == 1 && stockAtHub == 0)
  }

  /**
   * The demand and the draws of every hub are given for `hour`, and the
   * draws are usable from the stock `stock` Phase 2 starts with.
   */
  predicate ValidHour(n: nat, distribution: seq<seq<nat>>, draws: seq<seq<seq<nat>>>, hour: nat, stock: seq<int>)
  {
    |distribution| >= n && |draws| >= n && |stock| == n &&
    forall h :: 0 <= h < n ==>
      hour < |distribution[h]| && hour < |draws[h]| &&
      distribution[h][hour] <= |draws[h][hour]| && DrawsUsable(n, h, draws[h][hour], stock[h])
  }

  /** A trip fresh from a checkout: a real ride to another hub, timed by the matrix. */
  predicate Checkout(travel: seq<seq<int>>, t: Trip)
    requires IsTravelMatrix(travel)
  {
    t.origin < |travel| && t.dest < |travel| && t.origin != t.dest &&
    t.minutesLeft == travel[t.origin][t.dest]
  }

  /** One rental attempt at `hub` whose destination, if it gets a bike, is `drawn`. */
  function RentOne(travel: seq<seq<int>>, acc: Rented, hub: nat, drawn: nat): (r: Rented)
    requires IsTravelMatrix(travel) && |acc.stock| == |travel| && hub < |travel|
    requires acc.stock[hub] != 0 ==> drawn < |travel| && drawn != hub
  {
    if acc.stock[hub] == 0 then
      acc.(log := acc.log + [NoBike(hub)], noBike := acc.noBike + 1)
    else
      var t := Trip(hub, drawn, travel[hub][drawn]);
      acc.(stock := acc.stock[hub := acc.stock[hub] - 1],
           inTransit := acc.inTransit + [t],
           log := acc.log + [CheckedOut(t)])
  }

  /**
   * A rental either fails on an empty hub, leaving stock and trips alone, or
   * takes exactly one bike from `hub` and puts exactly one trip to `drawn`
   * on the road; exactly one rental is logged either way.
   */
  lemma RentOneEffect(travel: seq<seq<int>>, acc: Rented, hub: nat, drawn: nat)
    requires IsTravelMatrix(travel) && |acc.stock| == |travel| && hub < |travel|
    requires acc.stock[hub] != 0 ==> drawn < |travel| && drawn != hub
    ensures var r := RentOne(travel, acc, hub, drawn);
      |r.log| == |acc.log| + 1 && r.log[..|acc.log|] == acc.log &&
      (acc.stock[hub] == 0 <==> r.log[|acc.log|] == NoBike(hub)) &&
      (acc.stock[hub] == 0 ==>
         r.stock == acc.stock && r.inTransit == acc.inTransit && r.noBike == acc.noBike + 1) &&
      (acc.stock[hub] != 0 ==>
         r.stock == acc.stock[hub := acc.stock[hub] - 1] && r.noBike == acc.noBike &&
         r.inTransit == acc.inTransit + [r.log[|acc.log|].trip] &&
         r.log[|acc.log|].trip.origin == hub && r.log[|acc.log|].trip.dest == drawn &&
         Checkout(travel, r.log[|acc.log|].trip))
  {
  }

  /** The first `count` rentals at `hub` this hour, after those folded into `acc`. */
  function RentMore(travel: seq<seq<int>>, acc: Rented, hub: nat, drawn: seq<nat>, count: nat): (r: Rented)
    requires IsTravelMatrix(travel) && |acc.stock| == |travel| && hub < |travel|
    requires count <= |drawn| && DrawsUsable(|travel|, hub, drawn, acc.stock[hub])
    ensures |r.stock| == |acc.stock| && |r.log| == |acc.log| + count
    ensures acc.stock[hub] == 0 ==> r.stock[hub] == 0
    ensures |acc.inTransit| <= |r.inTransit| && r.inTransit[..|acc.inTransit|] == acc.inTransit
    ensures r.noBike + (|r.inTransit| - |acc.inTransit|) == acc.noBike + count
    decreases count
  {
    if count == 0 then acc
    else RentOne(travel, RentMore(travel, acc, hub, drawn, count - 1), hub, drawn[count - 1])
  }

  /**
   * Every rental at an empty hub fails: the no-bike tally rises by the
   * number of rentals, and neither the stock nor the road changes.
   */
  lemma {:induction false} EmptyHubAllFail(travel: seq<seq<int>>, acc: Rented, hub: nat, drawn: seq<nat>, count: nat)
    requires IsTravelMatrix(travel) && |acc.stock| == |travel| && hub < |travel|
    requires count <= |drawn| && DrawsUsable(|travel|, hub, drawn, acc.stock[hub])
    requires acc.stock[hub] == 0
    ensures var r := RentMore(travel, acc, hub, drawn, count);
      r.noBike == acc.noBike + count && r.stock == acc.stock && r.inTransit == acc.inTransit &&
      r.log == acc.log + seq(count, _ => NoBike(hub))
    decreases count
  {
    if count > 0 {
      EmptyHubAllFail(travel, acc, hub, drawn, count - 1);
      assert seq(count, _ => NoBike(hub)) == seq(count - 1, _ => NoBike(hub)) + [NoBike(hub)];
    }
  }

  /** Phase 2 over hubs `0 .. hubs-1` in order, each with its whole demand for `hour`. */
  function RentAll(travel: seq<seq<int>>, distribution: seq<seq<nat>>, draws: seq<seq<seq<nat>>>,
                   hour: nat, acc: Rented, hubs: nat): (r: Rented)
    requires IsTravelMatrix(travel) && |acc.stock| == |travel| && hubs <= |travel|
    requires ValidHour(|travel|, distribution, draws, hour, acc.stock)
    ensures |r.stock| == |acc.stock| && |acc.inTransit| <= |r.inTransit|
    ensures r.inTransit[..|acc.inTransit|] == acc.inTransit
    ensures |r.log| == |acc.log| + HourDemand(distribution, hour, hubs)
    ensures r.noBike + (|r.inTransit| - |acc.inTransit|) == acc.noBike + HourDemand(distribution, hour, hubs)
    decreases hubs
  {
    if hubs == 0 then acc
    else
      var h := hubs - 1;
      var prev := RentAll(travel, distribution, draws, hour, acc, h);
      var r := RentMore(travel, prev, h, draws[h][hour], distribution[h][hour]);
      assert r.inTransit[..|prev.inTransit|][..|acc.inTransit|] == r.inTransit[..|acc.inTransit|];
      r
  }

  /** The number of rentals that arrive in `hour` at hubs `0 .. hubs-1`. */
  function HourDemand(distribution: seq<seq<nat>>, hour: nat, hubs: nat): nat
    requires hubs <= |distribution|
    requires forall h :: 0 <= h < hubs ==> hour < |distribution[h]|
  {
    if hubs == 0 then 0 else HourDemand(distribution, hour, hubs - 1) + distribution[hubs - 1][hour]
  }

  /** Conservation for one hub's rentals: each checkout moves one bike from the stock to the road. */
  lemma {:induction false} RentMoreConserves(travel: seq<seq<int>>, acc: Rented, hub: nat, drawn: seq<nat>, count: nat)
    requires IsTravelMatrix(travel) && |acc.stock| == |travel| && hub < |travel|
    requires count <= |drawn| && DrawsUsable(|travel|, hub, drawn, acc.stock[hub])
    ensures var r := RentMore(travel, acc, hub, drawn, count);
      Sum(r.stock) + |r.inTransit| == Sum(acc.stock) + |acc.inTransit|
    decreases count
  {
    if count > 0 {
      var prev := RentMore(travel, acc, hub, drawn, count - 1);
      RentMoreConserves(travel, acc, hub, drawn, count - 1);
      if prev.stock[hub] != 0 {
        SumUpdate(prev.stock, hub, -1);
      }
    }
  }

  /** Conservation for the whole of Phase 2. */
  lemma {:induction false} RentAllConserves(travel: seq<seq<int>>, distribution: seq<seq<nat>>, draws: seq<seq<seq<nat>>>,
                                            hour: nat, acc: Rented, hubs: nat)
    requires IsTravelMatrix(travel) && |acc.stock| == |travel| && hubs <= |travel|
    requires ValidHour(|travel|, distribution, draws, hour, acc.stock)
    ensures var r := RentAll(travel, distribution, draws, hour, acc, hubs);
      Sum(r.stock) + |r.inTransit| == Sum(acc.stock) + |acc.inTransit|
    decreases hubs
  {
    if hubs > 0 {
      var h := hubs - 1;
      var prev := RentAll(travel, distribution, draws, hour, acc, h);
      RentAllConserves(travel, distribution, draws, hour, acc, h);
      RentMoreConserves(travel, prev, h, draws[h][hour], distribution[h][hour]);
    }
  }

  /** A checkout only happens when the hub is not empty, so one hub's rentals keep every hub within [0, maxBikes]. */
  lemma {:induction false} RentMoreInBounds(travel: seq<seq<int>>, acc: Rented, hub: nat, drawn: seq<nat>, count: nat, maxBikes: int)
    requires IsTravelMatrix(travel) && |acc.stock| == |travel| && hub < |travel|
    requires count <= |drawn| && DrawsUsable(|travel|, hub, drawn, acc.stock[hub])
    requires InBounds(acc.stock, maxBikes)
    ensures var r := RentMore(travel, acc, hub, drawn, count);
      InBounds(r.stock, maxBikes) && forall h :: 0 <= h < |r.stock| ==> r.stock[h] <= acc.stock[h]
    decreases count
  {
    if count > 0 {
      RentMoreInBounds(travel, acc, hub, drawn, count - 1, maxBikes);
    }
  }

  /** Phase 2 keeps every hub within [0, maxBikes] and never adds a bike to a hub. */
  lemma {:induction false} RentAllInBounds(travel: seq<seq<int>>, distribution: seq<seq<nat>>, draws: seq<seq<seq<nat>>>,
                                           hour: nat, acc: Rented, hubs: nat, maxBikes: int)
    requires IsTravelMatrix(travel) && |acc.stock| == |travel| && hubs <= |travel|
    requires ValidHour(|travel|, distribution, draws, hour, acc.stock)
    requires InBounds(acc.stock, maxBikes)
    ensures var r := RentAll(travel, distribution, draws, hour, acc, hubs);
      InBounds(r.stock, maxBikes) && forall h :: 0 <= h < |r.stock| ==> r.stock[h] <= acc.stock[h]
    decreases hubs
  {
    if hubs > 0 {
      var h := hubs - 1;
      var prev := RentAll(travel, distribution, draws, hour, acc, h);
      RentAllInBounds(travel, distribution, draws, hour, acc, h, maxBikes);
      var r := RentMore(travel, prev, h, draws[h][hour], distribution[h][hour]);
      assert RentAll(travel, distribution, draws, hour, acc, hubs) == r;
      RentMoreInBounds(travel, prev, h, draws[h][hour], distribution[h][hour], maxBikes);
      assert forall j :: 0 <= j < |r.stock| ==> r.stock[j] <= prev.stock[j] <= acc.stock[j];
    }
  }

  /** Every trip one hub's rentals put on the road is a checkout from that hub, timed by the matrix. */
  lemma {:induction false} RentMoreTrips(travel: seq<seq<int>>, acc: Rented, hub: nat, drawn: seq<nat>, count: nat)
    requires IsTravelMatrix(travel) && |acc.stock| == |travel| && hub < |travel|
    requires count <= |drawn| && DrawsUsable(|travel|, hub, drawn, acc.stock[hub])
    ensures forall i :: |acc.inTransit| <= i < |RentMore(travel, acc, hub, drawn, count).inTransit| ==>
      RentMore(travel, acc, hub, drawn, count).inTransit[i].origin == hub &&
      Checkout(travel, RentMore(travel, acc, hub, drawn, count).inTransit[i])
    decreases count
  {
    if count > 0 {
      RentMoreTrips(travel, acc, hub, drawn, count - 1);
      var prev := RentMore(travel, acc, hub, drawn, count - 1);
      var r := RentMore(travel, acc, hub, drawn, count);
      assert r == RentOne(travel, prev, hub, drawn[count - 1]);
      forall i | |acc.inTransit| <= i < |r.inTransit|
        ensures r.inTransit[i].origin == hub && Checkout(travel, r.inTransit[i])
      {
        if i < |prev.inTransit| {
          assert r.inTransit[i] == prev.inTransit[i];
        } else {
          assert prev.stock[hub] != 0 && r.inTransit[i] == Trip(hub, drawn[count - 1], travel[hub][drawn[count - 1]]);
        }
      }
    }
  }

  /** Every trip Phase 2 puts on the road is a checkout, timed by the matrix. */
  lemma {:induction false} RentAllTrips(travel: seq<seq<int>>, distribution: seq<seq<nat>>, draws: seq<seq<seq<nat>>>,
                                        hour: nat, acc: Rented, hubs: nat)
    requires IsTravelMatrix(travel) && |acc.stock| == |travel| && hubs <= |travel|
    requires ValidHour(|travel|, distribution, draws, hour, acc.stock)
    ensures forall i :: |acc.inTransit| <= i < |RentAll(travel, distribution, draws, hour, acc, hubs).inTransit| ==>
      Checkout(travel, RentAll(travel, distribution, draws, hour, acc, hubs).inTransit[i])
    decreases hubs
  {
    if hubs > 0 {
      var h := hubs - 1;
      var prev := RentAll(travel, distribution, draws, hour, acc, h);
      RentAllTrips(travel, distribution, draws, hour, acc, h);
      RentMoreTrips(travel, prev, h, draws[h][hour], distribution[h][hour]);
      var r := RentAll(travel, distribution, draws, hour, acc, hubs);
      assert r == RentMore(travel, prev, h, draws[h][hour], distribution[h][hour]);
      forall i | |acc.inTransit| <= i < |r.inTransit|
        ensures Checkout(travel, r.inTransit[i])
      {
        if i < |prev.inTransit| {
          assert r.inTransit[i] == r.inTransit[..|prev.inTransit|][i] == prev.inTransit[i];
        }
      }
    }
  }

  /** The trips on the road after Phase 2 all start and end at real hubs. */
  lemma RentAllKeepsTripsValid(travel: seq<seq<int>>, distribution: seq<seq<nat>>, draws: seq<seq<seq<nat>>>,
                               hour: nat, acc: Rented, hubs: nat)
    requires IsTravelMatrix(travel) && |acc.stock| == |travel| && hubs <= |travel|
    requires ValidHour(|travel|, distribution, draws, hour, acc.stock) && ValidTrips(|travel|, acc.inTransit)
    ensures ValidTrips(|travel|, RentAll(travel, distribution, draws, hour, acc, hubs).inTransit)
  {
    var r := RentAll(travel, distribution, draws, hour, acc, hubs);
    RentAllTrips(travel, distribution, draws, hour, acc, hubs);
    forall i | 0 <= i < |acc.inTransit|
      ensures r.inTransit[i] == acc.inTransit[i]
    {
      assert r.inTransit[i] == r.inTransit[..|acc.inTransit|][i];
    }
  }

  /**
   * The rentals at `hub` touch only that hub's stock, and if the hub holds
   * at least as many bikes as rentals arrive, none of them fails.
   */
  lemma {:induction false} RentMoreOnlyAtHub(travel: seq<seq<int>>, acc: Rented, hub: nat, drawn: seq<nat>, count: nat)
    requires IsTravelMatrix(travel) && |acc.stock| == |travel| && hub < |travel|
    requires count <= |drawn| && DrawsUsable(|travel|, hub, drawn, acc.stock[hub])
    ensures var r := RentMore(travel, acc, hub, drawn, count);
      (forall j :: 0 <= j < |acc.stock| && j != hub ==> r.stock[j] == acc.stock[j]) &&
      (acc.stock[hub] >= count ==> r.noBike == acc.noBike && r.stock[hub] == acc.stock[hub] - count)
    decreases count
  {
    if count > 0 {
      RentMoreOnlyAtHub(travel, acc, hub, drawn, count - 1);
    }
  }

  /**
   * The stock of a hub not yet reached is untouched, and no rental fails at
   * hubs that hold at least their demand when Phase 2 starts.
   */
  lemma {:induction false} RentAllNoFailure(travel: seq<seq<int>>, distribution: seq<seq<nat>>, draws: seq<seq<seq<nat>>>,
                                            hour: nat, acc: Rented, hubs: nat)
    requires IsTravelMatrix(travel) && |acc.stock| == |travel| && hubs <= |travel|
    requires ValidHour(|travel|, distribution, draws, hour, acc.stock)
    ensures var r := RentAll(travel, distribution, draws, hour, acc, hubs);
      (forall j :: hubs <= j < |acc.stock| ==> r.stock[j] == acc.stock[j]) &&
      ((forall h :: 0 <= h < hubs ==> acc.stock[h] >= distribution[h][hour]) ==> r.noBike == acc.noBike)
    decreases hubs
  {
    if hubs > 0 {
      var h := hubs - 1;
      var prev := RentAll(travel, distribution, draws, hour, acc, h);
      RentAllNoFailure(travel, distribution, draws, hour, acc, h);
      RentMoreOnlyAtHub(travel, prev, h, draws[h][hour], distribution[h][hour]);
    }
  }

  /**
   * Phase 2 as the engine runs it: for each hub in order, the rentals of the
   * hour at that hub.
   */
  method ProcessRentals(travel: seq<seq<int>>, distribution: seq<seq<nat>>, draws: seq<seq<seq<nat>>>,
                        stock: array<int>, noBike: array<nat>, hour: nat, onRoad: seq<Trip>)
    returns (inTransit: seq<Trip>, log: seq<Rental>)
    requires IsTravelMatrix(travel) && stock.Length == |travel|
    requires ValidHour(|travel|, distribution, draws, hour, stock[..]) && hour < noBike.Length
    modifies stock, noBike
    ensures var r := RentAll(travel, distribution, draws, hour, Rented(old(stock[..]), onRoad, [], 0), |travel|);
      stock[..] == r.stock && inTransit == r.inTransit && log == r.log &&
      noBike[hour] == old(noBike[hour]) + r.noBike &&
      forall j :: 0 <= j < noBike.Length && j != hour ==> noBike[j] == old(noBike[j])
  {
    ghost var start := Rented(stock[..], onRoad, [], 0);
    ghost var acc := start;
    inTransit, log := onRoad, [];
    var hub := 0;
    while hub < |travel|
      invariant 0 <= hub <= |travel|
      invariant acc == RentAll(travel, distribution, draws, hour, start, hub)
      invariant stock[..] == acc.stock && inTransit == acc.inTransit && log == acc.log
      invariant noBike[hour] == old(noBike[hour]) + acc.noBike
      invariant forall j :: 0 <= j < noBike.Length && j != hour ==> noBike[j] == old(noBike[j])
    {
      inTransit, log := RentNextHub(travel, distribution, draws, stock, noBike, hour, hub, inTransit, log, start, acc);
      acc := RentAll(travel, distribution, draws, hour, start, hub + 1);
      hub := hub + 1;
    }
  }

  /** The rentals at `hub`, the next hub Phase 2 reaches after those folded into `acc`. */
  method RentNextHub(travel: seq<seq<int>>, distribution: seq<seq<nat>>, draws: seq<seq<seq<nat>>>,
                     stock: array<int>, noBike: array<nat>, hour: nat, hub: nat,
                     onRoad: seq<Trip>, logSoFar: seq<Rental>, ghost start: Rented, ghost acc: Rented)
    returns (inTransit: seq<Trip>, log: seq<Rental>)
    requires IsTravelMatrix(travel) && stock.Length == |travel| && |start.stock| == |travel| && hub < |travel|
    requires ValidHour(|travel|, distribution, draws, hour, start.stock) && hour < noBike.Length
    requires acc == RentAll(travel, distribution, draws, hour, start, hub)
    requires stock[..] == acc.stock && onRoad == acc.inTransit && logSoFar == acc.log
    modifies stock, noBike
    ensures var r := RentAll(travel, distribution, draws, hour, start, hub + 1);
      stock[..] == r.stock && inTransit == r.inTransit && log == r.log &&
      noBike[hour] == old(noBike[hour]) + (r.noBike - acc.noBike) &&
      forall j :: 0 <= j < noBike.Length && j != hour ==> noBike[j] == old(noBike[j])
  {
    assert RentAll(travel, distribution, draws, hour, start, hub + 1)
        == RentMore(travel, acc, hub, draws[hub][hour], distribution[hub][hour]);
    inTransit, log := RentAtHub(travel, stock, noBike, hour, hub, draws[hub][hour], distribution[hub][hour],
                                onRoad, logSoFar, acc);
  }

  /**
   * The `count` rentals of the hour at `hub`, one after another: check the
   * stock, then either bump the hour's no-bike slot or take a bike and
   * append the new trip to the road. `acc` is the state they start from.
   */
  method RentAtHub(travel: seq<seq<int>>, stock: array<int>, noBike: array<nat>, hour: nat, hub: nat,
                   drawn: seq<nat>, count: nat, onRoad: seq<Trip>, logSoFar: seq<Rental>, ghost acc: Rented)
    returns (inTransit: seq<Trip>, log: seq<Rental>)
    requires IsTravelMatrix(travel) && stock.Length == |travel| && hub < |travel|
    requires stock[..] == acc.stock && onRoad == acc.inTransit && logSoFar == acc.log
    requires count <= |drawn| && DrawsUsable(|travel|, hub, drawn, acc.stock[hub]) && hour < noBike.Length
    modifies stock, noBike
    ensures var r := RentMore(travel, acc, hub, drawn, count);
      stock[..] == r.stock && inTransit == r.inTransit && log == r.log &&
      noBike[hour] == old(noBike[hour]) + (r.noBike - acc.noBike) &&
      forall j :: 0 <= j < noBike.Length && j != hour ==> noBike[j] == old(noBike[j])
  {
    inTransit, log := onRoad, logSoFar;
    var k := 0;
    while k < count
      invariant 0 <= k <= count
      invariant var r := RentMore(travel, acc, hub, drawn, k);
        stock[..] == r.stock && inTransit == r.inTransit && log == r.log &&
        noBike[hour] == old(noBike[hour]) + (r.noBike - acc.noBike) &&
        forall j :: 0 <= j < noBike.Length && j != hour ==> noBike[j] == old(noBike[j])
    {
      if stock[hub] == 0 {
        log := log + [NoBike(hub)];
        noBike[hour] := noBike[hour] + 1;
      } else {
        stock[hub] := stock[hub] - 1;
        var dest := drawn[k];
        var req := Trip(hub, dest, travel[hub][dest]);
        log := log + [CheckedOut(req)];
        inTransit := inTransit + [req];
      }
      k := k + 1;
    }
  }
}
