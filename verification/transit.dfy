/**
 * Phase 1 of an hour: every trip on the road advances by 60 minutes; a trip
 * that has arrived docks if its destination has a free slot, and otherwise
 * is counted as a no-parking event and sent on to the nearest other hub.
 */
module Transit {
  import opened Sums
  import opened Network

  /**
   * A request that checked out a bike and is on the road: where it started,
   * the hub it is heading for, and the minutes still to ride. (Every such
   * request has its success flag set.)
   */
  datatype Trip = Trip(origin: nat, dest: nat, minutesLeft: int)

  /** Every trip starts and ends at one of the `n` hubs. */
  predicate ValidTrips(n: nat, trips: seq<Trip>)
  {
    forall i :: 0 <= i < |trips| ==> trips[i].origin < n && trips[i].dest < n
  }

  /** What one hour does to one trip. */
  datatype Outcome =
    | Riding(trip: Trip)    // still on the way
    | Docked                // parked at its destination; leaves the road
    | Rerouted(trip: Trip)  // destination full: heading for another hub
    | HeldOver(trip: Trip)  // destination full and no other hub: retry in an hour

  /** One trip, one hour, given the stock at the moment it is handled. */
  function AdvanceTrip(travel: seq<seq<int>>, maxBikes: nat, stock: seq<int>, t: Trip): (o: Outcome)
    requires IsTravelMatrix(travel) && |stock| == |travel|
    requires t.origin < |travel| && t.dest < |travel|
    ensures !o.Docked? ==> o.trip.origin == t.origin && o.trip.dest < |travel|
    ensures o.Docked? ==> stock[t.dest] < maxBikes
    ensures o.Rerouted? || o.HeldOver? ==> stock[t.dest] >= maxBikes
  {
    var left := t.minutesLeft - 60;
    if left > 0 then Riding(t.(minutesLeft := left))
    else if stock[t.dest] < maxBikes then Docked
    else match NearestHub(|travel|, t.dest)
      case None => HeldOver(t.(minutesLeft := 60))
      case Some(c) => Rerouted(t.(dest := c as nat, minutesLeft := travel[t.dest][c]))
  }

  /**
   * The hour of one trip, case by case: a trip with more than 60 minutes to
   * go rides on to the same hub; otherwise it docks exactly when its
   * destination is below capacity; otherwise it is sent to the lower
   * neighbour of its destination (the upper one from hub 0), timed from the
   * old destination, or, with a single hub, held over for another 60 minutes.
   */
  lemma AdvanceTripCases(travel: seq<seq<int>>, maxBikes: nat, stock: seq<int>, t: Trip)
    requires IsTravelMatrix(travel) && |stock| == |travel|
    requires t.origin < |travel| && t.dest < |travel|
    ensures var o := AdvanceTrip(travel, maxBikes, stock, t);
      var c := if t.dest >= 1 then t.dest - 1 else t.dest + 1;
      (t.minutesLeft > 60 <==> o.Riding?) &&
      (o.Riding? ==> o.trip == Trip(t.origin, t.dest, t.minutesLeft - 60)) &&
      (o.Docked? <==> t.minutesLeft <= 60 && stock[t.dest] < maxBikes) &&
      (o.Rerouted? <==> t.minutesLeft <= 60 && stock[t.dest] >= maxBikes && |travel| >= 2) &&
      (o.Rerouted? ==> c < |travel| && c != t.dest && o.trip == Trip(t.origin, c, travel[t.dest][c])) &&
      (o.HeldOver? <==> t.minutesLeft <= 60 && stock[t.dest] >= maxBikes && |travel| == 1) &&
      (o.HeldOver? ==> o.trip == Trip(t.origin, t.dest, 60))
  {
    NearestHubClosedForm(|travel|, t.dest);
  }

  /** The state Phase 1 builds up: the stock, the trips kept on the road, the no-parking tally. */
  datatype Advanced = Advanced(stock: seq<int>, onRoad: seq<Trip>, noParking: nat)

  /** Handling trip `t` after those already folded into `acc`. */
  function AdvanceOne(travel: seq<seq<int>>, maxBikes: nat, acc: Advanced, t: Trip): (a: Advanced)
    requires IsTravelMatrix(travel) && |acc.stock| == |travel|
    requires t.origin < |travel| && t.dest < |travel|
  {
    match AdvanceTrip(travel, maxBikes, acc.stock, t)
    case Riding(r) => acc.(onRoad := acc.onRoad + [r])
    case Docked => acc.(stock := acc.stock[t.dest := acc.stock[t.dest] + 1])
    case Rerouted(r) => acc.(onRoad := acc.onRoad + [r], noParking := acc.noParking + 1)
    case HeldOver(r) => acc.(onRoad := acc.onRoad + [r], noParking := acc.noParking + 1)
  }

  /** Phase 1 over the trips in order, starting from `stock`. */
  function AdvanceAll(travel: seq<seq<int>>, maxBikes: nat, stock: seq<int>, trips: seq<Trip>): (a: Advanced)
    requires IsTravelMatrix(travel) && |stock| == |travel| && ValidTrips(|travel|, trips)
    ensures |a.stock| == |stock| && ValidTrips(|travel|, a.onRoad)
    ensures a.noParking <= |a.onRoad| <= |trips|
    decreases |trips|
  {
    if trips == [] then Advanced(stock, [], 0)
    else
      var prev := AdvanceAll(travel, maxBikes, stock, trips[..|trips| - 1]);
      AdvanceOne(travel, maxBikes, prev, trips[|trips| - 1])
  }

  /** Conservation: a dock turns one trip into one parked bike; everything else keeps the trip. */
  lemma {:induction false} AdvanceConserves(travel: seq<seq<int>>, maxBikes: nat, stock: seq<int>, trips: seq<Trip>)
    requires IsTravelMatrix(travel) && |stock| == |travel| && ValidTrips(|travel|, trips)
    ensures var a := AdvanceAll(travel, maxBikes, stock, trips);
      Sum(a.stock) + |a.onRoad| == Sum(stock) + |trips|
    decreases |trips|
  {
    if trips != [] {
      var prev := AdvanceAll(travel, maxBikes, stock, trips[..|trips| - 1]);
      AdvanceConserves(travel, maxBikes, stock, trips[..|trips| - 1]);
      var t := trips[|trips| - 1];
      if AdvanceTrip(travel, maxBikes, prev.stock, t).Docked? {
        SumUpdate(prev.stock, t.dest, 1);
      }
    }
  }

  /** Docking only happens below capacity, so Phase 1 keeps every hub within [0, maxBikes]. */
  lemma {:induction false} AdvanceInBounds(travel: seq<seq<int>>, maxBikes: nat, stock: seq<int>, trips: seq<Trip>)
    requires IsTravelMatrix(travel) && |stock| == |travel| && ValidTrips(|travel|, trips)
    requires InBounds(stock, maxBikes)
    ensures InBounds(AdvanceAll(travel, maxBikes, stock, trips).stock, maxBikes)
    decreases |trips|
  {
    if trips != [] {
      AdvanceInBounds(travel, maxBikes, stock, trips[..|trips| - 1]);
    }
  }

  /** Phase 1 never takes a bike away from a hub. */
  lemma {:induction false} AdvanceOnlyAdds(travel: seq<seq<int>>, maxBikes: nat, stock: seq<int>, trips: seq<Trip>)
    requires IsTravelMatrix(travel) && |stock| == |travel| && ValidTrips(|travel|, trips)
    ensures var a := AdvanceAll(travel, maxBikes, stock, trips);
      forall h :: 0 <= h < |stock| ==> stock[h] <= a.stock[h]
    decreases |trips|
  {
    if trips != [] {
      AdvanceOnlyAdds(travel, maxBikes, stock, trips[..|trips| - 1]);
    }
  }

  /**
   * A trip arriving at a full hub with a free neighbour is rerouted once and
   * counted once: two hubs of capacity 1, both full, one trip 0 -> 1 due now.
   */
  lemma FullDestinationReroutes(travel: seq<seq<int>>)
    requires IsTravelMatrix(travel) && |travel| == 2
    ensures var a := AdvanceAll(travel, 1, [1, 1], [Trip(0, 1, 60)]);
      a.stock == [1, 1] && a.noParking == 1 && a.onRoad == [Trip(0, 0, travel[1][0])]
  {
    var trips := [Trip(0, 1, 60)];
    assert trips[..0] == [];
    NearestHubClosedForm(2, 1);
  }

  /** The positions in `trips` of the trips Phase 1 keeps on the road, in increasing order. */
  ghost function KeptIndices(travel: seq<seq<int>>, maxBikes: nat, stock: seq<int>, trips: seq<Trip>): (idx: seq<nat>)
    requires IsTravelMatrix(travel) && |stock| == |travel| && ValidTrips(|travel|, trips)
    ensures |idx| == |AdvanceAll(travel, maxBikes, stock, trips).onRoad|
    ensures forall j :: 0 <= j < |idx| ==> idx[j] < |trips|
    ensures forall j, k :: 0 <= j < k < |idx| ==> idx[j] < idx[k]
    decreases |trips|
  {
    if trips == [] then []
    else
      var n := |trips| - 1;
      var prev := AdvanceAll(travel, maxBikes, stock, trips[..n]);
      var before := KeptIndices(travel, maxBikes, stock, trips[..n]);
      if AdvanceTrip(travel, maxBikes, prev.stock, trips[n]).Docked? then before else before + [n]
  }

  /**
   * What a trip that stays on the road becomes after one hour, whatever the
   * stock: with more than an hour to go it rides on 60 minutes closer;
   * otherwise its destination was full and it is sent to the nearest other
   * hub, timed from the old destination, or held over 60 minutes when there
   * is none.
   */
  function KeptAs(travel: seq<seq<int>>, t: Trip): (k: Trip)
    requires IsTravelMatrix(travel) && t.dest < |travel|
    ensures k.origin == t.origin && k.dest < |travel|
    ensures t.minutesLeft > 60 ==> k.dest == t.dest
    ensures t.minutesLeft <= 60 && |travel| >= 2 ==> k.dest != t.dest
  {
    if t.minutesLeft > 60 then t.(minutesLeft := t.minutesLeft - 60)
    else match NearestHub(|travel|, t.dest)
      case None => t.(minutesLeft := 60)
      case Some(c) => t.(dest := c as nat, minutesLeft := travel[t.dest][c])
  }

  /** Each kept trip `onRoad[j]` is the trip at `trips[idx[j]]` after one hour. */
  predicate KeptMatch(travel: seq<seq<int>>, onRoad: seq<Trip>, trips: seq<Trip>, idx: seq<nat>)
    requires IsTravelMatrix(travel) && ValidTrips(|travel|, trips)
  {
    |idx| == |onRoad| &&
    forall j :: 0 <= j < |idx| ==>
      (idx[j] < |trips| && onRoad[j] == KeptAs(travel, trips[idx[j]]))
  }

  /**
   * The j-th trip Phase 1 keeps is the trip at position `KeptIndices[j]`,
   * advanced by one hour as `KeptAs` says: Phase 1 keeps the relative order
   * of the trips it does not dock.
   */
  lemma {:induction false} AdvanceKeepsOrder(travel: seq<seq<int>>, maxBikes: nat, stock: seq<int>, trips: seq<Trip>)
    requires IsTravelMatrix(travel) && |stock| == |travel| && ValidTrips(|travel|, trips)
    ensures KeptMatch(travel, AdvanceAll(travel, maxBikes, stock, trips).onRoad, trips, KeptIndices(travel, maxBikes, stock, trips))
    decreases |trips|
  {
    if trips != [] {
      var n := |trips| - 1;
      var init := trips[..n];
      AdvanceKeepsOrder(travel, maxBikes, stock, init);
      var prev := AdvanceAll(travel, maxBikes, stock, init);
      var before := KeptIndices(travel, maxBikes, stock, init);
      var onRoad := AdvanceAll(travel, maxBikes, stock, trips).onRoad;
      var idx := KeptIndices(travel, maxBikes, stock, trips);
      var kept := !AdvanceTrip(travel, maxBikes, prev.stock, trips[n]).Docked?;
      assert onRoad[..|prev.onRoad|] == prev.onRoad;
      assert idx == if kept then before + [n] else before;
      assert KeptMatch(travel, prev.onRoad, init, before);
      forall j | 0 <= j < |idx|
        ensures idx[j] < |trips| && onRoad[j] == KeptAs(travel, trips[idx[j]])
      {
        if j < |before| {
          assert onRoad[j] == prev.onRoad[j] && idx[j] == before[j] && trips[idx[j]] == init[before[j]];
        } else {
          var o := AdvanceTrip(travel, maxBikes, prev.stock, trips[n]);
          assert AdvanceAll(travel, maxBikes, stock, trips) == AdvanceOne(travel, maxBikes, prev, trips[n]);
          assert onRoad == prev.onRoad + [o.trip] && idx[j] == n;
        }
      }
    }
  }

  /** No trip with more than an hour to go leaves the road in Phase 1. */
  lemma {:induction false} AdvanceKeepsRiders(travel: seq<seq<int>>, maxBikes: nat, stock: seq<int>, trips: seq<Trip>)
    requires IsTravelMatrix(travel) && |stock| == |travel| && ValidTrips(|travel|, trips)
    ensures forall i :: 0 <= i < |trips| && trips[i].minutesLeft > 60 ==> i in KeptIndices(travel, maxBikes, stock, trips)
    decreases |trips|
  {
    if trips != [] {
      var n := |trips| - 1;
      AdvanceKeepsRiders(travel, maxBikes, stock, trips[..n]);
      assert forall i :: 0 <= i < n ==> trips[..n][i] == trips[i];
    }
  }

  /**
   * Phase 1 as the engine runs it: the trips are handled in order, the
   * stock array and the hour's no-parking slot are updated in place, and the
   * trips still riding are collected in `onRoad`.
   */
  method AdvanceTransit(travel: seq<seq<int>>, maxBikes: nat, stock: array<int>, noParking: array<nat>,
                        hour: nat, inTransit: seq<Trip>) returns (onRoad: seq<Trip>)
    requires IsTravelMatrix(travel) && stock.Length == |travel| && ValidTrips(|travel|, inTransit)
    requires hour < noParking.Length
    modifies stock, noParking
    ensures var a := AdvanceAll(travel, maxBikes, old(stock[..]), inTransit);
      stock[..] == a.stock && onRoad == a.onRoad && noParking[hour] == old(noParking[hour]) + a.noParking
    ensures forall j :: 0 <= j < noParking.Length && j != hour ==> noParking[j] == old(noParking[j])
  {
    onRoad := [];
    var i := 0;
    while i < |inTransit|
      invariant 0 <= i <= |inTransit|
      invariant var a := AdvanceAll(travel, maxBikes, old(stock[..]), inTransit[..i]);
        stock[..] == a.stock && onRoad == a.onRoad && noParking[hour] == old(noParking[hour]) + a.noParking
      invariant forall j :: 0 <= j < noParking.Length && j != hour ==> noParking[j] == old(noParking[j])
    {
      ghost var acc := AdvanceAll(travel, maxBikes, old(stock[..]), inTransit[..i]);
      assert inTransit[..i + 1][..i] == inTransit[..i];
      onRoad := AdvanceRequest(travel, maxBikes, stock, noParking, hour, inTransit[i], onRoad, acc);
      i := i + 1;
    }
    assert inTransit[..i] == inTransit;
  }

  /**
   * One trip of Phase 1, in place: take 60 minutes off; if it is still
   * riding keep it; else dock it if the destination has room; else count a
   * no-parking event and keep it, rerouted or held over.
   */
  method AdvanceRequest(travel: seq<seq<int>>, maxBikes: nat, stock: array<int>, noParking: array<nat>,
                        hour: nat, req: Trip, onRoad: seq<Trip>, ghost acc: Advanced) returns (nowOnRoad: seq<Trip>)
    requires IsTravelMatrix(travel) && stock.Length == |travel| && req.origin < |travel| && req.dest < |travel|
    requires hour < noParking.Length
    requires stock[..] == acc.stock && onRoad == acc.onRoad
    modifies stock, noParking
    ensures var a := AdvanceOne(travel, maxBikes, acc, req);
      stock[..] == a.stock && nowOnRoad == a.onRoad &&
      noParking[hour] == old(noParking[hour]) + (a.noParking - acc.noParking)
    ensures forall j :: 0 <= j < noParking.Length && j != hour ==> noParking[j] == old(noParking[j])
  {
    nowOnRoad := onRoad;
    var minutesLeft := req.minutesLeft - 60;
    if minutesLeft > 0 {
      nowOnRoad := nowOnRoad + [req.(minutesLeft := minutesLeft)];
      return;
    }
    var dest := req.dest;
    if stock[dest] < maxBikes {
      stock[dest] := stock[dest] + 1;
      return;
    }
    noParking[hour] := noParking[hour] + 1;
    var candidate := FindCandidate(|travel|, dest);
    if candidate.None? {
      nowOnRoad := nowOnRoad + [req.(minutesLeft := 60)];
      return;
    }
    var c := candidate.value as nat;
    nowOnRoad := nowOnRoad + [req.(dest := c, minutesLeft := travel[dest][c])];
  }
}
