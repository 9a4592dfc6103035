# Hourly bike-share simulation engine, in Dafny

This project models the engine of a bike-share network simulation: `simulation` in
`simulation_code.py`. The engine runs a fixed number of hours over a set of hubs.
Each hub's bike stock is capped at `max_bikes_per_hub` and starts at
`initial_bikes_per_hub`. Each hour runs in two phases, always in this order:

1. **Phase 1 — trips on the road** (module `Transit`). Every in-transit trip loses
   60 minutes. A trip with time left keeps riding. An arrived trip docks if its
   destination is below capacity. Otherwise the hour's no-parking counter rises by
   one and the trip is rerouted by the nearest-hub search (module `Network`). The
   search probes `dest-1, dest+1, dest-2, dest+2, …` and takes the first valid hub
   index, whatever that hub's stock. The rerouted trip gets the travel time from
   the old destination to the new one. With a single hub no candidate exists, so
   the trip is held over for 60 minutes at the same destination.
2. **Phase 2 — rentals** (module `Rentals`). Hubs are processed in index order, and
   each hub's rentals for the hour one after another. A rental at an empty hub
   raises the hour's no-bike counter. Otherwise it takes a bike and starts a trip to
   the destination drawn for it, timed by the travel-time matrix.

Module `Simulation` strings the hours together. It has a value-level specification
(`Hour`, `Run`) and the imperative engine (`Simulate`, `RunHour`). The engine
updates a stock `array<int>` and two counter `array<nat>` slots in place. The
phase methods `Transit.AdvanceTransit` and `Rentals.ProcessRentals` are proved
equal to the specification functions `Transit.AdvanceAll` and `Rentals.RentAll`.
The properties are proved about those functions: conservation of bikes, stock
bounds, counter bounds, phase order, order of the kept trips, and the closed form
of the reroute search.

Modelling choices:

- **Travel-time graph.** The complete directed graph built by `build_complete_digraph`
  is modelled as the square matrix it encodes: `travel[u][v]` is the time from hub `u`
  to hub `v`, already in whole minutes. Its diagonal is never read, because the
  engine only looks up edges between distinct hubs.
- **Random destination.** The weighted draw is replaced by a table supplied by the
  caller. `draws[hub][hour][k]` is the destination drawn for the k-th rental at `hub`
  in `hour`, and it is read only if that rental gets a bike. Each draw must be a hub
  other than `hub` (`Rentals.ValidDraws`). This matches the docstring's demand that a
  hub's probability for itself be 0. It is also what the graph lookup at line 135
  needs, since the graph has no self-loops. A single hub has no other hub to draw. It
  can only run if it starts empty: it then never lends a bike, and its draws are never
  read (`Simulation.LoneEmptyHub`), so they need not be valid.
- **Requests as records.** A request on the road is the value `Transit.Trip(origin,
  dest, minutesLeft)`; its success flag is always true. The log of rental attempts
  holds `Rentals.Rental` values: `NoBike(origin)` for `success = False`, and
  `CheckedOut(trip)` for `success = True`.

Two behaviours of the code worth stating:

- The engine never drops a trip after a failed reroute (simulation_code.py:105-108).
  The held-over trip stays on the road.
- With capacity 1 and one starting bike per hub, a trip to hub 1 finds hub 1 full
  and is rerouted (simulation_code.py:90-113). It does not dock.
  `Simulation.FullHubReroutesInRun` follows such a run hour by hour.

## Model

| member | source | states |
|---|---|---|
| `Network.NearestHub` | simulation_code.py:96-103 | The reroute candidate is a hub index in `[0, n)` other than `dest`. It is absent exactly when `n == 1`. The search takes no stock argument, so capacity plays no part in the choice. |
| `Network.SearchFromInRange` | simulation_code.py:96-103 | From any offset ≥ 1, every hub the outward scan can return is in range and differs from `dest`. |
| `Network.NearestHubClosedForm` | simulation_code.py:96-103 | Closed form of the search: none for `n == 1`, else `dest-1` when `dest ≥ 1`, else `dest+1`. |
| `Network.LowerNeighbourFirst` | simulation_code.py:98-101 | Tie-break examples: from 5 among 10 hubs the lower neighbour 4 is chosen whatever its stock; 0 goes to 1, 9 goes to 8, and a single hub has no candidate. |
| `Network.FindCandidate` | simulation_code.py:96-103 | The search as a loop over offsets with the two probes and early breaks. It returns exactly `NearestHub` and its closed form. |
| `Transit.AdvanceTrip` | simulation_code.py:80-113 | A trip that stays on the road keeps its origin and a valid destination. A dock happens only below capacity. A reroute or hold-over happens only at a full hub. |
| `Transit.AdvanceTripCases` | simulation_code.py:81-113 | Full case table for one trip. It rides on, with the same destination and 60 minutes less, exactly when more than 60 minutes were left. Otherwise it docks exactly when the destination is below capacity. Otherwise, with at least 2 hubs, it goes to the closed-form neighbour with `minutesLeft = travel[old dest][new]`. With 1 hub it is held with `minutesLeft = 60`. |
| `Transit.AdvanceAll` | simulation_code.py:78-115 | Phase 1 over the trips in order keeps the stock size and keeps trips valid. No-parking events ≤ trips kept ≤ trips at the start. |
| `Transit.AdvanceConserves` | simulation_code.py:80-115 | Parked bikes + trips on the road are the same before and after Phase 1. |
| `Transit.AdvanceInBounds` | simulation_code.py:90-91 | Phase 1 keeps every hub within `[0, max_bikes_per_hub]`. |
| `Transit.AdvanceOnlyAdds` | simulation_code.py:87-92 | Phase 1 never lowers any hub's stock. |
| `Transit.KeptIndices` | simulation_code.py:78-115 | The positions of the kept trips are strictly increasing and in range, one per trip on `on_road`. |
| `Transit.KeptAs` | simulation_code.py:81-113 | What a trip that is not docked becomes after the hour, whatever the stock. It keeps its origin and gets a valid destination. It keeps its destination when it had more than an hour left, and changes it when it had arrived and another hub exists. |
| `Transit.AdvanceKeepsOrder` | simulation_code.py:80-115 | `on_road` keeps the relative order: the j-th kept trip is exactly `KeptAs` of the trip at the j-th kept position. |
| `Transit.AdvanceKeepsRiders` | simulation_code.py:81-85 | Every trip with more than 60 minutes left is kept on the road. |
| `Transit.FullDestinationReroutes` | simulation_code.py:90-113 | Example: two full hubs of capacity 1 and one trip 0→1 due now. It is rerouted once to hub 0 with the 1→0 time. One no-parking event is counted and the stock is unchanged. |
| `Transit.AdvanceTransit` | simulation_code.py:78-115 | The in-place Phase 1 loop leaves the stock array and the kept trips equal to `AdvanceAll`. It adds `AdvanceAll`'s count to `no_parking_events[hour]` and leaves the other slots untouched. |
| `Transit.AdvanceRequest` | simulation_code.py:80-113 | One trip, in place: the stock, kept trips and no-parking slot change exactly as one step of `AdvanceAll` says. |
| `Rentals.RentOneEffect` | simulation_code.py:119-137 | Every rental attempt logs exactly one record. At an empty hub it logs `success = False`, adds 1 to the no-bike count, and leaves stock and trips unchanged. Otherwise the hub's stock drops by exactly 1 and one trip is appended, with `origin = hub`, `dest` the drawn hub and `minutesLeft = travel[hub][dest]`. |
| `Rentals.RentMore` | simulation_code.py:119-137 | The k rentals at one hub log k records and only append trips. No-bike events + new trips = k. A hub that starts empty stays empty. |
| `Rentals.RentAll` | simulation_code.py:118-137 | Phase 2 logs one record per rental of the hour and only appends to the road. No-bike events + new trips = the hour's total demand. |
| `Rentals.RentMoreConserves` | simulation_code.py:125-137 | One hub's rentals keep parked bikes + trips on the road constant. |
| `Rentals.RentAllConserves` | simulation_code.py:118-137 | Phase 2 keeps parked bikes + trips on the road constant. |
| `Rentals.RentMoreInBounds` | simulation_code.py:125-131 | One hub's rentals keep all hubs within bounds and never add a bike. |
| `Rentals.RentAllInBounds` | simulation_code.py:118-137 | Phase 2 keeps all hubs within `[0, max_bikes_per_hub]` and never adds a bike. |
| `Rentals.RentMoreTrips` | simulation_code.py:131-137 | Every trip one hub's rentals start leaves from that hub to a different hub, timed `travel[hub][dest]`. |
| `Rentals.RentAllTrips` | simulation_code.py:118-137 | Every trip Phase 2 starts is such a checkout trip. |
| `Rentals.RentAllKeepsTripsValid` | simulation_code.py:118-137 | After Phase 2 every trip on the road starts and ends at real hubs. |
| `Rentals.RentMoreOnlyAtHub` | simulation_code.py:119-131 | Rentals at a hub touch only that hub's stock. If the hub holds at least as many bikes as rentals, none fails. |
| `Rentals.RentAllNoFailure` | simulation_code.py:118-131 | Hubs not yet reached keep their stock. No rental fails when every hub starts Phase 2 with at least its demand. |
| `Rentals.EmptyHubAllFail` | simulation_code.py:125-128 | At an empty hub all k rentals fail. The no-bike count rises by k, k `success = False` records are logged, and stock and road are unchanged. |
| `Rentals.ProcessRentals` | simulation_code.py:118-137 | The in-place nested rental loops leave stock, road and log equal to `RentAll`. They add its count to `no_bike_events[hour]` only. |
| `Rentals.RentNextHub` | simulation_code.py:118-137 | One step of the hub loop, in place: from `RentAll` over the hubs before `hub`, it reaches `RentAll` over one more hub. |
| `Rentals.RentAtHub` | simulation_code.py:119-137 | One hub's rental loop, in place, equals `RentMore`. |
| `Simulation.Phase1` | simulation_code.py:78-115 | Phase 1 keeps one stock slot per hub. A lone hub that starts empty keeps an empty stock, an empty road and no no-parking event. |
| `Simulation.LoneHubIdle` | simulation_code.py:118-128 | At a lone empty hub with nothing on the road, every rental of the hour is a no-bike event, and stock and road stay empty. |
| `Simulation.Hour` | simulation_code.py:73-137 | An hour keeps the state valid and appends exactly one slot to each counter. It leaves all earlier slots unchanged. |
| `Simulation.Run` | simulation_code.py:65-137 | After k hours both counters have length k and the state is valid. |
| `Simulation.HourConserves` | simulation_code.py:78-137 | One hour keeps parked bikes + trips on the road constant. |
| `Simulation.RunConserves` | simulation_code.py:65-137 | Conservation: at the end of every hour, `sum(stock) + len(in_transit) == num_hubs * initial_bikes_per_hub`. |
| `Simulation.HourInBounds` | simulation_code.py:78-137 | From stock within bounds, both the Phase-1 stock and the end-of-hour stock are within `[0, max_bikes_per_hub]`. |
| `Simulation.RunInBounds` | simulation_code.py:65-137 | With `initial_bikes_per_hub ≤ max_bikes_per_hub`, every hub is within bounds after every phase of every hour. |
| `Simulation.CountersBounded` | simulation_code.py:70-137 | After k hours, for each earlier hour h: `no_bike_events[h]` ≤ the rentals arriving in h, and `no_parking_events[h]` ≤ the trips on the road when h began. |
| `Simulation.DockedBikesRentable` | simulation_code.py:78-137 | Phase 1 precedes Phase 2, and Phase 1 never lowers a hub's stock. If every hub holds its hour's demand after Phase 1, the hour has no no-bike event, so bikes docked this hour can be rented this hour. |
| `Simulation.LoneEmptyHubRun` | simulation_code.py:65-128 | A single hub that starts empty counts every rental of every hour as a no-bike event and never counts a no-parking event. |
| `Simulation.LoneEmptyHubExample` | simulation_code.py:118-128 | Example: one empty hub and two rentals in hour 0 give no-bike counts `[2]` and no-parking counts `[0]`. Its draws are not valid destinations, yet the inputs are accepted. |
| `Simulation.FullHubExampleHour0` | simulation_code.py:118-137 | Example, hour 0: the rental at hub 0 leaves stock `[0, 1]` and puts a 30-minute trip to hub 1 on the road. |
| `Simulation.FullHubExampleHour1` | simulation_code.py:80-113 | Example, hour 1: the trip finds hub 1 full. It is sent to hub 0 with the 45-minute return time, and the no-parking counts become `[0, 1]`. |
| `Simulation.FullHubExampleHour2` | simulation_code.py:80-92 | Example, hour 2: the trip docks at hub 0, giving stock `[1, 1]` and an empty road. |
| `Simulation.FullHubReroutesInRun` | simulation_code.py:65-137 | The three hours as one run. It ends with stock `[1, 1]`, nothing on the road, no-parking counts `[0, 1, 0]` and no no-bike events. |
| `Simulation.RunHour` | simulation_code.py:73-137 | One hour in place equals `Hour`. Only slot `hour` of each counter array changes. |
| `Simulation.Simulate` | simulation_code.py:24-140 | The engine returns counters of length T equal to `Run`'s, plus the rental log. Each no-bike count is bounded by that hour's demand. |

## Left out

- `build_complete_digraph` (simulation_code.py:7-22) and the edge lookups at lines 110 and 135 are modelled by the square integer matrix that the graph encodes. The `int(...)` truncation of float travel times is not modelled: the matrix already holds whole minutes.
- Default generator creation (lines 51-52) and the weighted draw `rng.choice(num_hubs, p=possibilities[hub])` (line 132) are not modelled: they use floating point and a library random source. A supplied table of in-range destinations replaces them. The model therefore says nothing about the distribution of destinations or about reproducibility from a seed.
- Request pooling and the `all_requests` list (lines 57-63, 120-121) are not modelled. Request objects are not modelled as objects: they become immutable records. `Simulate` returns instead the log of rental attempts in creation order, each as it was when created. The source list differs in two ways: it holds every pooled request twice (once from the pre-built pool, once when used), and it shows later in-place changes to a trip, such as a reroute.
- `request.py` is not part of this model. What a failed request's `dest` and `minutes_left` default to is not modelled.
- Numpy array types: counts are unbounded integers, and a hub's demand is a natural number. The counters come back as sequences, not numpy arrays.
- The hold-over path for a single hub is modelled per trip (`Transit.AdvanceTripCases`). Within a whole run it is unreachable, as it is in the source: with one hub no destination other than the origin exists, so no trip can start.
- A single hub that starts with bikes and has rentals is outside the model. Its first checkout would need a destination other than itself. With the docstring's probabilities none exists, so the source's draw at line 132 cannot produce one.
- `Simulation.Simulate`: its contract bounds only the no-bike counts directly. The bound on no-parking counts is stated separately by `Simulation.CountersBounded`, in terms of the specification states.
