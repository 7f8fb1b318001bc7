# Route optimisation backend: a Dafny model

This project models the route pipeline of a capacitated vehicle routing
backend and the `/optimize` handler around it. The repository has two copies
of the pipeline: the compact one under `Backend/` and the fuller one under
`Major_Project_CSE-main/backend/`. The model describes both and names the
copy (`Copy = Backend | MajorProject`) where they differ.

- **Distance table** (`DistanceTable`): `get_distance_matrix` fills a
  dictionary of dictionaries. It is 0 on the diagonal and holds the integer
  great-circle distance elsewhere. The nested loops become a method over a
  `map<nat, map<nat, nat>>`. It is proved equal to the table as a value.
  The great-circle formula is a parameter `metric`.
- **Decoder** (`Routing`): the solver's answer is a successor map over
  routing indices, with a start index per vehicle, the end indices, and
  `IndexToNode`. The loop after `SolveWithParameters` does the following:
  - skips unused vehicles;
  - walks each chain from depot to depot;
  - sums the demands of the non-depot stops;
  - sums the table entries of consecutive stops;
  - emits one record per kept vehicle.

  The `while` walk and the `for` distance loop are methods, proved against
  the functions `Route`, `Load` and `PathDistance`. The whole decode is a
  method proved equal to `Solve`.
- **Cost rates** (`CostRates`): in the fuller copy, a vehicle's rates are
  read with Python's `value or default` (5.0 for fuel, 7.0 for the driver).
  The route's total cost is the sum of the fuel and driver costs.
- **Geometry** (`Geometry`): `compute_route_geometries` overwrites each
  route's "Route Geometry" in place. It is a method over
  `array<RouteRecord>`. The directions service is an oracle whose GeoJSON
  positions are longitude-first (section 3.1.1 of RFC 7946). The fallback
  on failure is the straight line through the stops.
- **Handler** (`Api`): `optimize` runs its ordered guard checks, then the
  try block with its two exception handlers, then builds the summary. It
  is modelled as a function from the request, the API key, the solver's
  outcome and the service to a response.

## Model

| member | source | states |
|---|---|---|
| DistanceTable.Table | Major_Project_CSE-main/backend/vrp_solver.py:69-84 | the table has keys 0..n-1 at both levels, 0 on the diagonal, and the point metric of locations i and j elsewhere |
| DistanceTable.TableUnique | Major_Project_CSE-main/backend/vrp_solver.py:69-84 | any two tables with that shape and those entries are the same dictionary |
| DistanceTable.TableSymmetric | Major_Project_CSE-main/backend/vrp_solver.py:73-81 | the table is symmetric whenever the point metric is symmetric |
| DistanceTable.GetDistanceMatrix | Backend/vrp_solver.py:13-20 | the nested loops build a square table with exactly those entries, equal to `Table` |
| CostRates.OrDefault | Major_Project_CSE-main/backend/vrp_solver.py:164-165 | `x or default`: a non-zero provided rate is kept, and None or 0.0 gives the default |
| CostRates.SelectRates | Major_Project_CSE-main/backend/vrp_solver.py:164-165 | the selected rates are never 0, and a rate equals its default (5.0 or 7.0) exactly when the vehicle gave none, gave 0.0, or gave the default itself |
| CostRates.DefaultsAndNegatives | Major_Project_CSE-main/backend/vrp_solver.py:164-165 | a vehicle without rates or with zero rates is priced at 5.0 and 7.0, and a negative rate is kept |
| CostRates.CostFigures | Major_Project_CSE-main/backend/vrp_solver.py:161-180 | the total route cost is the sum of the rounded fuel cost and the rounded driver cost |
| CostRates.DefaultPricing | Major_Project_CSE-main/backend/vrp_solver.py:164-168 | a route of a vehicle without rates, or with zero rates, costs exactly what it would at 5.0 and 7.0 per km |
| Routing.NodePath | Major_Project_CSE-main/backend/vrp_solver.py:142-150 | a chain that reaches an end index gives a non-empty node list that starts at the start index's node and holds only nodes of `IndexToNode` |
| Routing.PathEndsAtDepot | Major_Project_CSE-main/backend/vrp_solver.py:148-150 | the node appended after the walk, the end index's node, is the depot |
| Routing.UsedRouteShape | Major_Project_CSE-main/backend/vrp_solver.py:137-159 | once the skip of unused vehicles passes, the path starts and ends at depot 0 and has more than two nodes, so the `len(path) > 2` test never drops a route |
| Routing.Used | Major_Project_CSE-main/backend/vrp_solver.py:135-138 | a vehicle is used when its start index's successor is not an end index; otherwise the loop skips it |
| Routing.Load | Major_Project_CSE-main/backend/vrp_solver.py:141-146 | the load carried is never negative when no demand is negative |
| Routing.PathDistance | Major_Project_CSE-main/backend/vrp_solver.py:153-155 | no single leg between consecutive nodes is longer than the route's whole distance |
| Routing.MakeRecord | Major_Project_CSE-main/backend/vrp_solver.py:159-181 | the result dictionary of one route: the vehicle's id, type and capacity, the stop names and indices of the path, its load and distance, the selected rates in the fuller copy only, and no geometry yet |
| Routing.DecodeUpTo | Major_Project_CSE-main/backend/vrp_solver.py:133-181 | after the loop has looked at the first v vehicles it holds at most v records |
| Routing.Solve | Major_Project_CSE-main/backend/vrp_solver.py:126-184 | None comes back exactly when the solver found no solution, never a partial list; otherwise there are at most as many records as vehicles |
| Routing.UsedVehicles | Major_Project_CSE-main/backend/vrp_solver.py:134-138 | the vehicles that pass the skip are indices below the bound, at most one per vehicle |
| Routing.UsedVehiclesExactly | Major_Project_CSE-main/backend/vrp_solver.py:134-138 | that list is strictly increasing and holds exactly the vehicles whose start's successor is not an end |
| Routing.DecodeIsRecordsOfUsed | Major_Project_CSE-main/backend/vrp_solver.py:134-181 | the decode loop emits the records of the used vehicles, in vehicle order |
| Routing.DecodeIsUsedVehicles | Backend/vrp_solver.py:43-70 | the decoded list has one entry per used vehicle, and its k-th entry is the record of the k-th used vehicle |
| Routing.NoneUsedNoneDecoded | Backend/vrp_solver.py:44-46 | when every vehicle's start goes straight to its end, the list is empty |
| Routing.SomeUsedSomeDecoded | Major_Project_CSE-main/backend/vrp_solver.py:134-181 | when some vehicle is used, the list is not empty: the `len(path) > 2` test never drops its route |
| Routing.RecordForUsed | Major_Project_CSE-main/backend/vrp_solver.py:159-181 | a used vehicle's record has the walked path as indices, the non-depot demand sum as load, the leg sum as distance, and no geometry; it carries the vehicle's id, type (the "N/A" default is never taken) and capacity, and rates only in the fuller copy, where they are the selected ones |
| Routing.DecodedRecords | Backend/vrp_solver.py:59-69 | every decoded record has that shape; the compact copy's records have no cost fields |
| Routing.LoadIsCumul | Major_Project_CSE-main/backend/vrp_solver.py:141-146 | with a zero depot demand, the non-depot load equals the plain demand sum along the path |
| Routing.UsedLoadWithinCapacity | Major_Project_CSE-main/backend/vrp_solver.py:111-118 | if the answer honours the Capacity dimension, a used vehicle's load is at most its capacity |
| Routing.LoadWithinCapacity | Major_Project_CSE-main/backend/vrp_solver.py:111-118 | if the answer honours the Capacity dimension, every decoded record's load is at most its capacity |
| Routing.WalkRoute | Backend/vrp_solver.py:48-54 | the `while not IsEnd` walk returns the vehicle's depot-to-depot path and its non-depot demand sum |
| Routing.RouteDistance | Major_Project_CSE-main/backend/vrp_solver.py:153-155 | the distance loop returns the sum of the table entries of consecutive nodes |
| Routing.SolveCvrpWithoutRestrictions | Major_Project_CSE-main/backend/vrp_solver.py:126-184 | the decode returns None without a solution, and otherwise the list `Solve` describes |
| Geometry.Waypoints | Major_Project_CSE-main/backend/vrp_solver.py:201-203 | the service is sent one (longitude, latitude) pair per stop, in route order |
| Geometry.SwapToLatLon | Major_Project_CSE-main/backend/vrp_solver.py:213-214 | the conversion succeeds exactly when every position has at least two members, keeps the length, and swaps each position to (lat, lon) |
| Domain.Pick | Major_Project_CSE-main/backend/vrp_solver.py:219-221 | the entries at the given positions, in order, one per position: the fallback geometry's stop coordinates here, and the route's stop names at line 160 |
| Geometry.FirstEscape | Major_Project_CSE-main/backend/vrp_solver.py:191-221 | every route before the returned position gets a geometry, and at that position an exception escapes the loop |
| Geometry.ComputeRouteGeometries | Major_Project_CSE-main/backend/vrp_solver.py:186-223 | the in-place loop leaves the list as `Enrich` describes and stops where the first exception escapes |
| Geometry.RouteGeometry | Major_Project_CSE-main/backend/vrp_solver.py:192-221 | a route with fewer than two indices gets an empty geometry; an exception escapes the iteration exactly in the fuller copy, for a route of two or more indices, when the call raises a `BaseException` that is not an `Exception` |
| Geometry.Enrich | Major_Project_CSE-main/backend/vrp_solver.py:191-221 | the list keeps its length and every route keeps every key other than "Route Geometry" |
| Geometry.AnswerSwapped | Major_Project_CSE-main/backend/vrp_solver.py:206-214 | a well-formed answer is stored with each position swapped to (lat, lon), at the answer's length |
| Geometry.FailureFallsBack | Major_Project_CSE-main/backend/vrp_solver.py:216-221 | a caught failure yields the straight line, one point per index, from the first stop to the last |
| Geometry.EchoIsStraightLine | Major_Project_CSE-main/backend/vrp_solver.py:201-221 | converting the waypoints back gives exactly the fallback geometry |
| Geometry.CopiesDiffer | Backend/vrp_solver.py:78-84 | the compact copy's bare `except:` never lets an exception out, and the copies differ only when the call raises a `BaseException` that is not an `Exception` |
| Geometry.EveryRouteEnriched | Backend/vrp_solver.py:72-85 | in the compact copy the loop runs to the end, and a loop that runs to the end writes a geometry on every route |
| Api.HasApiKey | Backend/main.py:76 | `if not ORS_API_KEY`: the key counts as present when it is set and not empty |
| Api.Points | Backend/main.py:114 | the coordinate list has one entry per location, each that location's point, in request order |
| Api.Names | Backend/main.py:115 | the name list has one entry per location, each that location's name, in request order |
| Api.SummaryOf | Backend/main.py:155-159 | the summary of a list: `vehicles_used` is its length and `total_load` the sum of its loads |
| Api.GuardError | Backend/main.py:76-108 | a guard fails with 500 exactly when the key is missing and with 400 otherwise; all guards pass exactly when there is a key, the demands match the locations, the depot demand is 0 and, when there are vehicles, no demand exceeds the largest capacity |
| Api.TryBlock | Backend/main.py:111-149 | a success comes from a returned answer, with a non-empty list and its own summary; an error is either a raised library exception or the re-wrapped "no solution" 500; a 503 comes exactly from an `ApiError`; an exception escapes only from a `BaseException` that is not an `Exception` in the solver step, or from the fuller copy's geometry step |
| Api.Optimize | Backend/main.py:74-159 | a success or an escaping exception means every guard passed, a 400 means one failed, and a success carries a non-empty list from a returned answer with the summary of that list |
| Api.TotalLoad | Backend/main.py:158 | the total load is never negative when no route's load is negative |
| Api.MaxCapacity | Major_Project_CSE-main/backend/main.py:91 | the result bounds every vehicle's capacity and equals one of them |
| Api.FirstOverCapacity | Major_Project_CSE-main/backend/main.py:92-97 | the scan returns the least index whose demand exceeds the capacity, or nothing when no demand does |
| Api.GuardOrder | Backend/main.py:76-84 | the key check comes first (500), then the length match (400), then the depot demand (400), each response exactly when the earlier checks pass and its own fails |
| Api.FirstOverCapacityNamed | Backend/main.py:101-108 | the 400 for an infeasible demand names the first location whose demand exceeds the largest capacity, with that demand and capacity |
| Api.PastGuardsMeansServiceable | Major_Project_CSE-main/backend/main.py:65-97 | any request that reaches the try block has a key, aligned demands, a zero depot demand and every demand at most the largest capacity |
| Api.NoSolutionRewrapped | Backend/main.py:131-149 | no answer, or no used vehicle, raises "no solution" inside the try block, which the generic handler re-raises as a 500 "unexpected server error" |
| Api.SomeUsedDecoded | Backend/main.py:124-131 | an answer in which some vehicle is used gives a non-empty `optimized` list |
| Api.TryBlockSomeUsed | Backend/main.py:131-141 | when the decoded list is not empty the try block does not raise "no solution" |
| Api.SomeUsedSucceeds | Backend/main.py:131-141 | past the guards, an answer with some used vehicle gives a success, and always does in the compact copy or without geometry; otherwise only the fuller copy's geometry step can let an exception escape |
| Api.NoSolutionExactly | Backend/main.py:124-149 | past the guards, with the solver returning, the re-wrapped no-solution 500 comes exactly when there is no answer or no vehicle is used |
| Api.StatusesAndDetails | Major_Project_CSE-main/backend/main.py:133-138 | the bare no-solution detail never reaches the client, and a 503 comes exactly from an `ApiError` after the guards pass |
| Api.BackendEscapesOnlyFromSolver | Backend/main.py:111-149 | in the compact copy an exception escapes the handler only when the solver step raised a `BaseException` that is not an `Exception` |
| Api.OkIsDecoded | Major_Project_CSE-main/backend/main.py:113-130 | a success passed every guard and carries the non-empty decoded list, with geometry written on every route when it was asked for |
| Api.TotalLoadOnlyLoads | Backend/main.py:158 | two lists whose loads agree position by position have the same total load |
| Api.EnrichKeepsTotalLoad | Major_Project_CSE-main/backend/main.py:128-130 | adding geometry leaves the total load of the list unchanged |
| Api.OkSummary | Backend/main.py:153-159 | `vehicles_used` is the number of records, at least 1 and at most the number of vehicles, and `total_load` is the sum of their loads, equal to the total load of the decoded list before geometry |
| Api.DecodedDepotToDepot | Major_Project_CSE-main/backend/vrp_solver.py:140-181 | every decoded record runs from the depot through at least one stop back to the depot and has no geometry yet |
| Api.EnrichKeepsDepotToDepot | Major_Project_CSE-main/backend/vrp_solver.py:191-221 | adding geometry keeps every route running from the depot back to the depot |
| Api.OkRoutes | Major_Project_CSE-main/backend/main.py:124-141 | every returned route runs from the depot through at least one stop back to the depot |
| Api.OkGeometry | Major_Project_CSE-main/backend/main.py:128-130 | a returned route carries a geometry exactly when `include_geometry` is true |
| Api.OkWithinCapacity | Major_Project_CSE-main/backend/main.py:99-148 | if the answer honours the Capacity dimension, every returned route's load is at most its vehicle's capacity |

## Left out

- OR-Tools' search is not modelled: the routing model, the cheapest-arc start, guided local search and the time limit (`time_limit_seconds`). Only its answer is modelled. Two stated assumptions stand in for its guarantees:
  - `Routing.WellFormed`: chains terminate and start/end indices map to the depot.
  - `Routing.CapacityHonoured`: the Capacity dimension holds.
- The haversine trigonometry is floating point, so it enters as the parameter `metric`. A math-domain error from rounding is covered only by the abstract `Raises` outcome of the solver step.
- The km rounding (`round(meters / 1000, 2)`), the cost rounding and `total_distance_km` are floating point:
  - the records keep integer meters;
  - the rounding enters as the parameter `round2` of `CostRates.CostFigures`;
  - `total_distance_km` is not modelled.
- The directions service, the `openrouteservice` client and the network are not modelled. They are the oracle `Geometry.Service`, indexed by the route's position in the list.
- FastAPI, CORS, pydantic validation, dotenv and logging are left out. The request is assumed to have passed validation: at least two locations.
- `jsonable_encoder` is left out. Its one visible effect is that the vehicle type is passed through as given, so a missing type is None rather than "N/A".
- The route string joined with " → " is modelled as the sequence of stop names.
- The 503 for a missing distance table (Backend/main.py:120-121) cannot happen, because the table builder always returns a table. It is not modelled.
- The commented-out service-based distance function at the top of the fuller copy is dead code and is not modelled.
- Dictionary identity is not modelled. A route dictionary is a slot of the array the geometry loop updates.
- `value or default` falls back on None and 0.0 only; a negative rate is kept (`CostRates.DefaultsAndNegatives`).
- The `/` and `/health` endpoints and the repeated `app = FastAPI()` are not modelled.
