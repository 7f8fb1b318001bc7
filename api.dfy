/** The `/optimize` handler of both `main.py` files: the ordered guard checks,
    the try block around the distance table, the solver and the geometry
    step with its exception re-mapping, and the summary of a successful
    response. The handler has no state of its own; it is a function of the
    request, the configured API key and what the library calls inside the
    try block produce. */
module Api {

  import opened Wrappers
  import opened Domain
  import DistanceTable
  import Routing
  import Geometry

  /** The request body after schema validation (at least two locations). A
      client may send `include_geometry: null`; an omitted field is `true`. */
  datatype Request = Request(
    locations: seq<Location>,
    vehicles: seq<Vehicle>,
    demands: seq<int>,
    includeGeometry: Option<bool>)

  /** What the library steps of the try block did: raise, or return the
      routing library's answer (None when it found no solution). */
  datatype SolverCall = Raises(kind: Exc) | Returns(answer: Option<Routing.Assignment>)

  /** The exception an "unexpected server error" wraps: an `HTTPException`
      raised inside the try block, or an exception from a library call. */
  datatype Cause = Http(status: nat, detail: Detail) | Library(kind: Exc)

  datatype Detail =
    | MissingApiKey
    | LengthMismatch
    | DepotDemandNotZero
    | DemandExceedsCapacity(location: string, demand: int, maxCapacity: int)
    | NoSolutionFound
    | ServiceError
    | Unexpected(cause: Cause)

  datatype Summary = Summary(vehiclesUsed: nat, totalLoad: int)

  /** The handler's outcome: a JSON body, an `HTTPException`, or an
      exception that no handler in `optimize` catches. */
  datatype Response = Ok(result: seq<RouteRecord>, summary: Summary) | Err(status: nat, detail: Detail) | Unhandled

  /** `if not ORS_API_KEY`: unset and empty both count as missing. */
  predicate HasApiKey(key: Option<string>)
  {
    key.Some? && key.value != ""
  }

  /** `max(v.capacity for v in req.vehicles)`. */
  function MaxCapacity(vehicles: seq<Vehicle>): (c: int)
    requires |vehicles| > 0
    ensures forall k :: 0 <= k < |vehicles| ==> vehicles[k].capacity <= c
    ensures exists k :: 0 <= k < |vehicles| && vehicles[k].capacity == c
  {
    if |vehicles| == 1 then vehicles[0].capacity
    else
      var rest := MaxCapacity(vehicles[1..]);
      assert forall k :: 1 <= k < |vehicles| ==> vehicles[k] == vehicles[1..][k - 1];
      if vehicles[0].capacity >= rest then vehicles[0].capacity else rest
  }

  /** The scan `for i, demand in enumerate(req.demands)` from position
      `from`: the first index whose demand exceeds `cap`, if any. */
  function FirstOverCapacity(demands: seq<int>, cap: int, from: nat): (r: Option<nat>)
    requires from <= |demands|
    ensures r.Some? ==> from <= r.value < |demands| && demands[r.value] > cap
    ensures r.Some? ==> forall j :: from <= j < r.value ==> demands[j] <= cap
    ensures r.None? ==> forall j :: from <= j < |demands| ==> demands[j] <= cap
    decreases |demands| - from
  {
    if from == |demands| then None
    else if demands[from] > cap then Some(from)
    else FirstOverCapacity(demands, cap, from + 1)
  }

  function Points(locations: seq<Location>): (ps: seq<LatLon>)
    ensures |ps| == |locations| && forall k :: 0 <= k < |ps| ==> ps[k] == locations[k].point
  {
    seq(|locations|, k requires 0 <= k < |locations| => locations[k].point)
  }

  function Names(locations: seq<Location>): (ns: seq<string>)
    ensures |ns| == |locations| && forall k :: 0 <= k < |ns| ==> ns[k] == locations[k].name
  {
    seq(|locations|, k requires 0 <= k < |locations| => locations[k].name)
  }

  /** `sum(v.get("Load Carried", 0) for v in optimized)`. */
  function TotalLoad(rs: seq<RouteRecord>): (t: int)
    ensures (forall j :: 0 <= j < |rs| ==> rs[j].load >= 0) ==> t >= 0
  {
    if rs == [] then 0 else TotalLoad(rs[..|rs| - 1]) + rs[|rs| - 1].load
  }

  function SummaryOf(rs: seq<RouteRecord>): Summary
  {
    Summary(|rs|, TotalLoad(rs))
  }

  /** The routing library keeps its promises about the answer it returns. */
  ghost predicate SolverSound(solver: SolverCall, req: Request)
  {
    solver.Returns? && solver.answer.Some? ==>
      Routing.WellFormed(solver.answer.value, |req.locations|, |req.vehicles|)
  }

  /** The guard checks of `optimize`, in order; None when all pass. */
  function GuardError(apiKey: Option<string>, req: Request): (r: Option<(nat, Detail)>)
    requires |req.locations| >= 2
    ensures r.Some? ==> (r.value.0 == 500 <==> !HasApiKey(apiKey)) && (r.value.0 == 500 || r.value.0 == 400)
    ensures r.None? <==>
      && HasApiKey(apiKey) && |req.demands| == |req.locations| && req.demands[0] == 0
      && (|req.vehicles| > 0 ==> forall i :: 0 <= i < |req.demands| ==> req.demands[i] <= MaxCapacity(req.vehicles))
  {
    if !HasApiKey(apiKey) then Some((500, MissingApiKey))
    else if |req.demands| != |req.locations| then Some((400, LengthMismatch))
    else if req.demands[0] != 0 then Some((400, DepotDemandNotZero))
    else if |req.vehicles| > 0 && FirstOverCapacity(req.demands, MaxCapacity(req.vehicles), 0).Some? then
      var i := FirstOverCapacity(req.demands, MaxCapacity(req.vehicles), 0).value;
      Some((400, DemandExceedsCapacity(req.locations[i].name, req.demands[i], MaxCapacity(req.vehicles))))
    else None
  }

  /** The try block and its two handlers. An `HTTPException` raised inside
      the block is an `Exception`, so the generic handler turns it into a 500
      "unexpected server error"; an `ApiError` becomes a 503; a
      `BaseException` that is not an `Exception` passes both handlers. */
  function TryBlock(copy: Copy, req: Request, metric: DistanceTable.Metric, solver: SolverCall, service: Geometry.Service): (r: Response)
    requires |req.demands| == |req.locations| && SolverSound(solver, req)
    ensures r.Ok? ==> solver.Returns? && solver.answer.Some? && r.result != [] && r.summary == SummaryOf(r.result)
    ensures r.Err? ==> solver.Raises? || r == Err(500, Unexpected(Http(500, NoSolutionFound)))
    ensures r.Err? ==> (r.status == 503 <==> solver == Raises(ApiError))
    ensures r.Unhandled? ==> solver == Raises(BaseOnly) || (copy == MajorProject && req.includeGeometry == Some(true))
  {
    match solver
    case Raises(ApiError) => Err(503, ServiceError)
    case Raises(OtherException) => Err(500, Unexpected(Library(OtherException)))
    case Raises(BaseOnly) => Unhandled
    case Returns(answer) =>
      var points := Points(req.locations);
      var D := DistanceTable.Table(points, metric);
      var names := Names(req.locations);
      var optimized := Routing.Solve(copy, answer, D, req.vehicles, req.demands, names);
      if optimized.None? || optimized.value == [] then
        Err(500, Unexpected(Http(500, NoSolutionFound)))
      else if req.includeGeometry == Some(true) then
        Routing.DecodedRecords(copy, answer.value, D, req.vehicles, req.demands, names);
        var rs := optimized.value;
        if Geometry.FirstEscape(copy, rs, points, service, 0) < |rs| then Unhandled
        else
          var enriched := Geometry.Enrich(copy, rs, points, service);
          Ok(enriched, SummaryOf(enriched))
      else Ok(optimized.value, SummaryOf(optimized.value))
  }

  /** `optimize`: the guard checks, then the try block. */
  function Optimize(copy: Copy, apiKey: Option<string>, req: Request, metric: DistanceTable.Metric, solver: SolverCall, service: Geometry.Service): (r: Response)
    requires |req.locations| >= 2 && SolverSound(solver, req)
    ensures r.Ok? || r.Unhandled? ==> GuardError(apiKey, req).None?
    ensures r.Err? && r.status == 400 ==> GuardError(apiKey, req).Some?
    ensures r.Ok? ==> solver.Returns? && solver.answer.Some? && r.result != [] && r.summary == SummaryOf(r.result)
  {
    match GuardError(apiKey, req)
    case Some((status, detail)) => Err(status, detail)
    case None => TryBlock(copy, req, metric, solver, service)
  }

  // ---------------------------------------------------------------------
  // Properties of the handler
  // ---------------------------------------------------------------------

  /** The guards fire in order: a missing key is reported before any input
      is looked at, a length mismatch before the depot demand is read, the
      depot demand before the capacity scan. */
  lemma GuardOrder(copy: Copy, apiKey: Option<string>, req: Request, metric: DistanceTable.Metric, solver: SolverCall, service: Geometry.Service)
    requires |req.locations| >= 2 && SolverSound(solver, req)
    ensures !HasApiKey(apiKey) <==> Optimize(copy, apiKey, req, metric, solver, service) == Err(500, MissingApiKey)
    ensures HasApiKey(apiKey) && |req.demands| != |req.locations| <==>
      Optimize(copy, apiKey, req, metric, solver, service) == Err(400, LengthMismatch)
    ensures HasApiKey(apiKey) && |req.demands| == |req.locations| && req.demands[0] != 0 <==>
      Optimize(copy, apiKey, req, metric, solver, service) == Err(400, DepotDemandNotZero)
  {
  }

  /** The capacity guard names the first location, in request order, whose
      demand exceeds the largest vehicle capacity. */
  lemma {:induction false} FirstOverCapacityNamed(copy: Copy, apiKey: Option<string>, req: Request, metric: DistanceTable.Metric, solver: SolverCall, service: Geometry.Service, i: nat)
    requires |req.locations| >= 2 && SolverSound(solver, req)
    requires HasApiKey(apiKey) && |req.demands| == |req.locations| && req.demands[0] == 0
    requires |req.vehicles| > 0
    requires i < |req.demands| && req.demands[i] > MaxCapacity(req.vehicles)
    requires forall j :: 0 <= j < i ==> req.demands[j] <= MaxCapacity(req.vehicles)
    ensures Optimize(copy, apiKey, req, metric, solver, service) ==
      Err(400, DemandExceedsCapacity(req.locations[i].name, req.demands[i], MaxCapacity(req.vehicles)))
  {
    var f := FirstOverCapacity(req.demands, MaxCapacity(req.vehicles), 0);
    assert f.Some? && f.value == i;
  }

  /** Whatever gets past the guards (a success, a solver or service error,
      an escaping exception) came from a request whose demands match the
      locations, whose depot demand is 0, and none of whose demands exceeds
      the largest vehicle capacity. */
  lemma PastGuardsMeansServiceable(copy: Copy, apiKey: Option<string>, req: Request, metric: DistanceTable.Metric, solver: SolverCall, service: Geometry.Service)
    requires |req.locations| >= 2 && SolverSound(solver, req)
    requires var r := Optimize(copy, apiKey, req, metric, solver, service);
      r.Ok? || r.Unhandled? || (r.Err? && (r.detail.Unexpected? || r.detail.ServiceError?))
    ensures HasApiKey(apiKey) && |req.demands| == |req.locations| && req.demands[0] == 0
    ensures |req.vehicles| > 0 ==> forall i :: 0 <= i < |req.demands| ==> req.demands[i] <= MaxCapacity(req.vehicles)
  {
  }

  /** A solver answer of None, or an answer in which no vehicle is used (so
      that the decoded list is empty), raises "No solution found" inside the try block, and the generic
      handler re-wraps it: the response is a 500 "unexpected server error"
      whose cause is that exception. The bare no-solution detail never
      reaches the client. */
  lemma NoSolutionRewrapped(copy: Copy, apiKey: Option<string>, req: Request, metric: DistanceTable.Metric, solver: SolverCall, service: Geometry.Service)
    requires |req.locations| >= 2 && SolverSound(solver, req)
    requires GuardError(apiKey, req).None?
    requires solver.Returns?
    requires solver.answer.Some? ==> forall u :: 0 <= u < |req.vehicles| ==> !Routing.Used(solver.answer.value, u)
    ensures Optimize(copy, apiKey, req, metric, solver, service) ==
      Err(500, Unexpected(Http(500, NoSolutionFound)))
  {
    if solver.answer.Some? {
      var a := solver.answer.value;
      var points := Points(req.locations);
      var D := DistanceTable.Table(points, metric);
      Routing.NoneUsedNoneDecoded(copy, a, D, req.vehicles, req.demands, Names(req.locations), |req.vehicles|);
    }
  }

  /** An answer in which some vehicle is used decodes to a non-empty list. */
  lemma SomeUsedDecoded(copy: Copy, req: Request, metric: DistanceTable.Metric, a: Routing.Assignment, u: nat)
    requires |req.demands| == |req.locations| && Routing.WellFormed(a, |req.locations|, |req.vehicles|)
    requires u < |req.vehicles| && Routing.Used(a, u)
    ensures Decoded(copy, req, metric, a) != []
  {
    Routing.SomeUsedSomeDecoded(copy, a, DistanceTable.Table(Points(req.locations), metric), req.vehicles, req.demands, Names(req.locations), u);
  }

  /** The try block on an answer that decodes to a non-empty list does not
      raise "no solution". */
  lemma TryBlockSomeUsed(copy: Copy, req: Request, metric: DistanceTable.Metric, a: Routing.Assignment, service: Geometry.Service)
    requires |req.demands| == |req.locations| && SolverSound(Returns(Some(a)), req)
    requires Decoded(copy, req, metric, a) != []
    ensures TryBlock(copy, req, metric, Returns(Some(a)), service) != Err(500, Unexpected(Http(500, NoSolutionFound)))
  {
  }

  /** The converse of `NoSolutionRewrapped`: an answer in which some vehicle
      is used never takes the `if not optimized` branch. The handler then
      succeeds, unless the fuller copy's geometry step lets an exception
      escape. */
  lemma SomeUsedSucceeds(copy: Copy, apiKey: Option<string>, req: Request, metric: DistanceTable.Metric, solver: SolverCall, service: Geometry.Service, u: nat)
    requires |req.locations| >= 2 && SolverSound(solver, req)
    requires GuardError(apiKey, req).None?
    requires solver.Returns? && solver.answer.Some?
    requires u < |req.vehicles| && Routing.Used(solver.answer.value, u)
    ensures var r := Optimize(copy, apiKey, req, metric, solver, service);
      && (r.Ok? || r.Unhandled?)
      && (copy == Backend || req.includeGeometry != Some(true) ==> r.Ok?)
  {
    SomeUsedDecoded(copy, req, metric, solver.answer.value, u);
    TryBlockSomeUsed(copy, req, metric, solver.answer.value, service);
    BackendEscapesOnlyFromSolver(apiKey, req, metric, solver, service);
  }

  /** Past the guards, with the solver returning, the re-wrapped no-solution
      500 comes exactly when there is no answer or no vehicle is used. */
  lemma NoSolutionExactly(copy: Copy, apiKey: Option<string>, req: Request, metric: DistanceTable.Metric, solver: SolverCall, service: Geometry.Service)
    requires |req.locations| >= 2 && SolverSound(solver, req)
    requires GuardError(apiKey, req).None? && solver.Returns?
    ensures Optimize(copy, apiKey, req, metric, solver, service) == Err(500, Unexpected(Http(500, NoSolutionFound))) <==>
      solver.answer.None? || forall u :: 0 <= u < |req.vehicles| ==> !Routing.Used(solver.answer.value, u)
  {
    if solver.answer.None? || forall u :: 0 <= u < |req.vehicles| ==> !Routing.Used(solver.answer.value, u) {
      NoSolutionRewrapped(copy, apiKey, req, metric, solver, service);
    } else {
      var u :| 0 <= u < |req.vehicles| && Routing.Used(solver.answer.value, u);
      SomeUsedSucceeds(copy, apiKey, req, metric, solver, service, u);
    }
  }

  /** The handler never answers with the inner no-solution or service
      details themselves, and a 503 comes only from an `ApiError`. */
  lemma StatusesAndDetails(copy: Copy, apiKey: Option<string>, req: Request, metric: DistanceTable.Metric, solver: SolverCall, service: Geometry.Service)
    requires |req.locations| >= 2 && SolverSound(solver, req)
    ensures var r := Optimize(copy, apiKey, req, metric, solver, service);
      r.Err? ==> r.detail != NoSolutionFound && r.status in {400, 500, 503}
    ensures var r := Optimize(copy, apiKey, req, metric, solver, service);
      r.Err? && r.status == 503 <==> GuardError(apiKey, req).None? && solver == Raises(ApiError)
  {
  }

  /** The copy under `Backend/` lets an exception escape the handler only
      when a library call inside the try block raised a `BaseException`
      that is not an `Exception`. */
  lemma BackendEscapesOnlyFromSolver(apiKey: Option<string>, req: Request, metric: DistanceTable.Metric, solver: SolverCall, service: Geometry.Service)
    requires |req.locations| >= 2 && SolverSound(solver, req)
    ensures Optimize(Backend, apiKey, req, metric, solver, service).Unhandled? ==> solver == Raises(BaseOnly)
  {
    if GuardError(apiKey, req).None? && solver.Returns? && req.includeGeometry == Some(true) {
      var a := solver.answer;
      var points := Points(req.locations);
      var D := DistanceTable.Table(points, metric);
      var names := Names(req.locations);
      var optimized := Routing.Solve(Backend, a, D, req.vehicles, req.demands, names);
      if optimized.Some? && optimized.value != [] {
        Routing.DecodedRecords(Backend, a.value, D, req.vehicles, req.demands, names);
        Geometry.EveryRouteEnriched(Backend, optimized.value, points, service);
      }
    }
  }

  /** Two lists whose loads agree position by position have the same total
      load. */
  lemma {:induction false} TotalLoadOnlyLoads(rs: seq<RouteRecord>, qs: seq<RouteRecord>)
    requires |rs| == |qs| && forall j :: 0 <= j < |rs| ==> rs[j].load == qs[j].load
    ensures TotalLoad(rs) == TotalLoad(qs)
  {
    if rs != [] {
      TotalLoadOnlyLoads(rs[..|rs| - 1], qs[..|qs| - 1]);
    }
  }

  /** The decoded list for a request, before any geometry is added. */
  function Decoded(copy: Copy, req: Request, metric: DistanceTable.Metric, a: Routing.Assignment): seq<RouteRecord>
    requires |req.demands| == |req.locations| && Routing.WellFormed(a, |req.locations|, |req.vehicles|)
  {
    Routing.DecodeUpTo(copy, a, DistanceTable.Table(Points(req.locations), metric), req.vehicles, req.demands, Names(req.locations), |req.vehicles|)
  }

  /** A successful response passed every guard and carries the decoded list,
      non-empty, with geometry added to every route when it was asked for;
      its summary is computed from the list it returns. */
  lemma OkIsDecoded(copy: Copy, apiKey: Option<string>, req: Request, metric: DistanceTable.Metric, solver: SolverCall, service: Geometry.Service)
    requires |req.locations| >= 2 && SolverSound(solver, req)
    requires Optimize(copy, apiKey, req, metric, solver, service).Ok?
    ensures GuardError(apiKey, req).None? && solver.Returns? && solver.answer.Some?
    ensures var rs := Decoded(copy, req, metric, solver.answer.value);
      var r := Optimize(copy, apiKey, req, metric, solver, service);
      && rs != []
      && r.summary == SummaryOf(r.result)
      && (req.includeGeometry != Some(true) ==> r.result == rs)
      && (req.includeGeometry == Some(true) ==>
            && Geometry.RoutesInRange(rs, |req.locations|)
            && Geometry.FirstEscape(copy, rs, Points(req.locations), service, 0) == |rs|
            && r.result == Geometry.Enrich(copy, rs, Points(req.locations), service))
  {
    var a := solver.answer.value;
    var points := Points(req.locations);
    var D := DistanceTable.Table(points, metric);
    var names := Names(req.locations);
    if req.includeGeometry == Some(true) {
      Routing.DecodedRecords(copy, a, D, req.vehicles, req.demands, names);
    }
  }

  /** Adding geometry keeps the total load of the list. */
  lemma EnrichKeepsTotalLoad(copy: Copy, rs: seq<RouteRecord>, points: seq<LatLon>, service: Geometry.Service)
    requires Geometry.RoutesInRange(rs, |points|)
    ensures TotalLoad(Geometry.Enrich(copy, rs, points, service)) == TotalLoad(rs)
  {
    var out := Geometry.Enrich(copy, rs, points, service);
    forall k | 0 <= k < |rs|
      ensures out[k].load == rs[k].load
    {
      assert out[k].(geometry := rs[k].geometry) == rs[k];
    }
    TotalLoadOnlyLoads(out, rs);
  }

  /** A successful response reports as `vehicles_used` the number of records,
      at least one and at most one per vehicle, and as `total_load` the sum of
      their loads, which is the sum of the loads the solver's routes carry
      whether or not geometry was added. */
  lemma OkSummary(copy: Copy, apiKey: Option<string>, req: Request, metric: DistanceTable.Metric, solver: SolverCall, service: Geometry.Service)
    requires |req.locations| >= 2 && SolverSound(solver, req)
    requires Optimize(copy, apiKey, req, metric, solver, service).Ok?
    ensures var r := Optimize(copy, apiKey, req, metric, solver, service);
      && r.summary.vehiclesUsed == |r.result| >= 1
      && r.summary.totalLoad == TotalLoad(r.result)
      && r.summary.totalLoad == TotalLoad(Decoded(copy, req, metric, solver.answer.value))
      && |r.result| <= |req.vehicles|
  {
    OkIsDecoded(copy, apiKey, req, metric, solver, service);
    var a := solver.answer.value;
    var rs := Decoded(copy, req, metric, a);
    var D := DistanceTable.Table(Points(req.locations), metric);
    Routing.DecodeIsUsedVehicles(copy, a, D, req.vehicles, req.demands, Names(req.locations), |req.vehicles|);
    if req.includeGeometry == Some(true) {
      EnrichKeepsTotalLoad(copy, rs, Points(req.locations), service);
    }
  }

  /** A record's indices run from the depot through at least one stop back
      to the depot. */
  predicate DepotToDepot(r: RouteRecord)
  {
    |r.indices| > 2 && r.indices[0] == 0 && r.indices[|r.indices| - 1] == 0
  }

  /** Every decoded record runs from the depot back to the depot and has no
      geometry yet. */
  lemma DecodedDepotToDepot(copy: Copy, req: Request, metric: DistanceTable.Metric, a: Routing.Assignment)
    requires |req.demands| == |req.locations| && Routing.WellFormed(a, |req.locations|, |req.vehicles|)
    ensures var rs := Decoded(copy, req, metric, a);
      forall k :: 0 <= k < |rs| ==> DepotToDepot(rs[k]) && rs[k].geometry.None?
  {
    var D := DistanceTable.Table(Points(req.locations), metric);
    var names := Names(req.locations);
    var rs := Decoded(copy, req, metric, a);
    Routing.DecodedRecords(copy, a, D, req.vehicles, req.demands, names);
    forall k | 0 <= k < |rs|
      ensures DepotToDepot(rs[k]) && rs[k].geometry.None?
    {
      assert Routing.DecodedShape(copy, rs[k], D, req.demands, names);
    }
  }

  /** Adding geometry keeps every route's indices. */
  lemma EnrichKeepsDepotToDepot(copy: Copy, rs: seq<RouteRecord>, points: seq<LatLon>, service: Geometry.Service)
    requires Geometry.RoutesInRange(rs, |points|)
    requires forall k :: 0 <= k < |rs| ==> DepotToDepot(rs[k])
    ensures var out := Geometry.Enrich(copy, rs, points, service);
      forall k :: 0 <= k < |out| ==> DepotToDepot(out[k])
  {
    var out := Geometry.Enrich(copy, rs, points, service);
    forall k | 0 <= k < |out|
      ensures out[k].indices == rs[k].indices
    {
      assert out[k].(geometry := rs[k].geometry) == rs[k];
    }
  }

  /** Every record of a successful response runs from the depot through at
      least one stop back to the depot. */
  lemma OkRoutes(copy: Copy, apiKey: Option<string>, req: Request, metric: DistanceTable.Metric, solver: SolverCall, service: Geometry.Service)
    requires |req.locations| >= 2 && SolverSound(solver, req)
    requires Optimize(copy, apiKey, req, metric, solver, service).Ok?
    ensures var r := Optimize(copy, apiKey, req, metric, solver, service);
      forall k :: 0 <= k < |r.result| ==> DepotToDepot(r.result[k])
  {
    OkIsDecoded(copy, apiKey, req, metric, solver, service);
    var rs := Decoded(copy, req, metric, solver.answer.value);
    DecodedDepotToDepot(copy, req, metric, solver.answer.value);
    if req.includeGeometry == Some(true) {
      EnrichKeepsDepotToDepot(copy, rs, Points(req.locations), service);
    }
  }

  /** A record of a successful response carries a geometry exactly when
      `include_geometry` is true. */
  lemma OkGeometry(copy: Copy, apiKey: Option<string>, req: Request, metric: DistanceTable.Metric, solver: SolverCall, service: Geometry.Service)
    requires |req.locations| >= 2 && SolverSound(solver, req)
    requires Optimize(copy, apiKey, req, metric, solver, service).Ok?
    ensures var r := Optimize(copy, apiKey, req, metric, solver, service);
      forall k :: 0 <= k < |r.result| ==> (r.result[k].geometry.Some? <==> req.includeGeometry == Some(true))
  {
    OkIsDecoded(copy, apiKey, req, metric, solver, service);
    var rs := Decoded(copy, req, metric, solver.answer.value);
    if req.includeGeometry == Some(true) {
      Geometry.EveryRouteEnriched(copy, rs, Points(req.locations), service);
    } else {
      DecodedDepotToDepot(copy, req, metric, solver.answer.value);
    }
  }

  /** When the routing library's answer honours the Capacity dimension, every
      route of a successful response carries no more than its vehicle's
      capacity. */
  lemma OkWithinCapacity(copy: Copy, apiKey: Option<string>, req: Request, metric: DistanceTable.Metric, solver: SolverCall, service: Geometry.Service)
    requires |req.locations| >= 2 && SolverSound(solver, req)
    requires Optimize(copy, apiKey, req, metric, solver, service).Ok?
    requires Routing.CapacityHonoured(solver.answer.value, req.vehicles, req.demands)
    ensures var r := Optimize(copy, apiKey, req, metric, solver, service);
      forall k :: 0 <= k < |r.result| ==> r.result[k].load <= r.result[k].capacity
  {
    OkIsDecoded(copy, apiKey, req, metric, solver, service);
    var r := Optimize(copy, apiKey, req, metric, solver, service);
    var a := solver.answer.value;
    var points := Points(req.locations);
    var D := DistanceTable.Table(points, metric);
    var names := Names(req.locations);
    var rs := Decoded(copy, req, metric, a);
    Routing.LoadWithinCapacity(copy, a, D, req.vehicles, req.demands, names);
    assert forall k :: 0 <= k < |rs| ==> rs[k].load <= rs[k].capacity;
    if req.includeGeometry == Some(true) {
      Geometry.EveryRouteEnriched(copy, rs, points, service);
      forall k | 0 <= k < |rs|
        ensures r.result[k].load == rs[k].load && r.result[k].capacity == rs[k].capacity
      {
        assert r.result[k].(geometry := rs[k].geometry) == rs[k];
      }
    }
  }
}
