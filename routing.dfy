/** Decoding the routing library's answer in `solve_cvrp_without_restrictions`.

    The search itself (OR-Tools' routing model, cheapest-arc construction,
    guided local search) is not modelled; only its answer is. An answer is a
    successor map over routing indices: each vehicle has a start index and
    an end index, `next` gives the successor chosen for each index that is
    not an end, and `node` is the index manager's `IndexToNode`. The decode
    loop walks each vehicle's chain from its start to its end, collects the
    visited nodes, sums the demands of the non-depot nodes and the table
    distances of consecutive nodes, and emits one record per used vehicle. */
module Routing {

  import opened Wrappers
  import opened Domain
  import DistanceTable
  import CostRates

  /** The solver's answer: `starts[v]` is `routing.Start(v)`, `ends` the
      indices for which `routing.IsEnd` holds, `next[i]` is
      `solution.Value(routing.NextVar(i))`, `node[i]` is `IndexToNode(i)`. */
  datatype Assignment = Assignment(
    starts: seq<nat>,
    ends: set<nat>,
    next: map<nat, nat>,
    node: map<nat, nat>)

  /** The nodes visited from index `i` up to and including the first end
      index, or None if the chain leaves the map or is longer than `fuel`. */
  function NodePath(a: Assignment, i: nat, fuel: nat): (r: Option<seq<nat>>)
    ensures r.Some? ==> i in a.node && |r.value| >= 1 && r.value[0] == a.node[i]
    ensures r.Some? ==> forall k :: 0 <= k < |r.value| ==> r.value[k] in a.node.Values
    decreases fuel
  {
    if i !in a.node then None
    else if i in a.ends then Some([a.node[i]])
    else if fuel == 0 || i !in a.next then None
    else match NodePath(a, a.next[i], fuel - 1)
      case None => None
      case Some(rest) => Some([a.node[i]] + rest)
  }

  /** What the decoder relies on in an answer for `n` locations and `m`
      vehicles: nodes are location indices, start and end indices stand for
      the depot, a start is not an end, and every vehicle's chain reaches an
      end index in at most as many steps as there are indices with a
      successor (the routes are simple paths). */
  ghost predicate WellFormed(a: Assignment, n: nat, m: nat)
  {
    && |a.starts| == m
    && (forall x :: x in a.node.Values ==> x < n)
    && (forall e :: e in a.ends ==> e in a.node && a.node[e] == 0)
    && (forall v :: 0 <= v < m ==>
          && a.starts[v] in a.node && a.node[a.starts[v]] == 0
          && a.starts[v] !in a.ends
          && NodePath(a, a.starts[v], |a.next|).Some?)
  }

  /** The node path of vehicle `v`: depot, stops, depot. */
  function Route(a: Assignment, v: nat): (path: seq<nat>)
    requires v < |a.starts| && NodePath(a, a.starts[v], |a.next|).Some?
  {
    NodePath(a, a.starts[v], |a.next|).value
  }

  /** A vehicle is used unless its start's successor is already its end. */
  predicate Used(a: Assignment, v: nat)
  {
    v < |a.starts| && a.starts[v] in a.next && a.next[a.starts[v]] !in a.ends
  }

  /** "Load Carried": the demands of the non-depot nodes of the path. */
  function Load(demands: seq<int>, path: seq<nat>): (r: int)
    requires InRange(path, |demands|)
    ensures (forall i :: 0 <= i < |demands| ==> demands[i] >= 0) ==> r >= 0
  {
    if path == [] then 0
    else
      var last := path[|path| - 1];
      Load(demands, path[..|path| - 1]) + (if last != 0 then demands[last] else 0)
  }

  /** The demands of all nodes of the path, depot included: what the routing
      library's Capacity dimension accumulates. */
  function Cumul(demands: seq<int>, path: seq<nat>): int
    requires InRange(path, |demands|)
  {
    if path == [] then 0
    else Cumul(demands, path[..|path| - 1]) + demands[path[|path| - 1]]
  }

  /** The route distance in meters: table entries of consecutive nodes. */
  function PathDistance(D: DistanceTable.Matrix, path: seq<nat>): (r: nat)
    requires forall k :: 0 <= k < |path| ==> path[k] in D && forall l :: 0 <= l < |path| ==> path[l] in D[path[k]]
    ensures forall k :: 0 <= k < |path| - 1 ==> D[path[k]][path[k + 1]] <= r
  {
    if |path| < 2 then 0
    else PathDistance(D, path[..|path| - 1]) + D[path[|path| - 2]][path[|path| - 1]]
  }

  /** The inputs of one decode: `n` = number of names, demands aligned with
      the names, an n-by-n table, and a well-formed answer for the vehicles. */
  ghost predicate Consistent(a: Assignment, D: DistanceTable.Matrix, vehicles: seq<Vehicle>, demands: seq<int>, names: seq<string>)
  {
    && |demands| == |names|
    && DistanceTable.IsSquare(D, |names|)
    && WellFormed(a, |names|, |vehicles|)
  }

  /** The record emitted for `vehicle` travelling `path`. The copy under
      `Backend/` has no cost fields. */
  function MakeRecord(copy: Copy, vehicle: Vehicle, path: seq<nat>, D: DistanceTable.Matrix, demands: seq<int>, names: seq<string>): RouteRecord
    requires |demands| == |names| && DistanceTable.IsSquare(D, |names|) && InRange(path, |names|)
  {
    RouteRecord(
      vehicle.id, vehicle.vehicleType, vehicle.capacity,
      Pick(names, path), path,
      Load(demands, path), PathDistance(D, path),
      if copy == MajorProject then Some(CostRates.SelectRates(vehicle)) else None,
      None)
  }

  /** Every node of a well-formed chain is a location index. */
  lemma RouteInRange(a: Assignment, n: nat, m: nat, v: nat)
    requires WellFormed(a, n, m) && v < m
    ensures InRange(Route(a, v), n)
  {
  }

  /** The record the decoder emits for vehicle `u`. */
  function RecordFor(copy: Copy, a: Assignment, D: DistanceTable.Matrix, vehicles: seq<Vehicle>, demands: seq<int>, names: seq<string>, u: nat): RouteRecord
    requires Consistent(a, D, vehicles, demands, names) && u < |vehicles|
  {
    RouteInRange(a, |names|, |vehicles|, u);
    MakeRecord(copy, vehicles[u], Route(a, u), D, demands, names)
  }

  /** The result list after the decode loop has looked at vehicles 0..v-1:
      a record for each used vehicle whose path has a stop besides the depot. */
  function DecodeUpTo(copy: Copy, a: Assignment, D: DistanceTable.Matrix, vehicles: seq<Vehicle>, demands: seq<int>, names: seq<string>, v: nat): (rs: seq<RouteRecord>)
    requires Consistent(a, D, vehicles, demands, names) && v <= |vehicles|
    ensures |rs| <= v
  {
    if v == 0 then []
    else
      var prev := DecodeUpTo(copy, a, D, vehicles, demands, names, v - 1);
      if Used(a, v - 1) && |Route(a, v - 1)| > 2
      then prev + [RecordFor(copy, a, D, vehicles, demands, names, v - 1)]
      else prev
  }

  /** `solve_cvrp_without_restrictions`: None when the solver found no
      solution, otherwise the decoded list. */
  function Solve(copy: Copy, answer: Option<Assignment>, D: DistanceTable.Matrix, vehicles: seq<Vehicle>, demands: seq<int>, names: seq<string>): (r: Option<seq<RouteRecord>>)
    requires answer.Some? ==> Consistent(answer.value, D, vehicles, demands, names)
    ensures r.None? <==> answer.None?
    ensures r.Some? ==> |r.value| <= |vehicles|
  {
    match answer
    case None => None
    case Some(a) => Some(DecodeUpTo(copy, a, D, vehicles, demands, names, |vehicles|))
  }

  // ---------------------------------------------------------------------
  // What the decoded routes satisfy
  // ---------------------------------------------------------------------

  /** The last node of a chain is the node of an end index, hence the depot. */
  lemma {:induction false} PathEndsAtDepot(a: Assignment, i: nat, fuel: nat)
    requires forall e :: e in a.ends ==> e in a.node && a.node[e] == 0
    requires NodePath(a, i, fuel).Some?
    ensures NodePath(a, i, fuel).value[|NodePath(a, i, fuel).value| - 1] == 0
    decreases fuel
  {
    if i !in a.ends {
      PathEndsAtDepot(a, a.next[i], fuel - 1);
    }
  }

  /** A used vehicle's path starts and ends at depot 0 and has at least one
      stop in between, so the `len(path) > 2` test never drops a route. */
  lemma UsedRouteShape(a: Assignment, n: nat, m: nat, v: nat)
    requires WellFormed(a, n, m) && v < m && Used(a, v)
    ensures |Route(a, v)| > 2
    ensures Route(a, v)[0] == 0 && Route(a, v)[|Route(a, v)| - 1] == 0
    ensures InRange(Route(a, v), n)
  {
    var s := a.starts[v];
    var fuel := |a.next|;
    assert NodePath(a, s, fuel).value == [a.node[s]] + NodePath(a, a.next[s], fuel - 1).value;
    var t := a.next[s];
    assert NodePath(a, t, fuel - 1).value == [a.node[t]] + NodePath(a, a.next[t], fuel - 2).value;
    PathEndsAtDepot(a, s, fuel);
  }

  /** The indices of the used vehicles among 0..v-1, in increasing order. */
  function UsedVehicles(a: Assignment, v: nat): (us: seq<nat>)
    ensures |us| <= v
    ensures forall k :: 0 <= k < |us| ==> us[k] < v
  {
    if v == 0 then []
    else UsedVehicles(a, v - 1) + (if Used(a, v - 1) then [v - 1] else [])
  }

  /** The list is strictly increasing and holds exactly the used vehicles
      below `v`. */
  lemma {:induction false} UsedVehiclesExactly(a: Assignment, v: nat)
    ensures forall k, l :: 0 <= k < l < |UsedVehicles(a, v)| ==> UsedVehicles(a, v)[k] < UsedVehicles(a, v)[l]
    ensures forall u: nat :: u in UsedVehicles(a, v) <==> u < v && Used(a, u)
  {
    if v > 0 {
      UsedVehiclesExactly(a, v - 1);
    }
  }

  /** The records of the vehicles `us`, in that order. */
  function RecordsOf(copy: Copy, a: Assignment, D: DistanceTable.Matrix, vehicles: seq<Vehicle>, demands: seq<int>, names: seq<string>, us: seq<nat>): (rs: seq<RouteRecord>)
    requires Consistent(a, D, vehicles, demands, names)
    requires forall k :: 0 <= k < |us| ==> us[k] < |vehicles|
  {
    seq(|us|, k requires 0 <= k < |us| => RecordFor(copy, a, D, vehicles, demands, names, us[k]))
  }

  /** Appending a vehicle appends its record. */
  lemma RecordsOfSnoc(copy: Copy, a: Assignment, D: DistanceTable.Matrix, vehicles: seq<Vehicle>, demands: seq<int>, names: seq<string>, us: seq<nat>, u: nat)
    requires Consistent(a, D, vehicles, demands, names)
    requires (forall k :: 0 <= k < |us| ==> us[k] < |vehicles|) && u < |vehicles|
    ensures RecordsOf(copy, a, D, vehicles, demands, names, us + [u]) ==
      RecordsOf(copy, a, D, vehicles, demands, names, us) + [RecordFor(copy, a, D, vehicles, demands, names, u)]
  {
    var before := RecordsOf(copy, a, D, vehicles, demands, names, us);
    var after := RecordsOf(copy, a, D, vehicles, demands, names, us + [u]);
    forall k | 0 <= k < |us| + 1
      ensures after[k] == (before + [RecordFor(copy, a, D, vehicles, demands, names, u)])[k]
    {
      if k < |us| {
        assert (us + [u])[k] == us[k];
      }
    }
  }

  /** The decode loop over vehicles 0..v-1 emits the records of the used
      vehicles among them, in vehicle order. */
  lemma {:induction false} DecodeIsRecordsOfUsed(copy: Copy, a: Assignment, D: DistanceTable.Matrix, vehicles: seq<Vehicle>, demands: seq<int>, names: seq<string>, v: nat)
    requires Consistent(a, D, vehicles, demands, names) && v <= |vehicles|
    ensures DecodeUpTo(copy, a, D, vehicles, demands, names, v) == RecordsOf(copy, a, D, vehicles, demands, names, UsedVehicles(a, v))
  {
    if v > 0 {
      DecodeIsRecordsOfUsed(copy, a, D, vehicles, demands, names, v - 1);
      DecodeStep(copy, a, D, vehicles, demands, names, v - 1);
    }
  }

  /** One iteration of the decode loop keeps the list equal to the records
      of the used vehicles seen so far. */
  lemma DecodeStep(copy: Copy, a: Assignment, D: DistanceTable.Matrix, vehicles: seq<Vehicle>, demands: seq<int>, names: seq<string>, v: nat)
    requires Consistent(a, D, vehicles, demands, names) && v < |vehicles|
    requires DecodeUpTo(copy, a, D, vehicles, demands, names, v) == RecordsOf(copy, a, D, vehicles, demands, names, UsedVehicles(a, v))
    ensures DecodeUpTo(copy, a, D, vehicles, demands, names, v + 1) == RecordsOf(copy, a, D, vehicles, demands, names, UsedVehicles(a, v + 1))
  {
    if Used(a, v) {
      UsedRouteShape(a, |names|, |vehicles|, v);
      RecordsOfSnoc(copy, a, D, vehicles, demands, names, UsedVehicles(a, v), v);
    }
  }

  /** With no vehicle used, the decode loop emits nothing. */
  lemma {:induction false} NoneUsedNoneDecoded(copy: Copy, a: Assignment, D: DistanceTable.Matrix, vehicles: seq<Vehicle>, demands: seq<int>, names: seq<string>, v: nat)
    requires Consistent(a, D, vehicles, demands, names) && v <= |vehicles|
    requires forall u :: 0 <= u < v ==> !Used(a, u)
    ensures DecodeUpTo(copy, a, D, vehicles, demands, names, v) == []
  {
    if v > 0 {
      NoneUsedNoneDecoded(copy, a, D, vehicles, demands, names, v - 1);
    }
  }

  /** With some vehicle used, the decode loop emits at least one record: the
      `len(path) > 2` test never drops a used vehicle's route. */
  lemma SomeUsedSomeDecoded(copy: Copy, a: Assignment, D: DistanceTable.Matrix, vehicles: seq<Vehicle>, demands: seq<int>, names: seq<string>, u: nat)
    requires Consistent(a, D, vehicles, demands, names) && u < |vehicles| && Used(a, u)
    ensures DecodeUpTo(copy, a, D, vehicles, demands, names, |vehicles|) != []
  {
    DecodeIsUsedVehicles(copy, a, D, vehicles, demands, names, |vehicles|);
    UsedVehiclesExactly(a, |vehicles|);
    assert u in UsedVehicles(a, |vehicles|);
  }

  /** The decoded list holds exactly one record per used vehicle, in vehicle
      order: the k-th record is that of the k-th used vehicle. */
  lemma DecodeIsUsedVehicles(copy: Copy, a: Assignment, D: DistanceTable.Matrix, vehicles: seq<Vehicle>, demands: seq<int>, names: seq<string>, v: nat)
    requires Consistent(a, D, vehicles, demands, names) && v <= |vehicles|
    ensures |DecodeUpTo(copy, a, D, vehicles, demands, names, v)| == |UsedVehicles(a, v)|
    ensures forall k :: 0 <= k < |UsedVehicles(a, v)| ==>
      UsedVehicles(a, v)[k] < |vehicles| &&
      DecodeUpTo(copy, a, D, vehicles, demands, names, v)[k] == RecordFor(copy, a, D, vehicles, demands, names, UsedVehicles(a, v)[k])
  {
    DecodeIsRecordsOfUsed(copy, a, D, vehicles, demands, names, v);
  }

  /** What every decoded record satisfies: its indices run from depot 0
      through at least one stop back to depot 0 over location indices, its
      load is the non-depot demand and its distance the leg sum of that
      path, it has no geometry yet, and it has rates only in the copy that
      prices routes. */
  ghost predicate DecodedShape(copy: Copy, r: RouteRecord, D: DistanceTable.Matrix, demands: seq<int>, names: seq<string>)
    requires |demands| == |names| && DistanceTable.IsSquare(D, |names|)
  {
    && |r.indices| > 2 && r.indices[0] == 0 && r.indices[|r.indices| - 1] == 0
    && InRange(r.indices, |names|)
    && r.load == Load(demands, r.indices)
    && r.distanceMeters == PathDistance(D, r.indices)
    && r.geometry.None?
    && (r.rates.Some? <==> copy == MajorProject)
  }

  /** The record of a used vehicle: its route's shape, and the vehicle's id,
      type (passed through; the encoded request always has the key, so the
      "N/A" default is never taken), capacity and rates. */
  lemma RecordForUsed(copy: Copy, a: Assignment, D: DistanceTable.Matrix, vehicles: seq<Vehicle>, demands: seq<int>, names: seq<string>, u: nat)
    requires Consistent(a, D, vehicles, demands, names) && u < |vehicles| && Used(a, u)
    ensures DecodedShape(copy, RecordFor(copy, a, D, vehicles, demands, names, u), D, demands, names)
    ensures RecordFor(copy, a, D, vehicles, demands, names, u).indices == Route(a, u)
    ensures RecordFor(copy, a, D, vehicles, demands, names, u).capacity == vehicles[u].capacity
    ensures RecordFor(copy, a, D, vehicles, demands, names, u).vehicleId == vehicles[u].id
    ensures RecordFor(copy, a, D, vehicles, demands, names, u).vehicleType == vehicles[u].vehicleType
    ensures RecordFor(copy, a, D, vehicles, demands, names, u).stopNames == Pick(names, Route(a, u))
    ensures copy == MajorProject ==> RecordFor(copy, a, D, vehicles, demands, names, u).rates == Some(CostRates.SelectRates(vehicles[u]))
  {
    UsedRouteShape(a, |names|, |vehicles|, u);
  }

  /** Every decoded record has the shape of a used vehicle's route. */
  lemma DecodedRecords(copy: Copy, a: Assignment, D: DistanceTable.Matrix, vehicles: seq<Vehicle>, demands: seq<int>, names: seq<string>)
    requires Consistent(a, D, vehicles, demands, names)
    ensures forall k :: 0 <= k < |DecodeUpTo(copy, a, D, vehicles, demands, names, |vehicles|)| ==>
      DecodedShape(copy, DecodeUpTo(copy, a, D, vehicles, demands, names, |vehicles|)[k], D, demands, names)
  {
    var rs := DecodeUpTo(copy, a, D, vehicles, demands, names, |vehicles|);
    var us := UsedVehicles(a, |vehicles|);
    DecodeIsUsedVehicles(copy, a, D, vehicles, demands, names, |vehicles|);
    UsedVehiclesExactly(a, |vehicles|);
    forall k | 0 <= k < |rs|
      ensures DecodedShape(copy, rs[k], D, demands, names)
    {
      assert us[k] in us;
      RecordForUsed(copy, a, D, vehicles, demands, names, us[k]);
    }
  }

  /** With a zero depot demand, the non-depot load equals the plain sum of
      demands along the path. */
  lemma {:induction false} LoadIsCumul(demands: seq<int>, path: seq<nat>)
    requires InRange(path, |demands|) && |demands| > 0 && demands[0] == 0
    ensures Load(demands, path) == Cumul(demands, path)
  {
    if path != [] {
      LoadIsCumul(demands, path[..|path| - 1]);
    }
  }

  /** The routing library's Capacity dimension, as an assumption about its
      answer: along every vehicle's chain the cumulative demand at each index
      (the demands of the nodes before it) lies between 0 and the vehicle's
      capacity. */
  ghost predicate CapacityHonoured(a: Assignment, vehicles: seq<Vehicle>, demands: seq<int>)
    requires WellFormed(a, |demands|, |vehicles|)
  {
    forall v :: 0 <= v < |vehicles| ==>
      forall k :: 0 <= k < |Route(a, v)| ==>
        0 <= Cumul(demands, Route(a, v)[..k]) <= vehicles[v].capacity
  }

  /** A used vehicle honouring the Capacity dimension carries no more than
      its capacity: the load is the cumulative demand at its end index. */
  lemma {:induction false} UsedLoadWithinCapacity(a: Assignment, vehicles: seq<Vehicle>, demands: seq<int>, u: nat)
    requires WellFormed(a, |demands|, |vehicles|) && u < |vehicles| && Used(a, u)
    requires |demands| > 0 && demands[0] == 0
    requires CapacityHonoured(a, vehicles, demands)
    ensures Load(demands, Route(a, u)) <= vehicles[u].capacity
  {
    UsedRouteShape(a, |demands|, |vehicles|, u);
    var p := Route(a, u);
    var q := p[..|p| - 1];
    assert p == q + [0];
    assert p[..|p| - 1] == q;
    LoadIsCumul(demands, q);
    assert Load(demands, p) == Load(demands, q);
    assert 0 <= Cumul(demands, p[..|p| - 1]) <= vehicles[u].capacity;
  }

  /** When the answer honours the Capacity dimension and the depot demand is
      0, every decoded route carries no more than its vehicle's capacity. */
  lemma LoadWithinCapacity(copy: Copy, a: Assignment, D: DistanceTable.Matrix, vehicles: seq<Vehicle>, demands: seq<int>, names: seq<string>)
    requires Consistent(a, D, vehicles, demands, names)
    requires |demands| > 0 && demands[0] == 0
    requires CapacityHonoured(a, vehicles, demands)
    ensures forall k :: 0 <= k < |DecodeUpTo(copy, a, D, vehicles, demands, names, |vehicles|)| ==>
      DecodeUpTo(copy, a, D, vehicles, demands, names, |vehicles|)[k].load <=
      DecodeUpTo(copy, a, D, vehicles, demands, names, |vehicles|)[k].capacity
  {
    var rs := DecodeUpTo(copy, a, D, vehicles, demands, names, |vehicles|);
    var us := UsedVehicles(a, |vehicles|);
    DecodeIsUsedVehicles(copy, a, D, vehicles, demands, names, |vehicles|);
    UsedVehiclesExactly(a, |vehicles|);
    forall k | 0 <= k < |rs|
      ensures rs[k].load <= rs[k].capacity
    {
      assert us[k] in us;
      RecordForUsed(copy, a, D, vehicles, demands, names, us[k]);
      UsedLoadWithinCapacity(a, vehicles, demands, us[k]);
    }
  }

  // ---------------------------------------------------------------------
  // The decode loop
  // ---------------------------------------------------------------------

  /** A chain that has not reached an end continues at the successor. */
  lemma NodePathStep(a: Assignment, i: nat, fuel: nat)
    requires NodePath(a, i, fuel).Some? && i !in a.ends
    ensures fuel > 0 && i in a.next && i in a.node
    ensures NodePath(a, a.next[i], fuel - 1).Some?
    ensures NodePath(a, i, fuel).value == [a.node[i]] + NodePath(a, a.next[i], fuel - 1).value
  {
  }

  /** Appending a node adds its demand unless it is the depot. */
  lemma LoadSnoc(demands: seq<int>, path: seq<nat>, x: nat)
    requires InRange(path, |demands|) && x < |demands|
    ensures InRange(path + [x], |demands|)
    ensures Load(demands, path + [x]) == Load(demands, path) + (if x != 0 then demands[x] else 0)
  {
    assert (path + [x])[..|path|] == path;
  }

  /** The `while not routing.IsEnd(index)` walk of one used vehicle: append
      each visited node, add the demand of each non-depot node, and finish
      with the end index's node. */
  method WalkRoute(a: Assignment, n: nat, m: nat, v: nat, demands: seq<int>) returns (path: seq<nat>, load: int)
    requires WellFormed(a, n, m) && v < m && |demands| == n
    ensures path == Route(a, v)
    ensures InRange(path, n) && load == Load(demands, path)
  {
    ghost var route := Route(a, v);
    var index := a.starts[v];
    path := [];
    load := 0;
    ghost var fuel: nat := |a.next|;
    while index !in a.ends
      invariant NodePath(a, index, fuel).Some?
      invariant route == path + NodePath(a, index, fuel).value
      invariant InRange(path, n) && load == Load(demands, path)
      decreases fuel
    {
      NodePathStep(a, index, fuel);
      var node := a.node[index];
      assert node in a.node.Values;
      LoadSnoc(demands, path, node);
      ghost var rest := NodePath(a, a.next[index], fuel - 1).value;
      assert route == (path + [node]) + rest;
      path := path + [node];
      if node != 0 {
        load := load + demands[node];
      }
      index := a.next[index];
      fuel := fuel - 1;
    }
    assert a.node[index] in a.node.Values;
    LoadSnoc(demands, path, a.node[index]);
    path := path + [a.node[index]];
  }

  /** The `for i in range(len(path) - 1)` loop: add the table entry of each
      pair of consecutive nodes. */
  method RouteDistance(D: DistanceTable.Matrix, n: nat, path: seq<nat>) returns (dist: nat)
    requires DistanceTable.IsSquare(D, n) && InRange(path, n) && |path| >= 1
    ensures dist == PathDistance(D, path)
  {
    dist := 0;
    for i := 0 to |path| - 1
      invariant dist == PathDistance(D, path[..i + 1])
    {
      assert path[..i + 2][..i + 1] == path[..i + 1];
      dist := dist + D[path[i]][path[i + 1]];
    }
    assert path[..|path|] == path;
  }

  /** One step of the decode loop for a used vehicle, in terms of the path,
      load and distance the loop computes. */
  lemma DecodeUsed(copy: Copy, a: Assignment, D: DistanceTable.Matrix, vehicles: seq<Vehicle>, demands: seq<int>, names: seq<string>, v: nat,
                   path: seq<nat>, load: int, dist: nat)
    requires Consistent(a, D, vehicles, demands, names) && v < |vehicles| && Used(a, v)
    requires path == Route(a, v) && InRange(path, |names|)
    requires load == Load(demands, path) && dist == PathDistance(D, path)
    ensures MakeRecord(copy, vehicles[v], path, D, demands, names).load == load
    ensures MakeRecord(copy, vehicles[v], path, D, demands, names).distanceMeters == dist
    ensures DecodeUpTo(copy, a, D, vehicles, demands, names, v + 1) ==
      DecodeUpTo(copy, a, D, vehicles, demands, names, v) +
      if |path| > 2 then [MakeRecord(copy, vehicles[v], path, D, demands, names)] else []
  {
  }

  /** The decode loop of `solve_cvrp_without_restrictions`, after the solver
      call: skip unused vehicles, walk each used vehicle's chain, sum its leg
      distances and append a record when the path has more than two nodes. */
  method SolveCvrpWithoutRestrictions(copy: Copy, answer: Option<Assignment>, D: DistanceTable.Matrix, vehicles: seq<Vehicle>, demands: seq<int>, names: seq<string>)
    returns (r: Option<seq<RouteRecord>>)
    requires answer.Some? ==> Consistent(answer.value, D, vehicles, demands, names)
    ensures r == Solve(copy, answer, D, vehicles, demands, names)
  {
    if answer.None? {
      return None;
    }
    var a := answer.value;
    var results: seq<RouteRecord> := [];
    for v := 0 to |vehicles|
      invariant results == DecodeUpTo(copy, a, D, vehicles, demands, names, v)
    {
      var index := a.starts[v];
      if a.next[index] in a.ends {
        continue;
      }
      var path, load := WalkRoute(a, |names|, |vehicles|, v, demands);
      var dist := RouteDistance(D, |names|, path);
      DecodeUsed(copy, a, D, vehicles, demands, names, v, path, load, dist);
      if |path| > 2 {
        var rates := if copy == MajorProject then Some(CostRates.SelectRates(vehicles[v])) else None;
        var record := RouteRecord(
          vehicles[v].id, vehicles[v].vehicleType, vehicles[v].capacity,
          Pick(names, path), path, load, dist, rates, None);
        results := results + [record];
      }
    }
    return Some(results);
  }
}
