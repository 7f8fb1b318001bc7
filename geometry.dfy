/** `compute_route_geometries`: for each route of the result list, in place,
    ask the directions service for the road geometry through the route's
    stops and store it as "Route Geometry" in [lat, lon] order; a route with
    fewer than two stops gets an empty geometry, and a failed call the stop
    coordinates themselves.

    The service speaks GeoJSON, whose positions put longitude first (section
    3.1.1 of RFC 7946). It enters as an oracle `service(k, waypoints)`: the
    reply to the request made for the route at position k of the list. */
module Geometry {

  import opened Wrappers
  import opened Domain

  /** A GeoJSON position: longitude, latitude, possibly further members. */
  type Position = seq<real>

  /** What the call and the extraction of
      `response['features'][0]['geometry']['coordinates']` produce: the
      coordinate list, or None when the payload lacks one of those members
      (a KeyError or IndexError); or the exception the call raised. */
  datatype Reply = Answered(coordinates: Option<seq<Position>>) | Raised(kind: Exc)

  type Service = (nat, seq<Position>) -> Reply

  /** The waypoints sent for a route: each stop as (longitude, latitude). */
  function Waypoints(points: seq<LatLon>, idxs: seq<nat>): (w: seq<Position>)
    requires InRange(idxs, |points|)
    ensures |w| == |idxs|
    ensures forall k :: 0 <= k < |idxs| ==> w[k] == [points[idxs[k]].lon, points[idxs[k]].lat]
  {
    seq(|idxs|, k requires 0 <= k < |idxs| => [points[idxs[k]].lon, points[idxs[k]].lat])
  }

  /** `[[c[1], c[0]] for c in geometry]`: None when some position has fewer
      than two members (the IndexError the handler catches). */
  function SwapToLatLon(cs: seq<Position>): (r: Option<seq<LatLon>>)
    ensures r.Some? <==> forall k :: 0 <= k < |cs| ==> |cs[k]| >= 2
    ensures r.Some? ==> |r.value| == |cs|
    ensures r.Some? ==> forall k :: 0 <= k < |cs| ==> r.value[k] == LatLon(cs[k][1], cs[k][0])
  {
    if cs == [] then Some([])
    else if |cs[0]| < 2 then None
    else match SwapToLatLon(cs[1..])
      case None => None
      case Some(rest) => Some([LatLon(cs[0][1], cs[0][0])] + rest)
  }

  /** What the loop body does with one route: write a geometry, or let an
      exception escape. */
  datatype Step = Written(geometry: seq<LatLon>) | Escapes

  /** One iteration of the loop for the route at position `call`. Both
      copies fall back on any `Exception`; only the bare `except:` of the
      copy under `Backend/` also catches a `BaseException` that is not one.
      A route with fewer than two stops gets an empty geometry and no call. */
  function RouteGeometry(copy: Copy, points: seq<LatLon>, idxs: seq<nat>, call: nat, service: Service): (s: Step)
    requires InRange(idxs, |points|)
    ensures |idxs| < 2 ==> s == Written([])
    ensures s.Escapes? <==> copy == MajorProject && |idxs| >= 2 && service(call, Waypoints(points, idxs)) == Raised(BaseOnly)
  {
    if |idxs| < 2 then Written([])
    else match service(call, Waypoints(points, idxs))
      case Answered(Some(cs)) =>
        (match SwapToLatLon(cs)
         case Some(g) => Written(g)
         case None => Written(Pick(points, idxs)))
      case Answered(None) => Written(Pick(points, idxs))
      case Raised(kind) =>
        if copy == MajorProject && kind == BaseOnly then Escapes
        else Written(Pick(points, idxs))
  }

  /** Every route of the list addresses only known locations. */
  ghost predicate RoutesInRange(rs: seq<RouteRecord>, n: nat)
  {
    forall j :: 0 <= j < |rs| ==> InRange(rs[j].indices, n)
  }

  /** The position of the first route whose iteration lets an exception
      escape, looking from `from` on; |rs| when there is none. */
  function FirstEscape(copy: Copy, rs: seq<RouteRecord>, points: seq<LatLon>, service: Service, from: nat): (stop: nat)
    requires RoutesInRange(rs, |points|) && from <= |rs|
    ensures from <= stop <= |rs|
    ensures forall j :: from <= j < stop ==> RouteGeometry(copy, points, rs[j].indices, j, service).Written?
    ensures stop < |rs| ==> RouteGeometry(copy, points, rs[stop].indices, stop, service).Escapes?
    decreases |rs| - from
  {
    if from == |rs| then from
    else if RouteGeometry(copy, points, rs[from].indices, from, service).Escapes? then from
    else FirstEscape(copy, rs, points, service, from + 1)
  }

  /** The list after the loop: the routes before the first escape carry their
      geometry, the others are as they were. */
  function Enrich(copy: Copy, rs: seq<RouteRecord>, points: seq<LatLon>, service: Service): (out: seq<RouteRecord>)
    requires RoutesInRange(rs, |points|)
    ensures |out| == |rs|
    ensures forall j :: 0 <= j < |rs| ==> out[j].(geometry := rs[j].geometry) == rs[j]
  {
    var stop := FirstEscape(copy, rs, points, service, 0);
    seq(|rs|, j requires 0 <= j < |rs| =>
      if j < stop then rs[j].(geometry := Some(RouteGeometry(copy, points, rs[j].indices, j, service).geometry))
      else rs[j])
  }

  /** The first escape is determined by the iterations before it. */
  lemma {:induction false} FirstEscapeAt(copy: Copy, rs: seq<RouteRecord>, points: seq<LatLon>, service: Service, from: nat, stop: nat)
    requires RoutesInRange(rs, |points|) && from <= stop <= |rs|
    requires forall j :: from <= j < stop ==> RouteGeometry(copy, points, rs[j].indices, j, service).Written?
    requires stop < |rs| ==> RouteGeometry(copy, points, rs[stop].indices, stop, service).Escapes?
    ensures FirstEscape(copy, rs, points, service, from) == stop
    decreases stop - from
  {
    if from < stop {
      FirstEscapeAt(copy, rs, points, service, from + 1, stop);
    }
  }

  // ---------------------------------------------------------------------
  // The loop, in place
  // ---------------------------------------------------------------------

  /** `compute_route_geometries`: overwrite the "Route Geometry" of each route
      of the list, in order. Returns the position at which an exception
      escaped, or the list's length when the loop ran to the end. */
  method ComputeRouteGeometries(copy: Copy, points: seq<LatLon>, routes: array<RouteRecord>, service: Service) returns (stop: nat)
    requires RoutesInRange(routes[..], |points|)
    modifies routes
    ensures stop == FirstEscape(copy, old(routes[..]), points, service, 0)
    ensures routes[..] == Enrich(copy, old(routes[..]), points, service)
  {
    ghost var rs := routes[..];
    var k := 0;
    while k < routes.Length
      invariant 0 <= k <= routes.Length
      invariant forall j :: 0 <= j < k ==> RouteGeometry(copy, points, rs[j].indices, j, service).Written?
      invariant forall j :: 0 <= j < k ==>
        routes[j] == rs[j].(geometry := Some(RouteGeometry(copy, points, rs[j].indices, j, service).geometry))
      invariant forall j :: k <= j < routes.Length ==> routes[j] == rs[j]
    {
      var route := routes[k];
      var idxs := route.indices;
      if |idxs| < 2 {
        routes[k] := route.(geometry := Some([]));
        k := k + 1;
        continue;
      }
      var geometry: seq<LatLon>;
      var reply := service(k, Waypoints(points, idxs));
      match reply {
        case Answered(Some(cs)) =>
          var swapped := SwapToLatLon(cs);
          if swapped.Some? {
            geometry := swapped.value;
          } else {
            geometry := Pick(points, idxs);
          }
        case Answered(None) =>
          geometry := Pick(points, idxs);
        case Raised(kind) =>
          if copy == MajorProject && kind == BaseOnly {
            FirstEscapeAt(copy, rs, points, service, 0, k);
            return k;
          }
          geometry := Pick(points, idxs);
      }
      routes[k] := route.(geometry := Some(geometry));
      k := k + 1;
    }
    FirstEscapeAt(copy, rs, points, service, 0, k);
    return k;
  }

  // ---------------------------------------------------------------------
  // Properties of one iteration
  // ---------------------------------------------------------------------

  /** A well-formed answer is stored position by position with longitude and
      latitude swapped, whatever its length. */
  lemma AnswerSwapped(copy: Copy, points: seq<LatLon>, idxs: seq<nat>, call: nat, service: Service)
    requires InRange(idxs, |points|) && |idxs| >= 2
    requires service(call, Waypoints(points, idxs)).Answered?
    requires service(call, Waypoints(points, idxs)).coordinates.Some?
    requires forall k :: 0 <= k < |service(call, Waypoints(points, idxs)).coordinates.value| ==>
      |service(call, Waypoints(points, idxs)).coordinates.value[k]| >= 2
    ensures var cs := service(call, Waypoints(points, idxs)).coordinates.value;
      var step := RouteGeometry(copy, points, idxs, call, service);
      step.Written? && |step.geometry| == |cs| &&
      forall k :: 0 <= k < |cs| ==> step.geometry[k] == LatLon(cs[k][1], cs[k][0])
  {
  }

  /** Any failure short of a `BaseException` escaping (an exception raised by
      the call, a payload without coordinates, a position with fewer than two
      members) yields the straight line through the stops: as many points as
      stops, starting at the first and ending at the last. */
  lemma FailureFallsBack(copy: Copy, points: seq<LatLon>, idxs: seq<nat>, call: nat, service: Service)
    requires InRange(idxs, |points|) && |idxs| >= 2
    requires var reply := service(call, Waypoints(points, idxs));
      || (reply.Raised? && (copy == Backend || reply.kind != BaseOnly))
      || (reply.Answered? && reply.coordinates.None?)
      || (reply.Answered? && reply.coordinates.Some? && exists k :: 0 <= k < |reply.coordinates.value| && |reply.coordinates.value[k]| < 2)
    ensures var step := RouteGeometry(copy, points, idxs, call, service);
      && step == Written(Pick(points, idxs))
      && |step.geometry| == |idxs|
      && step.geometry[0] == points[idxs[0]]
      && step.geometry[|idxs| - 1] == points[idxs[|idxs| - 1]]
  {
  }

  /** The waypoints sent and the fallback agree: a reply that hands the
      waypoints back unchanged yields exactly the straight-line geometry. */
  lemma {:induction false} EchoIsStraightLine(points: seq<LatLon>, idxs: seq<nat>)
    requires InRange(idxs, |points|)
    ensures SwapToLatLon(Waypoints(points, idxs)) == Some(Pick(points, idxs))
  {
    var w := Waypoints(points, idxs);
    assert forall k :: 0 <= k < |w| ==> |w[k]| >= 2;
    var g := SwapToLatLon(w).value;
    assert |g| == |idxs|;
    forall k | 0 <= k < |idxs|
      ensures g[k] == Pick(points, idxs)[k]
    {
      assert w[k] == [points[idxs[k]].lon, points[idxs[k]].lat];
    }
    assert g == Pick(points, idxs);
  }

  /** The copy under `Backend/` never lets an exception out of the loop; the
      two copies write the same geometry except when the call raises a
      `BaseException` that is not an `Exception`. */
  lemma CopiesDiffer(points: seq<LatLon>, idxs: seq<nat>, call: nat, service: Service)
    requires InRange(idxs, |points|)
    ensures RouteGeometry(Backend, points, idxs, call, service).Written?
    ensures RouteGeometry(MajorProject, points, idxs, call, service) != RouteGeometry(Backend, points, idxs, call, service) <==>
      |idxs| >= 2 && service(call, Waypoints(points, idxs)) == Raised(BaseOnly)
  {
  }

  /** The copy under `Backend/` runs the loop to the end, and a loop run to
      the end writes a geometry on every route. */
  lemma EveryRouteEnriched(copy: Copy, rs: seq<RouteRecord>, points: seq<LatLon>, service: Service)
    requires RoutesInRange(rs, |points|)
    ensures copy == Backend ==> FirstEscape(copy, rs, points, service, 0) == |rs|
    ensures FirstEscape(copy, rs, points, service, 0) == |rs| ==>
      forall j :: 0 <= j < |rs| ==> Enrich(copy, rs, points, service)[j].geometry.Some?
  {
    if copy == Backend {
      forall j | 0 <= j < |rs|
        ensures RouteGeometry(copy, points, rs[j].indices, j, service).Written?
      {
        CopiesDiffer(points, rs[j].indices, j, service);
      }
      FirstEscapeAt(copy, rs, points, service, 0, |rs|);
    }
  }
}
