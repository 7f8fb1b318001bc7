/** Values shared by the route pipeline: points, request locations, vehicles
    and the per-route record the solver emits and the geometry step enriches. */
module Domain {

  import opened Wrappers

  /** A point as (latitude, longitude). Coordinates are carried and reordered,
      never computed on, so plain reals stand for the floats. */
  datatype LatLon = LatLon(lat: real, lon: real)

  /** A request location; index 0 of the location list is the depot. */
  datatype Location = Location(name: string, point: LatLon)

  /** A vehicle as the solver sees it after JSON encoding: every optional
      field is present, possibly null. */
  datatype Vehicle = Vehicle(
    id: string,
    capacity: int,
    fuelCostPerKm: Option<real>,
    driverCostPerKm: Option<real>,
    vehicleType: Option<string>)

  /** The two copies of the service: `Backend/` (compact, no cost fields, bare
      `except:` in the geometry step) and `Major_Project_CSE-main/backend/`. */
  datatype Copy = Backend | MajorProject

  /** Python exceptions, as far as the handlers tell them apart: an
      openrouteservice `ApiError`, any other `Exception`, and a
      `BaseException` that is not an `Exception` (KeyboardInterrupt, SystemExit). */
  datatype Exc = ApiError | OtherException | BaseOnly

  /** Per-kilometre fuel and driver rates chosen for a vehicle. */
  datatype Rates = Rates(fuel: real, driver: real)

  /** One emitted route: the dictionary built by the solver's decode loop.
      `distanceMeters` is the integer sum from which "Distance (km)" is
      rounded; `rates` is present only in the copy that prices routes;
      `geometry` is the "Route Geometry" key, absent until enrichment. */
  datatype RouteRecord = RouteRecord(
    vehicleId: string,
    vehicleType: Option<string>,
    capacity: int,
    stopNames: seq<string>,
    indices: seq<nat>,
    load: int,
    distanceMeters: nat,
    rates: Option<Rates>,
    geometry: Option<seq<LatLon>>)

  /** Every index of `path` addresses one of `n` locations. */
  predicate InRange(path: seq<nat>, n: nat)
  {
    forall k :: 0 <= k < |path| ==> path[k] < n
  }

  /** The entries of `xs` at the positions `idxs`, in that order: the stop
      names of a route, and the stop coordinates of its straight-line
      geometry. */
  function Pick<T>(xs: seq<T>, idxs: seq<nat>): (r: seq<T>)
    requires InRange(idxs, |xs|)
    ensures |r| == |idxs| && forall k :: 0 <= k < |idxs| ==> r[k] == xs[idxs[k]]
  {
    seq(|idxs|, k requires 0 <= k < |idxs| => xs[idxs[k]])
  }
}
