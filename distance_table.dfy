/** The distance table built by `get_distance_matrix`: a dictionary of
    dictionaries keyed by location index, zero on the diagonal and the
    integer great-circle distance between two locations elsewhere. The
    great-circle formula is floating point; it enters as the parameter
    `metric`. */
module DistanceTable {

  import opened Domain

  type Matrix = map<nat, map<nat, nat>>

  /** The point-to-point distance in whole meters (the haversine formula). */
  type Metric = (LatLon, LatLon) -> nat

  /** `D` has exactly the keys 0..n-1, and so has each of its rows. */
  ghost predicate IsSquare(D: Matrix, n: nat)
  {
    && (forall i: nat :: i in D <==> i < n)
    && (forall i: nat :: i in D ==> forall j: nat :: j in D[i] <==> j < n)
  }

  /** Entry (i, j) is 0 when i == j and the metric of the two points otherwise. */
  predicate HasEntries(D: Matrix, points: seq<LatLon>, metric: Metric)
    requires IsSquare(D, |points|)
  {
    forall i: nat, j: nat {:trigger D[i][j]} :: i < |points| && j < |points| ==>
      D[i][j] == if i == j then 0 else metric(points[i], points[j])
  }

  /** The table as a value: what the request handler is stated in terms of. */
  function Table(points: seq<LatLon>, metric: Metric): (D: Matrix)
    ensures IsSquare(D, |points|) && HasEntries(D, points, metric)
  {
    map i: nat | i < |points| ::
      map j: nat | j < |points| :: if i == j then 0 else metric(points[i], points[j])
  }

  /** Shape and entries determine the table: two tables with the same keys
      and entries are the same dictionary. */
  lemma {:induction false} TableUnique(D: Matrix, E: Matrix, points: seq<LatLon>, metric: Metric)
    requires IsSquare(D, |points|) && HasEntries(D, points, metric)
    requires IsSquare(E, |points|) && HasEntries(E, points, metric)
    ensures D == E
  {
    assert D.Keys == E.Keys;
    forall i | i in D
      ensures D[i] == E[i]
    {
      assert D[i].Keys == E[i].Keys;
      forall j | j in D[i]
        ensures D[i][j] == E[i][j]
      {
        assert i < |points| && j < |points|;
        assert D[i][j] == if i == j then 0 else metric(points[i], points[j]);
        assert E[i][j] == if i == j then 0 else metric(points[i], points[j]);
      }
    }
  }

  /** The table is symmetric whenever the point metric is. */
  lemma {:induction false} TableSymmetric(points: seq<LatLon>, metric: Metric)
    requires forall p, q :: metric(p, q) == metric(q, p)
    ensures forall i: nat, j: nat :: i < |points| && j < |points| ==>
      Table(points, metric)[i][j] == Table(points, metric)[j][i]
  {
    var D := Table(points, metric);
    forall i: nat, j: nat | i < |points| && j < |points|
      ensures D[i][j] == D[j][i]
    {
      if i != j {
        assert D[i][j] == metric(points[i], points[j]);
        assert D[j][i] == metric(points[j], points[i]);
      }
    }
  }

  /** The nested loops of `get_distance_matrix`: row i is created empty and
      filled column by column. */
  method GetDistanceMatrix(points: seq<LatLon>, metric: Metric) returns (D: Matrix)
    ensures IsSquare(D, |points|) && HasEntries(D, points, metric)
    ensures D == Table(points, metric)
  {
    var n := |points|;
    D := map[];
    for i: nat := 0 to n
      invariant forall k: nat :: k in D <==> k < i
      invariant forall k: nat :: k in D ==> forall j: nat :: j in D[k] <==> j < n
      invariant forall k: nat, j: nat {:trigger D[k][j]} :: k < i && j < n ==>
        D[k][j] == if k == j then 0 else metric(points[k], points[j])
    {
      D := D[i := map[]];
      for j: nat := 0 to n
        invariant forall k: nat :: k in D <==> k <= i
        invariant forall k: nat :: k in D && k < i ==> forall j': nat :: j' in D[k] <==> j' < n
        invariant forall j': nat :: j' in D[i] <==> j' < j
        invariant forall k: nat, j': nat {:trigger D[k][j']} :: k < i && j' < n ==>
          D[k][j'] == if k == j' then 0 else metric(points[k], points[j'])
        invariant forall j': nat {:trigger D[i][j']} :: j' < j ==>
          D[i][j'] == if i == j' then 0 else metric(points[i], points[j'])
      {
        var row: map<nat, nat> := D[i];
        if i == j {
          row := row[j := 0];
        } else {
          row := row[j := metric(points[i], points[j])];
        }
        D := D[i := row];
      }
    }
    TableUnique(D, Table(points, metric), points, metric);
  }
}
