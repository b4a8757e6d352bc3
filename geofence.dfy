/** The farm boundary of farmsense-backend/src/geofence/geofence.js: a live
    store holding the boundary's name and polygon, and the ray-casting
    containment test exactly as the server codes it.

    Vertices are stored as [latitude, longitude]. The server's loop, however,
    names a vertex's first component `yi` and compares it with the query's
    LONGITUDE, and compares the query's latitude with the interpolated second
    component. The test is therefore the textbook crossing test applied to
    the query point with its coordinates swapped (AsWrittenIsSwappedContains),
    and for the default boundary every realistic farm position is reported
    outside (DefaultFenceRejectsFarmPositions). */
module Geofence {

  import Json

  /** One polygon vertex, written [latitude, longitude]. */
  datatype Vertex = Vertex(lat: real, lng: real)

  /** What `getGeofence` returns: a copy of the current name and polygon. */
  datatype View = View(name: Json.Value, polygon: seq<Vertex>)

  const DEFAULT_NAME: string := "Main Farm"

  const DEFAULT_POLYGON: seq<Vertex> := [
    Vertex(36.8200, 10.1800),
    Vertex(36.8200, 10.1870),
    Vertex(36.8150, 10.1870),
    Vertex(36.8150, 10.1800)
  ]

  /** The vertex the loop pairs with vertex i: its predecessor, with vertex 0
      paired with the last one, so the polygon is walked as a closed loop. */
  function Pred(i: nat, n: nat): (j: nat)
    requires i < n
    ensures j < n
  {
    if i == 0 then n - 1 else i - 1
  }

  /** The loop visits each of the n closing edges exactly once: every vertex is
      the predecessor of exactly one vertex. */
  lemma PredIsBijection(n: nat)
    ensures forall i, i' :: 0 <= i < n && 0 <= i' < n && Pred(i, n) == Pred(i', n) ==> i == i'
    ensures forall k :: 0 <= k < n ==> Succ(k, n) < n && Pred(Succ(k, n), n) == k
  {
  }

  /** The vertex whose predecessor is k. */
  function Succ(k: nat, n: nat): nat
  {
    if k + 1 == n then 0 else k + 1
  }

  /** The edge test as the server writes it, for vertex a = polygon[i] and
      b = polygon[j]. The first conjunct short-circuits the second, so the
      division is only evaluated when a.lat != b.lat. */
  predicate CrossesAsWritten(lat: real, lng: real, a: Vertex, b: Vertex)
  {
    (a.lat > lng) != (b.lat > lng) &&
    lat < (b.lng - a.lng) * (lng - a.lat) / (b.lat - a.lat) + a.lng
  }

  /** How many of the first k edges (i, Pred(i)) the server's test counts. */
  function CrossingsAsWritten(lat: real, lng: real, polygon: seq<Vertex>, k: nat): (c: nat)
    requires k <= |polygon|
    ensures c <= k
  {
    if k == 0 then 0
    else
      CrossingsAsWritten(lat, lng, polygon, k - 1) +
      (if CrossesAsWritten(lat, lng, polygon[k - 1], polygon[Pred(k - 1, |polygon|)]) then 1 else 0)
  }

  /** `isInsideGeofence(lat, lng, polygon)`: the parity of the counted edges. */
  predicate InsideAsWritten(lat: real, lng: real, polygon: seq<Vertex>)
  {
    CrossingsAsWritten(lat, lng, polygon, |polygon|) % 2 == 1
  }

  /** The loop's inline edge test on the vertices [yi, xi] and [yj, xj] it
      reads. The straddle test short-circuits the division, so the edge only
      counts when its two first components differ; and the test is the
      textbook crossing test on the query point with its coordinates swapped. */
  method Intersect(lat: real, lng: real, a: Vertex, b: Vertex) returns (intersect: bool)
    ensures intersect ==> a.lat != b.lat
    ensures intersect <==> Crosses(Vertex(lng, lat), a, b)
    ensures intersect <==> CrossesAsWritten(lat, lng, a, b)
  {
    var yi, xi := a.lat, a.lng;
    var yj, xj := b.lat, b.lng;
    intersect := (yi > lng) != (yj > lng) && lat < (xj - xi) * (lng - yi) / (yj - yi) + xi;
  }

  /** Counting one more crossing flips the parity. */
  lemma Flip(c: nat)
    ensures (c + 1) % 2 == 1 <==> c % 2 != 1
  {
  }

  /** The crossing loop: `inside` starts false and flips once for every edge
      (i, j) that passes the test, j trailing i around the polygon. */
  method IsInsideGeofence(lat: real, lng: real, polygon: seq<Vertex>) returns (inside: bool)
    ensures inside <==> InsideAsWritten(lat, lng, polygon)
    ensures polygon == [] ==> !inside
  {
    inside := false;
    var n := |polygon|;
    var i, j := 0, n - 1;
    while i < n
      invariant 0 <= i <= n
      invariant j == if i == 0 then n - 1 else i - 1
      invariant inside <==> CrossingsAsWritten(lat, lng, polygon, i) % 2 == 1
    {
      var intersect := Intersect(lat, lng, polygon[i], polygon[j]);
      assert polygon[j] == polygon[Pred(i, n)];
      Flip(CrossingsAsWritten(lat, lng, polygon, i));
      if intersect {
        inside := !inside;
      }
      j, i := i, i + 1;
    }
  }

  // ---------------------------------------------------------------------------
  // Reference definition: the textbook crossing test on [lat, lng] vertices
  // ---------------------------------------------------------------------------

  /** The edge straddles the query's latitude, and the query's longitude lies
      west of the point where the edge meets that latitude. */
  predicate Crosses(p: Vertex, a: Vertex, b: Vertex)
  {
    (a.lat > p.lat) != (b.lat > p.lat) &&
    p.lng < (b.lng - a.lng) * (p.lat - a.lat) / (b.lat - a.lat) + a.lng
  }

  function Crossings(p: Vertex, polygon: seq<Vertex>, k: nat): (c: nat)
    requires k <= |polygon|
    ensures c <= k
  {
    if k == 0 then 0
    else
      Crossings(p, polygon, k - 1) +
      (if Crosses(p, polygon[k - 1], polygon[Pred(k - 1, |polygon|)]) then 1 else 0)
  }

  /** Containment as the boundary's [latitude, longitude] layout intends it. */
  predicate Contains(p: Vertex, polygon: seq<Vertex>)
  {
    Crossings(p, polygon, |polygon|) % 2 == 1
  }

  lemma EdgeSwapped(lat: real, lng: real, a: Vertex, b: Vertex)
    ensures CrossesAsWritten(lat, lng, a, b) <==> Crosses(Vertex(lng, lat), a, b)
  {
  }

  lemma {:induction false} CrossingsSwapped(lat: real, lng: real, polygon: seq<Vertex>, k: nat)
    requires k <= |polygon|
    ensures CrossingsAsWritten(lat, lng, polygon, k) == Crossings(Vertex(lng, lat), polygon, k)
  {
    if k > 0 {
      CrossingsSwapped(lat, lng, polygon, k - 1);
      EdgeSwapped(lat, lng, polygon[k - 1], polygon[Pred(k - 1, |polygon|)]);
    }
  }

  /** The server's answer for (lat, lng) is the intended answer for the point
      (lng, lat): the two coordinates of the query are used the wrong way round. */
  lemma AsWrittenIsSwappedContains(lat: real, lng: real, polygon: seq<Vertex>)
    ensures InsideAsWritten(lat, lng, polygon) <==> Contains(Vertex(lng, lat), polygon)
  {
    CrossingsSwapped(lat, lng, polygon, |polygon|);
  }

  /** An edge whose endpoints lie on the same side of a latitude never crosses
      it, so when every vertex lies strictly north of p (or none does), no edge
      is counted. */
  lemma {:induction false} NoStraddleNoCrossing(p: Vertex, polygon: seq<Vertex>, k: nat)
    requires k <= |polygon|
    requires (forall v <- polygon :: v.lat > p.lat) || (forall v <- polygon :: v.lat <= p.lat)
    ensures Crossings(p, polygon, k) == 0
  {
    if k > 0 {
      NoStraddleNoCrossing(p, polygon, k - 1);
      assert polygon[k - 1] in polygon && polygon[Pred(k - 1, |polygon|)] in polygon;
    }
  }

  /** Every vertex of the default boundary has latitude at least 36.815 */
  lemma DefaultLatitudes()
    ensures forall v <- DEFAULT_POLYGON :: 36.815 <= v.lat <= 36.82
  {
  }

  /** With the default boundary, the server reports every query whose
      longitude is below 36.815 degrees as outside, which covers every
      position near the farm (longitudes around 10.18). */
  lemma DefaultFenceRejectsFarmPositions(lat: real, lng: real)
    requires lng < 36.815
    ensures !InsideAsWritten(lat, lng, DEFAULT_POLYGON)
  {
    AsWrittenIsSwappedContains(lat, lng, DEFAULT_POLYGON);
    NoStraddleNoCrossing(Vertex(lng, lat), DEFAULT_POLYGON, |DEFAULT_POLYGON|);
  }

  /** The centre of the default boundary: reported outside by the server's
      test, although the intended test places it inside. */
  lemma DefaultCentre()
    ensures !InsideAsWritten(36.8175, 10.1835, DEFAULT_POLYGON)
    ensures Contains(Vertex(36.8175, 10.1835), DEFAULT_POLYGON)
  {
    DefaultFenceRejectsFarmPositions(36.8175, 10.1835);
    var p, P := Vertex(36.8175, 10.1835), DEFAULT_POLYGON;
    assert Crosses(p, P[0], P[3]) == false;
    assert !Crosses(p, P[1], P[0]);
    assert Crosses(p, P[2], P[1]);
    assert !Crosses(p, P[3], P[2]);
    assert Crossings(p, P, 4) == 1;
  }

  /** A point north of every vertex is outside under the intended test, e.g.
      (36.9, 10.1835) for the default boundary. */
  lemma NorthOfFenceOutside(p: Vertex, polygon: seq<Vertex>)
    requires forall v <- polygon :: v.lat <= p.lat
    ensures !Contains(p, polygon)
  {
    NoStraddleNoCrossing(p, polygon, |polygon|);
  }

  // ---------------------------------------------------------------------------
  // The live store
  // ---------------------------------------------------------------------------

  /** The module-level `_geofence` record. `updateGeofence` replaces it as a
      whole; readers always see either the old or the new boundary. */
  class Store {
    var name: Json.Value
    var polygon: seq<Vertex>

    constructor ()
      ensures name == Json.Str(DEFAULT_NAME) && polygon == DEFAULT_POLYGON
    {
      name := Json.Str(DEFAULT_NAME);
      polygon := DEFAULT_POLYGON;
    }

    /** `getGeofence()`: a copy of the current boundary. */
    function Get(): (g: View)
      reads this
      ensures g.name == name && g.polygon == polygon
    {
      View(name, polygon)
    }

    /** `updateGeofence(newPolygon, name)`: the polygon is replaced wholesale;
        the name is replaced only by a truthy value (`name || _geofence.name`).
        Nothing is validated here. */
    method Update(newPolygon: seq<Vertex>, newName: Json.Value)
      modifies this
      ensures Get() == View(if Json.Truthy(newName) then newName else old(name), newPolygon)
    {
      name := if Json.Truthy(newName) then newName else name;
      polygon := newPolygon;
    }

    /** `isInsideGeofence(lat, lng)` with the polygon argument omitted: the
        default reads the live store, so a call after Update uses the new polygon. */
    method IsInside(lat: real, lng: real) returns (inside: bool)
      ensures inside <==> InsideAsWritten(lat, lng, polygon)
    {
      inside := IsInsideGeofence(lat, lng, polygon);
    }
  }
}
