/** The boundary routes of farmsense-backend/src/routes/geofence.js: GET
    answers with the current boundary, POST validates a submitted polygon
    point by point and only then replaces the boundary in the store.

    The request body is given by the two fields the handler destructures,
    `polygon` and `name`; a field the body does not have is Json.Undefined. */
module GeofenceRoute {

  import opened Options
  import Json
  import Geofence

  const MIN_POINTS: nat := 3

  const BAD_POLYGON: string := "polygon must be an array of at least 3 [lat, lng] points"

  const BAD_POINT: string := "Each point must be [lat: number, lng: number]"

  /** `res.status(400).json({ success: false, message })` or
      `res.json({ success: true, geofence })`. */
  datatype Response = BadRequest(message: string) | Success(geofence: Geofence.View)

  /** The HTTP status the response is sent with. */
  function StatusCode(r: Response): (code: int)
    ensures code == 400 <==> r.BadRequest?
    ensures code == 200 <==> r.Success?
  {
    if r.BadRequest? then 400 else 200
  }

  /** A point the loop accepts: an array of exactly two numbers. */
  predicate IsPoint(v: Json.Value)
  {
    v.Arr? && |v.items| == 2 && v.items[0].Num? && v.items[1].Num?
  }

  function ToVertex(v: Json.Value): Geofence.Vertex
    requires IsPoint(v)
  {
    Geofence.Vertex(v.items[0].n, v.items[1].n)
  }

  /** How a stored vertex reads back as JSON: `[lat, lng]`. */
  function EncodeVertex(p: Geofence.Vertex): (v: Json.Value)
    ensures IsPoint(v) && ToVertex(v) == p
  {
    Json.Arr([Json.Num(p.lat), Json.Num(p.lng)])
  }

  /** A point read as a vertex and written back is the same point. */
  lemma PointRoundTrip(v: Json.Value)
    requires IsPoint(v)
    ensures EncodeVertex(ToVertex(v)) == v
  {
    assert v.items == [v.items[0], v.items[1]];
  }

  function Encode(polygon: seq<Geofence.Vertex>): (v: Json.Value)
    ensures v.Arr? && |v.items| == |polygon|
    ensures forall i :: 0 <= i < |polygon| ==> v.items[i] == EncodeVertex(polygon[i])
  {
    Json.Arr(seq(|polygon|, i requires 0 <= i < |polygon| => EncodeVertex(polygon[i])))
  }

  /** The submitted points as vertices, once every one of them is a point. */
  function ToVertices(points: seq<Json.Value>): (vs: seq<Geofence.Vertex>)
    requires forall i :: 0 <= i < |points| ==> IsPoint(points[i])
    ensures |vs| == |points|
    ensures forall i :: 0 <= i < |points| ==> vs[i] == ToVertex(points[i])
  {
    seq(|points|, i requires 0 <= i < |points| => ToVertex(points[i]))
  }

  /** Index of the first point the loop rejects, if any. */
  function FirstBadPoint(points: seq<Json.Value>, from: nat): (r: Option<nat>)
    requires from <= |points|
    ensures r.None? <==> forall i :: from <= i < |points| ==> IsPoint(points[i])
    ensures r.Some? ==> from <= r.value < |points| && !IsPoint(points[r.value])
                        && forall i :: from <= i < r.value ==> IsPoint(points[i])
    decreases |points| - from
  {
    if from == |points| then None
    else if !IsPoint(points[from]) then Some(from)
    else FirstBadPoint(points, from + 1)
  }

  /** What the POST handler decides about a submitted polygon: the first check
      that fails, or the vertices the store is given. */
  function Validate(polygon: Json.Value): (r: Result<seq<Geofence.Vertex>, string>)
    ensures r.Ok? <==> polygon.Arr? && |polygon.items| >= MIN_POINTS
                       && forall i :: 0 <= i < |polygon.items| ==> IsPoint(polygon.items[i])
    ensures r.Err? && (!polygon.Arr? || |polygon.items| < MIN_POINTS) ==> r.error == BAD_POLYGON
    ensures r.Err? && polygon.Arr? && |polygon.items| >= MIN_POINTS ==> r.error == BAD_POINT
    ensures r.Ok? ==> |r.value| == |polygon.items| && Encode(r.value) == polygon
  {
    if !polygon.Arr? || |polygon.items| < MIN_POINTS then Err(BAD_POLYGON)
    else if FirstBadPoint(polygon.items, 0).Some? then Err(BAD_POINT)
    else
      var vs := ToVertices(polygon.items);
      assert forall i :: 0 <= i < |vs| ==> Encode(vs).items[i] == polygon.items[i] by {
        forall i | 0 <= i < |vs| {
          PointRoundTrip(polygon.items[i]);
        }
      }
      Ok(vs)
  }

  /** A stored polygon of at least three vertices, submitted back as JSON, is
      accepted and stored unchanged. */
  lemma EncodeAccepted(polygon: seq<Geofence.Vertex>)
    requires |polygon| >= MIN_POINTS
    ensures Validate(Encode(polygon)) == Ok(polygon)
  {
    var r := Validate(Encode(polygon));
    assert r.Ok?;
    assert Encode(r.value) == Encode(polygon);
    EncodeInjective(r.value, polygon);
  }

  lemma EncodeInjective(p: seq<Geofence.Vertex>, q: seq<Geofence.Vertex>)
    requires Encode(p) == Encode(q)
    ensures p == q
  {
    assert |p| == |q|;
    forall i | 0 <= i < |p| ensures p[i] == q[i] {
      assert ToVertex(Encode(p).items[i]) == p[i];
      assert ToVertex(Encode(q).items[i]) == q[i];
    }
  }

  /** Three well-formed points, the smallest polygon, pass both checks. */
  lemma ThreePointsAccepted(a: Json.Value, b: Json.Value, c: Json.Value)
    requires IsPoint(a) && IsPoint(b) && IsPoint(c)
    ensures Validate(Json.Arr([a, b, c])) == Ok([ToVertex(a), ToVertex(b), ToVertex(c)])
  {
    var r := Validate(Json.Arr([a, b, c]));
    assert forall i :: 0 <= i < 3 ==> IsPoint([a, b, c][i]);
    assert r.Ok?;
    assert Encode(r.value) == Json.Arr([a, b, c]);
    EncodeInjective(r.value, [ToVertex(a), ToVertex(b), ToVertex(c)]);
  }

  /** Two points are never enough, however well-formed. */
  lemma TwoPointsRejected(a: Json.Value, b: Json.Value)
    ensures Validate(Json.Arr([a, b])) == Err(BAD_POLYGON)
  {
  }

  /** `POST /`. Each rejection returns before the store is touched; on
      success the store holds exactly the submitted points and the response
      carries what the store now returns. */
  method Post(store: Geofence.Store, polygon: Json.Value, name: Json.Value) returns (response: Response)
    modifies store
    ensures Validate(polygon).Err? ==> response == BadRequest(Validate(polygon).error) && unchanged(store)
    ensures Validate(polygon).Ok? ==>
              && store.polygon == Validate(polygon).value
              && store.name == (if Json.Truthy(name) then name else old(store.name))
              && response == Success(store.Get())
  {
    if !polygon.Arr? || |polygon.items| < MIN_POINTS {
      return BadRequest(BAD_POLYGON);
    }

    for i := 0 to |polygon.items|
      invariant forall k :: 0 <= k < i ==> IsPoint(polygon.items[k])
    {
      var point := polygon.items[i];
      if !(point.Arr? && |point.items| == 2 && point.items[0].Num? && point.items[1].Num?) {
        return BadRequest(BAD_POINT);
      }
    }

    store.Update(ToVertices(polygon.items), name);
    var updated := store.Get();
    response := Success(updated);
  }
}
