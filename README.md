# FarmSense core, modelled in Dafny

FarmSense is a livestock-monitoring dashboard. A Node server simulates a herd
of five animals. Every three seconds it moves each animal, perturbs its
temperature and heart rate, and checks its position against a geofence (the
farm boundary, a polygon). It then pushes the whole herd and any breach
alerts to the browser over Socket.IO. A REST route lets an operator replace
the boundary. A React dashboard keeps the latest readings, a rolling chart
history and a short-lived list of alerts, and formats values for display.

This project models that core.

- **`Geofence`** (`geofence.dfy`): the live boundary store and the ray-casting
  test.
  - The store is a class with `name` and `polygon` fields. `Update`
    reassigns both; `Get` returns a copy.
  - `IsInsideGeofence` is the source's loop, proved equal to a parity count
    of crossing edges.
  - The test is modelled as the server writes it. It compares a vertex's
    first component (a latitude) with the query's longitude, and the query's
    latitude with the interpolated second component.
  - `AsWrittenIsSwappedContains` proves that this equals the textbook test
    (`Contains`) applied to the query point with its coordinates swapped.
    Consequences for the default boundary:
    - every query with longitude below 36.815, so every real farm position
      (longitude ≈ 10.18), is reported outside (`DefaultFenceRejectsFarmPositions`);
    - the boundary's own centre is reported outside, although it lies inside
      the polygon (`DefaultCentre`).
  - The header comment of `geofence.js` calls this the ray-casting method,
    standard for point-in-polygon checks; the model follows the code as
    written.
- **`GeofenceRoute`** (`geofence_route.dfy`): `POST /api/geofence`.
  - Validation: the body's `polygon` must be an array of at least three
    points, each a two-element array of numbers.
  - Each failure has its own 400 message.
  - A valid polygon replaces the stored one, and the name changes only when
    a truthy one is given.
  - `GET /api/geofence` answers with `Geofence.Store.Get`.
  - The router file is not mounted by `farmsense-backend/src/index.js`, so
    in the running server these handlers are unreachable. The model
    describes the handlers themselves.
- **`Simulator`** (`simulator.dfy`):
  - `initAnimals`: the herd placed around the centre of the boundary;
  - `updateAnimal`: drift or escape, temperature with fever spikes and a
    clamp, heart rate with a clamp and rounding, and the geofence status;
  - the bounded per-animal history (100 entries);
  - one interval tick, with the batch it emits and the breach alerts it
    emits after it;
  - `getHistory` with JavaScript's `slice(-limit)`.
  - The simulator is a class whose `animalsState` and `history` maps its
    methods reassign.
  - Each method is proved against value-level specification functions
    (`NextReading`, `Step`, `Run`, `RunAlerts`, `Init`), and the properties
    are proved about those functions.
- **`HistoryHook`** (`history_hook.dfy`): the dashboard's `useHistory`.
  - A new animals map appends one chart point to each animal whose
    `lastUpdate` changed.
  - Each series keeps its 60 newest points.
- **`SocketState`** (`socket_state.dfy`): the dashboard's `useSocket` state.
  - A snapshot or an update replaces the animals map and stamps the time;
    connect and disconnect set the connected flag.
  - Each alert gets the next number from a counter and goes to the front of
    a list kept to 20 entries.
  - The expiry removes exactly the entry with that number.
- **`Helpers`** (`helpers.dfy`): the status colour and label tables,
  `getStatusColor`, `formatTemp`, `formatHR`, `formatCoords` and `timeSince`.
  - These rest on **`Decimal`** (`decimal.dfy`), which models the decimal
    renderings involved: JavaScript's `${n}` for integers, and
    `Number.prototype.toFixed`.
  - Each rendering has a parser, and the lemmas prove that it reads back as
    what was rendered.
- Shared modules: `Options` (Option and Result), `Json` (request-body values
  and JavaScript truthiness), `Seqs` (`slice(start)` and "newest n
  entries"), and `Animals` (the herd, vital ranges, readings, snapshots and
  alerts).

How the environment enters the model:
- `Math.random()` values are passed in as draws in [0, 1).
- `new Date()` and `Date.now()` are passed in as integer millisecond
  readings.
- ISO timestamps are those integers.
- The source file spells the unit after a temperature as the two
  characters `Â°` followed by `C` (a doubly encoded degree sign).
  `Helpers.DEGREES` keeps those characters.

## Model

| member | source | states |
|---|---|---|
| Geofence.Pred | farmsense-backend/src/geofence/geofence.js:55 | the vertex paired with vertex i (`j`, the previous index, wrapping to the last) is a valid index |
| Geofence.PredIsBijection | farmsense-backend/src/geofence/geofence.js:55 | every vertex is paired as "previous" with exactly one vertex, so the loop walks every edge of the closed polygon once |
| Geofence.CrossesAsWritten | farmsense-backend/src/geofence/geofence.js:59-61 | definition of the server's edge test as written; properties in Geofence.Intersect and Geofence.EdgeSwapped |
| Geofence.CrossingsAsWritten | farmsense-backend/src/geofence/geofence.js:55-64 | among the first k edges at most k flip the answer |
| Geofence.InsideAsWritten | farmsense-backend/src/geofence/geofence.js:51-67 | definition of `isInsideGeofence`'s answer, the parity of the crossing count; the loop is proved equal to it in Geofence.IsInsideGeofence |
| Geofence.IsInsideGeofence | farmsense-backend/src/geofence/geofence.js:51-67 | the loop answers true exactly when an odd number of edges pass the server's edge test; an empty polygon gives false |
| Geofence.Intersect | farmsense-backend/src/geofence/geofence.js:56-61 | an edge only counts when its endpoints' first components differ, so the division is never by zero; the inline test is the textbook crossing test applied to the query point with latitude and longitude swapped |
| Geofence.EdgeSwapped | farmsense-backend/src/geofence/geofence.js:59-61 | the server's edge test on (lat, lng) is the textbook edge test on the point (lng, lat) |
| Geofence.CrossingsSwapped | farmsense-backend/src/geofence/geofence.js:55-64 | the server's crossing count for (lat, lng) equals the textbook count for (lng, lat), edge prefix by edge prefix |
| Geofence.Contains | farmsense-backend/src/geofence/geofence.js:7-8 | definition of the ray-casting point-in-polygon test the header comment names, on [lat, lng] vertices; related to the code in Geofence.AsWrittenIsSwappedContains |
| Geofence.AsWrittenIsSwappedContains | farmsense-backend/src/geofence/geofence.js:51-67 | `isInsideGeofence(lat, lng)` is textbook containment of the swapped point |
| Geofence.NoStraddleNoCrossing | farmsense-backend/src/geofence/geofence.js:59-61 | when no edge straddles the point's latitude, no edge is counted |
| Geofence.DefaultLatitudes | farmsense-backend/src/geofence/geofence.js:15-20 | every default vertex's first component lies between 36.815 and 36.82 |
| Geofence.DefaultFenceRejectsFarmPositions | farmsense-backend/src/geofence/geofence.js:51-67 | with the default boundary, any query whose longitude is below 36.815 is reported outside |
| Geofence.DefaultCentre | farmsense-backend/src/geofence/geofence.js:12-21 | the default boundary's centre (36.8175, 10.1835) is reported outside by the server's test but is contained under the textbook test |
| Geofence.NorthOfFenceOutside | farmsense-backend/src/geofence/geofence.js:44-50 | under the textbook test, a point at or north of every vertex is never inside |
| Geofence.Store.constructor | farmsense-backend/src/geofence/geofence.js:12-21 | the store starts as "Main Farm" with the four default vertices |
| Geofence.Store.Get | farmsense-backend/src/geofence/geofence.js:40-42 | `getGeofence` returns the current name and polygon as a value that later updates cannot change |
| Geofence.Store.Update | farmsense-backend/src/geofence/geofence.js:33-38 | the polygon becomes the new one; the name becomes the given one when it is truthy and otherwise stays |
| Geofence.Store.IsInside | farmsense-backend/src/geofence/geofence.js:23-26 | the default-argument call checks against the live polygon, as the server's test |
| GeofenceRoute.StatusCode | farmsense-backend/src/routes/geofence.js:26-31 | a response is sent with 400 exactly when it is a rejection and 200 exactly when it is a success |
| GeofenceRoute.EncodeVertex | farmsense-backend/src/routes/geofence.js:33-37 | a vertex written as `[lat, lng]` is a well-formed point that reads back as the vertex |
| GeofenceRoute.PointRoundTrip | farmsense-backend/src/routes/geofence.js:33-37 | a well-formed point is exactly the encoding of the vertex it reads as |
| GeofenceRoute.Encode | farmsense-backend/src/routes/geofence.js:17 | a polygon is sent as an array with one encoded point per vertex, in order |
| GeofenceRoute.ToVertices | farmsense-backend/src/routes/geofence.js:45 | the stored polygon has one vertex per submitted point, in order |
| GeofenceRoute.IsPoint | farmsense-backend/src/routes/geofence.js:34-37 | definition of a well-formed point, an array of exactly two numbers; properties in GeofenceRoute.FirstBadPoint and GeofenceRoute.Validate |
| GeofenceRoute.FirstBadPoint | farmsense-backend/src/routes/geofence.js:33-43 | the loop stops at the first malformed point, and finds none exactly when all points are well formed |
| GeofenceRoute.Validate | farmsense-backend/src/routes/geofence.js:25-43 | accepted exactly when the value is an array of at least 3 well-formed points; the short or non-array case and the bad-point case get their own messages; an accepted polygon re-encodes to the submitted value |
| GeofenceRoute.EncodeAccepted | farmsense-backend/src/routes/geofence.js:25-43 | every polygon of at least 3 vertices, once encoded, is accepted as itself |
| GeofenceRoute.EncodeInjective | farmsense-backend/src/routes/geofence.js:45-46 | different polygons have different encodings |
| GeofenceRoute.ThreePointsAccepted | farmsense-backend/src/routes/geofence.js:26 | three well-formed points (a triangle) are the smallest accepted polygon |
| GeofenceRoute.TwoPointsRejected | farmsense-backend/src/routes/geofence.js:26-31 | two points are rejected with the polygon message, whatever they are |
| GeofenceRoute.Post | farmsense-backend/src/routes/geofence.js:22-55 | an invalid body is answered 400 with its message and leaves the store unchanged; a valid one stores the polygon, keeps or replaces the name, and answers with the stored boundary |
| Animals.AnimalIdsDistinct | farmsense-backend/src/simulator/simulator.js:21-27 | the five animals have distinct ids |
| Animals.RangesOrdered | farmsense-backend/src/simulator/simulator.js:30-35 | every species' temperature and heart-rate ranges are proper intervals |
| Seqs.SliceFrom | farmsense-backend/src/simulator/simulator.js:199 | definition of `Array.prototype.slice(start)` with a negative start counted from the end; properties in Seqs.SliceFromEnd |
| Seqs.SliceFromEnd | farmsense-backend/src/simulator/simulator.js:199 | `slice(-n)` keeps exactly the newest n entries in order for n >= 1; `slice(-0)` keeps everything; a negative limit drops a prefix |
| Seqs.NewestShape | farmsense-frontend/src/hooks/useHistory.js:35 | keeping the newest n leaves min(n, length) entries and drops only the oldest |
| Seqs.NewestAppend | farmsense-backend/src/simulator/simulator.js:142 | trimming to the newest n and then appending gives the newest n of the whole log |
| Simulator.ScaleByUnit | farmsense-backend/src/simulator/simulator.js:213 | a draw in [0, 1) times a width w lies in [0, w) |
| Simulator.RandomInRange | farmsense-backend/src/simulator/simulator.js:212-214 | `randomInRange(min, max)` lies in [min, max) |
| Simulator.RandomIntInRange | farmsense-backend/src/simulator/simulator.js:216-218 | `randomIntInRange(min, max)` is an integer in [min, max], both ends included |
| Simulator.Clamp | farmsense-backend/src/simulator/simulator.js:220-222 | the result lies in [min, max], equals the value when it already does, and is always the value or a bound |
| Simulator.Round | farmsense-backend/src/simulator/simulator.js:123 | `Math.round` gives a whole number within one half of its argument, halves rounding up |
| Simulator.RoundWithin | farmsense-backend/src/simulator/simulator.js:105-123 | rounding keeps a value inside integer bounds and leaves whole numbers alone |
| Simulator.StoredTemperature | farmsense-backend/src/simulator/simulator.js:122 | `parseFloat(t.toFixed(2))` of a non-negative temperature stays within bounds that have two decimals and moves it by at most 0.005 |
| Simulator.ClampBoundsTwoDecimals | farmsense-backend/src/simulator/simulator.js:29-34 | every species' temperature clamp bounds are non-negative and have at most two decimals |
| Simulator.StoredCoordinate | farmsense-backend/src/simulator/simulator.js:120-121 | `parseFloat(x.toFixed(6))` moves a coordinate by at most 0.0000005 |
| Simulator.Average | farmsense-backend/src/simulator/simulator.js:224-226 | definition of `average`, the left-fold sum divided by the count; properties in Simulator.AverageBounds |
| Simulator.SumBounds | farmsense-backend/src/simulator/simulator.js:224-226 | a sum of n values in [lo, hi] lies in [n·lo, n·hi] |
| Simulator.AverageBounds | farmsense-backend/src/simulator/simulator.js:224-226 | the average of values in [lo, hi] lies in [lo, hi] |
| Simulator.Lats | farmsense-backend/src/simulator/simulator.js:46 | the latitudes of the polygon, one per vertex, in order |
| Simulator.Lngs | farmsense-backend/src/simulator/simulator.js:47 | the longitudes of the polygon, one per vertex, in order |
| Simulator.CentreInBox | farmsense-backend/src/simulator/simulator.js:45-47 | the centre the herd is placed around lies inside every box that holds all the fence's vertices |
| Simulator.InitialReading | farmsense-backend/src/simulator/simulator.js:49-70 | a new animal starts inside and normal, with a temperature in [tempMin, tempMax) and a whole heart rate in [hrMin, hrMax] of its species |
| Simulator.Init | farmsense-backend/src/simulator/simulator.js:44-73 | definition of initAnimals on the tables; properties in Simulator.InitShape, Simulator.InitAt and Simulator.InitWellFormed |
| Simulator.InitShape | farmsense-backend/src/simulator/simulator.js:49-72 | after k animals, both tables hold exactly those animals' ids and every history is empty |
| Simulator.InitAt | farmsense-backend/src/simulator/simulator.js:54-71 | animal i gets the initial reading built from its index, the centre, its draws and its own clock reading, and an empty history |
| Simulator.InitWellFormed | farmsense-backend/src/simulator/simulator.js:44-73 | initialisation covers the whole herd, is well formed, and gives every animal its own initial reading, stamped with the clock reading taken for that animal |
| Simulator.NextLat | farmsense-backend/src/simulator/simulator.js:84-95 | an escape moves the latitude by 0.004 to 0.007 degrees; ordinary drift moves it by at most 0.0003 |
| Simulator.NextLng | farmsense-backend/src/simulator/simulator.js:84-95 | the same for the longitude |
| Simulator.NextTemperature | farmsense-backend/src/simulator/simulator.js:99-102 | the new temperature lies in [tempMin − 0.5, tempMax + 2.0]; without a fever spike and inside that range it is the drifted value |
| Simulator.NextHeartRate | farmsense-backend/src/simulator/simulator.js:105-106 | the new rate lies in [hrMin − 5, hrMax + 20], stays whole, and moves by at most 3 away from the bounds |
| Simulator.Classify | farmsense-backend/src/simulator/simulator.js:112-116 | alert exactly when outside; warning exactly when inside with a temperature above tempMax + 0.5 or a rate above hrMax + 10; normal otherwise |
| Simulator.NextReading | farmsense-backend/src/simulator/simulator.js:78-127 | the updated reading keeps the animal, is stamped now, is inside exactly when the server's test says so of the unrounded new position, stores a position within 0.0000005 of it (six decimals) and a temperature within 0.005 of the clamped new temperature (two decimals), keeps the stored temperature in the clamped range, and stores a whole heart rate in its clamped range |
| Simulator.StatusRules | farmsense-backend/src/simulator/simulator.js:108-116 | the updated reading's status is alert, warning or normal by the three rules above, applied to the fence test, to the new temperature before its two-decimal rounding and to the stored whole heart rate |
| Simulator.CowFeverClamped | farmsense-backend/src/simulator/simulator.js:99-102 | a cow whose temperature would reach 42.0 is clamped to 41.5 |
| Simulator.WarningAboveStoredTemperature | farmsense-backend/src/simulator/simulator.js:109-122 | a cow whose new temperature is 40.004 is stored as 40.0, exactly its warning threshold, yet is flagged warning when inside, because the rule sees the unrounded value |
| Simulator.SnapshotOf | farmsense-backend/src/simulator/simulator.js:133-141 | definition of the history entry pushed for a reading: its timestamp, position, vitals, fence flag and status |
| Simulator.Record | farmsense-backend/src/simulator/simulator.js:133-142 | after recording, the history is non-empty and ends with the new snapshot |
| Simulator.RecordKeepsNewest | farmsense-backend/src/simulator/simulator.js:132-142 | push-then-shift keeps the newest 100 entries and grows by one until it holds 100 |
| Simulator.RecordAllKeepsNewest | farmsense-backend/src/simulator/simulator.js:132-142 | any sequence of recordings leaves the newest 100 snapshots of the whole log |
| Simulator.HistoryAfterManyUpdates | farmsense-backend/src/simulator/simulator.js:39 | after more than 100 updates the history is exactly the last 100 |
| Simulator.Breaches | farmsense-backend/src/simulator/simulator.js:164-179 | definition of the alerts the tick collects, in herd order; properties in Simulator.BreachesExactly, Simulator.BreachesOnePerAnimal and Simulator.BreachesSound |
| Simulator.BreachesExactly | farmsense-backend/src/simulator/simulator.js:164-179 | alerts are raised for exactly the animals that went from inside to outside, and there are no more alerts than animals looked at |
| Simulator.BreachesOnePerAnimal | farmsense-backend/src/simulator/simulator.js:164-179 | in a herd with distinct ids no two alerts name the same animal |
| Simulator.BreachesSound | farmsense-backend/src/simulator/simulator.js:170-178 | every alert names an animal that breached and carries its name and update time |
| Simulator.BreachesFrame | farmsense-backend/src/simulator/simulator.js:164-179 | the alerts depend only on the herd's readings before and after |
| Simulator.BreachesSnoc | farmsense-backend/src/simulator/simulator.js:164-179 | visiting one more animal appends at most its own alert, after the earlier ones |
| Simulator.AlertEvents | farmsense-backend/src/simulator/simulator.js:185-187 | one `animal:alert` event per alert, in the order collected |
| Simulator.Batch | farmsense-backend/src/simulator/simulator.js:161-167 | the emitted `updates` map has exactly the herd's ids, each with its current reading |
| Simulator.HerdIdsDistinct | farmsense-backend/src/simulator/simulator.js:21-27 | the server's herd satisfies the distinct-id condition the simulator requires |
| Simulator.Step | farmsense-backend/src/simulator/simulator.js:78-145 | definition of updateAnimal on the tables; properties in Simulator.StepWellFormed, Simulator.StepOther and Simulator.StepAlertIs |
| Simulator.StepWellFormed | farmsense-backend/src/simulator/simulator.js:129-142 | updating one animal of the herd keeps every table entry present and every history within 100 |
| Simulator.StepAlertIs | farmsense-backend/src/simulator/simulator.js:165-178 | the per-animal callback raises an alert exactly when that animal's previous reading was inside and the new one is outside |
| Simulator.StepOther | farmsense-backend/src/simulator/simulator.js:129-130 | updating one animal leaves every other animal's reading and history as they were |
| Simulator.StepKeepsPrefix | farmsense-backend/src/simulator/simulator.js:164-168 | updating animal j leaves the animals before it as they were |
| Simulator.Run | farmsense-backend/src/simulator/simulator.js:160-179 | definition of the tick's loop on the tables after k animals; properties in Simulator.RunAt, Simulator.RunEach and Simulator.RunWellFormed |
| Simulator.RunAlerts | farmsense-backend/src/simulator/simulator.js:162-179 | definition of the alerts collected after k animals; properties in Simulator.RunAlertsAreBreaches |
| Simulator.RunNext | farmsense-backend/src/simulator/simulator.js:164-179 | the tick's loop after k + 1 animals is one more update and at most one more alert after the state after k |
| Simulator.RunCovers | farmsense-backend/src/simulator/simulator.js:164-179 | every herd animal keeps its entries throughout the tick |
| Simulator.RunWellFormed | farmsense-backend/src/simulator/simulator.js:160-188 | a tick keeps the tables well formed |
| Simulator.RunAt | farmsense-backend/src/simulator/simulator.js:164-168 | after k animals, each visited animal has its next reading and one more snapshot, and each unvisited one is untouched |
| Simulator.RunOther | farmsense-backend/src/simulator/simulator.js:164-168 | a tick never touches an id outside the herd |
| Simulator.RunEach | farmsense-backend/src/simulator/simulator.js:160-179 | after a tick every animal has been updated exactly once from its own previous reading |
| Simulator.RunAlertsAreBreaches | farmsense-backend/src/simulator/simulator.js:164-187 | the alerts a tick collects are exactly the breaches between the readings before and after it, in herd order |
| Simulator.Simulator.Start | farmsense-backend/src/simulator/simulator.js:44-73 | initialisation places every herd animal around the average of the live polygon's vertices, stamps each with its own clock reading, gives it an empty history, and establishes the simulator invariant |
| Simulator.Simulator.NewReading | farmsense-backend/src/simulator/simulator.js:78-127 | the step-by-step computation equals the specified next reading |
| Simulator.Simulator.UpdateAnimal | farmsense-backend/src/simulator/simulator.js:78-145 | the tables become one update of that animal, and the returned reading is the one stored |
| Simulator.Simulator.VisitAnimal | farmsense-backend/src/simulator/simulator.js:164-178 | the callback updates the animal and appends its breach alert, if any |
| Simulator.Simulator.Tick | farmsense-backend/src/simulator/simulator.js:160-188 | a tick updates every animal in herd order, keeps the invariant, and emits the updated batch followed by the breach alerts |
| Simulator.Simulator.GetHistory | farmsense-backend/src/simulator/simulator.js:197-207 | with an id, that animal's newest `limit` entries; an unknown id gives none, except that an id naming a property inherited from `Object.prototype` (such as "constructor") makes the call throw a TypeError; a limit of 0 gives the whole history and a negative limit drops that many oldest entries, as `slice(-limit)` does; without an id, the same for every animal; the default limit is 50 |
| Simulator.ConstructorIdThrows | farmsense-backend/src/simulator/simulator.js:197-198 | the id "constructor" makes getHistory throw, while an ordinary unknown id answers the empty list |
| Decimal.NatToString | farmsense-frontend/src/utils/helpers.js:33 | a count renders as a non-empty digit string with no leading zero |
| Decimal.NatToStringRoundTrip | farmsense-frontend/src/utils/helpers.js:33 | the rendered digits read back as the number |
| Decimal.IntToString | farmsense-frontend/src/utils/helpers.js:22 | an integer renders with a leading minus exactly when negative, followed by its magnitude's digits |
| Decimal.IntToStringRoundTrip | farmsense-frontend/src/utils/helpers.js:22 | the rendering of an integer parses back to it |
| Decimal.IntToStringInjective | farmsense-frontend/src/utils/helpers.js:22 | different integers render differently |
| Decimal.ToFixed | farmsense-frontend/src/utils/helpers.js:27 | definition of `Number.prototype.toFixed` for finite values below 1e21; properties in Decimal.ToFixedReadsBack and Decimal.ToFixedChars |
| Decimal.Nearest | farmsense-frontend/src/utils/helpers.js:27 | toFixed's scaled value is the whole number nearest the scaled magnitude, halves rounding up |
| Decimal.PlacePointParses | farmsense-frontend/src/utils/helpers.js:27 | digits with the point placed f from the end (zero-padded) read back as the same number |
| Decimal.RenderParses | farmsense-frontend/src/utils/helpers.js:27 | a sign and a scaled whole number rendered with f decimals read back as that sign and number |
| Decimal.ToFixedReadsBack | farmsense-frontend/src/utils/helpers.js:27 | `x.toFixed(f)` reads back with x's sign and a scaled value within one half of |x|·10^f |
| Decimal.ToFixedChars | farmsense-frontend/src/utils/helpers.js:27 | `toFixed` output is non-empty and made only of digits, '-' and '.' (never a comma) |
| Decimal.FixedValueReadsToFixed | farmsense-backend/src/simulator/simulator.js:120-122 | the stored value `parseFloat(x.toFixed(f))` is the number the rendering `x.toFixed(f)` denotes |
| Decimal.FixedValue | farmsense-backend/src/simulator/simulator.js:120-122 | definition of `parseFloat(x.toFixed(f))`; properties in Decimal.FixedValueReadsToFixed, Simulator.StoredTemperature and Simulator.StoredCoordinate |
| Helpers.TablesCoverStatuses | farmsense-frontend/src/utils/helpers.js:1-11 | both tables have an entry for every status the server sends, and distinct statuses get distinct colours and labels |
| Helpers.StatusLabels | farmsense-frontend/src/utils/helpers.js:7-11 | normal, warning and alert are labelled NOMINAL, WARNING and BREACH |
| Helpers.GetStatusColor | farmsense-frontend/src/utils/helpers.js:13-15 | a known status gets its table colour, any other string the normal colour; the result is always one of the table's colours |
| Helpers.StatusColors | farmsense-frontend/src/utils/helpers.js:13-15 | the three statuses get green, amber and red; any other string is coloured as normal |
| Helpers.FormatTemp | farmsense-frontend/src/utils/helpers.js:17-19 | "--" exactly when the temperature is undefined |
| Helpers.FormatTempReadsBack | farmsense-frontend/src/utils/helpers.js:17-19 | the label ends in the unit and the number before it reads back with the temperature's sign, rounded to one decimal |
| Helpers.FormatHR | farmsense-frontend/src/utils/helpers.js:21-23 | "--" exactly when the rate is undefined |
| Helpers.FormatHRReadsBack | farmsense-frontend/src/utils/helpers.js:21-23 | the number before " bpm" reads back as the rate, and "--" reads back as no rate |
| Helpers.FormatCoords | farmsense-frontend/src/utils/helpers.js:25-28 | definition of `formatCoords`; properties in Helpers.FormatCoordsMissing, Helpers.FormatCoordsReadsBack and Helpers.FormatCoordsSigns |
| Helpers.FormatCoordsMissing | farmsense-frontend/src/utils/helpers.js:25-26 | "--" exactly when either coordinate is undefined, and then no position reads back |
| Helpers.FormatCoordsReadsBack | farmsense-frontend/src/utils/helpers.js:25-28 | the label splits at its first comma into the two five-decimal renderings, latitude first |
| Helpers.FormatCoordsSigns | farmsense-frontend/src/utils/helpers.js:27 | both parts read back as numbers carrying the coordinates' signs |
| Helpers.TimeSince | farmsense-frontend/src/utils/helpers.js:30-31 | a falsy timestamp gives "--" |
| Helpers.TimeSinceSeconds | farmsense-frontend/src/utils/helpers.js:32-33 | under a minute (a future time included), the label is the whole seconds elapsed, rounded down, then "s ago" |
| Helpers.TimeSinceMinutes | farmsense-frontend/src/utils/helpers.js:32-34 | from a minute on, the label is the whole minutes elapsed, rounded down, then "m ago" |
| Helpers.TimeSinceLabelsDistinct | farmsense-frontend/src/utils/helpers.js:31-34 | a parsed timestamp never gives "--" or "NaNm ago", and the label ends in "s ago" exactly when less than a minute has passed |
| HistoryHook.Next | farmsense-frontend/src/hooks/useHistory.js:14-40 | definition of the history `setHistory` computes from a new animals map; properties in HistoryHook.NextCapped, HistoryHook.NewestOfLog and HistoryHook.RedeliveryIgnored |
| HistoryHook.Merged | farmsense-frontend/src/hooks/useHistory.js:17-39 | definition of the history once the loop has visited a set of animals; properties in HistoryHook.MergedAt, HistoryHook.MergedNone and HistoryHook.MergedAdd |
| HistoryHook.MergedAt | farmsense-frontend/src/hooks/useHistory.js:17-39 | partway through the loop, an id has a series exactly when it had one or was visited and changed; a visited changed one has its point appended, and every other series is as before |
| HistoryHook.MergedNone | farmsense-frontend/src/hooks/useHistory.js:18 | the loop starts from a copy of the previous history |
| HistoryHook.MergedAdd | farmsense-frontend/src/hooks/useHistory.js:19-36 | one more iteration appends the animal's point when its reading changed and otherwise changes nothing |
| HistoryHook.AbsentUnchanged | farmsense-frontend/src/hooks/useHistory.js:18-19 | an animal missing from the new map keeps its series, or keeps having none |
| HistoryHook.UnchangedSkipped | farmsense-frontend/src/hooks/useHistory.js:20-22 | an animal whose `lastUpdate` equals the one seen before gets no point |
| HistoryHook.ChangedAppended | farmsense-frontend/src/hooks/useHistory.js:24-35 | a changed animal's series is its old series plus the new point (temperature, heart rate, time), cut to the newest 60, ending with that point |
| HistoryHook.FirstSeenAppended | farmsense-frontend/src/hooks/useHistory.js:20-22 | an animal seen for the first time always gets its point |
| HistoryHook.NextCapped | farmsense-frontend/src/hooks/useHistory.js:35 | no series ever holds more than 60 points |
| HistoryHook.NewestOfLog | farmsense-frontend/src/hooks/useHistory.js:35 | each series is the newest 60 of all points it was ever given, in arrival order |
| HistoryHook.RedeliveryIgnored | farmsense-frontend/src/hooks/useHistory.js:20-37 | delivering the same map twice adds nothing the second time |
| HistoryHook.VisitAnimal | farmsense-frontend/src/hooks/useHistory.js:19-36 | the forEach body appends the point, cut to the newest 60, when the reading changed, and otherwise returns the history unchanged |
| HistoryHook.MergeAll | farmsense-frontend/src/hooks/useHistory.js:17-39 | the `setHistory` updater's loop yields the merged history over all incoming readings |
| HistoryHook.Hook.constructor | farmsense-frontend/src/hooks/useHistory.js:11-12 | the history and the previously seen map start empty |
| HistoryHook.Hook.OnAnimals | farmsense-frontend/src/hooks/useHistory.js:14-40 | a missing or empty map changes nothing; otherwise the history is merged and the map is remembered as seen |
| SocketState.Prepend | farmsense-frontend/src/hooks/useSocket.js:39 | definition of the alert updater, the new alert first and the list cut to 20; properties in SocketState.PrependShape and SocketState.PrependDecreasing |
| SocketState.PrependShape | farmsense-frontend/src/hooks/useSocket.js:39 | the new alert is first, followed by the newest previous ones, and the list holds min(20, n + 1) entries |
| SocketState.PrependDecreasing | farmsense-frontend/src/hooks/useSocket.js:38-39 | numbering the new alert counter + 1 keeps numbers strictly decreasing from the front and within the counter |
| SocketState.Without | farmsense-frontend/src/hooks/useSocket.js:41 | definition of the expiry updater's filter; properties in SocketState.WithoutFilters, SocketState.WithoutAt and SocketState.WithoutAbsent |
| SocketState.WithoutFilters | farmsense-frontend/src/hooks/useSocket.js:41 | the filter keeps exactly the entries with other numbers and never lengthens the list |
| SocketState.WithoutAbsent | farmsense-frontend/src/hooks/useSocket.js:41 | removing a number that no entry carries changes nothing |
| SocketState.WithoutAt | farmsense-frontend/src/hooks/useSocket.js:41 | with distinct numbers, removing entry i's number drops that entry alone and keeps the rest in order |
| SocketState.WithoutDecreasing | farmsense-frontend/src/hooks/useSocket.js:41 | the filter keeps numbers decreasing |
| SocketState.WithoutValid | farmsense-frontend/src/hooks/useSocket.js:40-42 | the filter keeps the list decreasing and within the counter |
| SocketState.AlertThenExpire | farmsense-frontend/src/hooks/useSocket.js:37-42 | an alert expired before anything else happens leaves the list it joined, less its oldest entry if the list was full |
| SocketState.ExpireRemovesOne | farmsense-frontend/src/hooks/useSocket.js:41 | expiring a number in the list removes exactly one entry, that one |
| SocketState.Dashboard.constructor | farmsense-frontend/src/hooks/useSocket.js:7-13 | no animals, no alerts, disconnected, no tick yet, counter 0 |
| SocketState.Dashboard.OnConnect | farmsense-frontend/src/hooks/useSocket.js:24 | connected becomes true and nothing else changes |
| SocketState.Dashboard.OnDisconnect | farmsense-frontend/src/hooks/useSocket.js:25 | connected becomes false and nothing else changes |
| SocketState.Dashboard.OnSnapshot | farmsense-frontend/src/hooks/useSocket.js:27-30 | the animals map is replaced as a whole and the tick time set; alerts and connection are untouched |
| SocketState.Dashboard.OnUpdate | farmsense-frontend/src/hooks/useSocket.js:32-35 | handled exactly as a snapshot |
| SocketState.Dashboard.OnAlert | farmsense-frontend/src/hooks/useSocket.js:37-39 | the counter grows by one, the alert with that number goes first, the list is cut to 20, and the list stays within 20, decreasing and numbered up to the counter |
| SocketState.Dashboard.Expire | farmsense-frontend/src/hooks/useSocket.js:40-42 | the entry with that number is filtered out and the invariant holds |

## Left out

- Randomness: `Math.random()` values are parameters (draws in [0, 1)); probabilistic claims (the 3% escape and 2% fever rates) are not stated.
- Time: `new Date().toISOString()` and `Date.now()` are integer millisecond parameters; ISO-8601 text, its parsing and time zones are not modelled.
- Timers and I/O: `setInterval` is the caller invoking `Tick` every interval; the 8-second `setTimeout` is the caller invoking `Dashboard.Expire` with the number `OnAlert` returned; `io.emit` is the event list `Tick` returns; `console.log` is dropped.
- Floating point: readings are exact reals; IEEE-754 double rounding is not modelled.
- Simulator.Step: an id without an entry leaves the tables unchanged; the source would throw on the undefined reading, but only herd ids are ever visited, which `UpdateAnimal`'s precondition and the simulator invariant guarantee.
- Simulator.Run: returns its start value when it is given fewer draws or clock readings than animals; `Tick` always supplies one per animal.
- Simulator.Simulator.Tick: the `updates` map is built after the loop from the final readings of the herd, which is the same value the source accumulates inside the loop.
- getAnimalsState: it returns the live mutable object, so callers alias the simulator's state; the model reads the `animalsState` field and does not model that aliasing.
- GEOFENCE: the Proxy is a direct read of the store's current fields (`Store.IsInside` uses the live polygon).
- POST handler: the `req.io` emit of `geofence:updated` and the log line are not modelled; the response carries the same value that would be emitted.
- GeofenceRoute.Validate: JSON numbers are modelled as reals. `JSON.parse` turns an overflowing literal such as `1e999` into ±Infinity, which passes the `typeof … === "number"` test and is stored as a vertex; the model's reals cannot represent it. (`NaN` has no JSON literal.)
- Helpers.FormatHR: takes an integer rate; a non-integer or `NaN` rate (rendered by JavaScript's number-to-string) is not modelled.
- Helpers.FormatCoords: `undefined` is `None`; `null`, which the source would pass to `toFixed` and throw on, is not modelled.
- Helpers.FormatTemp and Helpers.FormatCoords: `toFixed` is modelled for finite values below 1e21 as exact decimal rounding of a real (halves rounding away from zero); exponent notation and double-precision rounding are not modelled.
- Helpers.TimeSince: the parsed timestamp is an input (None for text that does not parse, giving "NaNm ago"); a non-string argument such as a number is not modelled.
- Helpers.GetStatusColor: takes a string; non-string statuses and keys inherited from `Object.prototype` (such as "toString") are not modelled.
- HistoryHook.ChartPoint: the `toLocaleTimeString("en-GB")` clock label is not modelled.
- HistoryHook.Hook.OnAnimals: requires each map key to equal its reading's id (true of every map the server sends); the iteration order of `Object.values` is not modelled, and the result does not depend on it.
- useSocket: `requestHistory`, the socket object itself, the connection URL and the effect's cleanup are not modelled.
- The Express application, the `/api/animals` routes and the React components are not part of this model.
