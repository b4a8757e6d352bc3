/** The animal-state engine of farmsense-backend/src/simulator/simulator.js:
    per-animal state and bounded histories, the per-tick perturbation of
    position and vitals, status classification against the live geofence,
    breach detection and history queries.

    `Math.random()` is replaced by uniform draws in [0, 1) that the caller
    passes in, and `new Date()` by a millisecond clock reading. */
module Simulator {

  import opened Animals
  import opened Options
  import opened Seqs
  import Geofence
  import Decimal

  const UPDATE_INTERVAL_MS: nat := 3000
  const HISTORY_CAPACITY: nat := 100
  const DEFAULT_HISTORY_LIMIT: int := 50
  const ESCAPE_CHANCE: real := 0.03
  const FEVER_CHANCE: real := 0.02
  /** Decimals kept when a position and a temperature are stored. */
  const COORD_DECIMALS: nat := 6
  const TEMP_DECIMALS: nat := 2

  // ---------------------------------------------------------------------------
  // Numeric helpers
  // ---------------------------------------------------------------------------

  /** A value `Math.random()` can return. */
  type Unit = u: real | 0.0 <= u < 1.0

  predicate IsIntegral(x: real) { x == x.Floor as real }

  /** Scaling a width by a draw in [0, 1) stays within [0, width). */
  lemma ScaleByUnit(u: Unit, w: real)
    requires w >= 0.0
    ensures 0.0 <= u * w <= w
    ensures w > 0.0 ==> u * w < w
  {
    assert (1.0 - u) * w >= 0.0;
    assert w > 0.0 ==> (1.0 - u) * w > 0.0;
  }

  /** `randomInRange(min, max)` for the draw u. */
  function RandomInRange(u: Unit, min: real, max: real): (r: real)
    ensures min <= max ==> min <= r <= max
    ensures min < max ==> r < max
  {
    var width := max - min;
    if width >= 0.0 then ScaleByUnit(u, width); u * width + min
    else u * width + min
  }

  /** `randomIntInRange(min, max)` for the draw u: an integer in [min, max]. */
  function RandomIntInRange(u: Unit, min: int, max: int): (r: int)
    ensures min <= max ==> min <= r <= max
  {
    var width := (max - min + 1) as real;
    if min <= max then ScaleByUnit(u, width); (u * width).Floor + min
    else (u * width).Floor + min
  }

  /** `clamp(value, min, max)` = `Math.min(Math.max(value, min), max)`. */
  function Clamp(value: real, min: real, max: real): (r: real)
    ensures min <= max ==> min <= r <= max
    ensures min <= value <= max ==> r == value
    ensures r == value || r == min || r == max
  {
    var low := if value >= min then value else min;
    if low <= max then low else max
  }

  /** `Math.round`: the nearest integer, halves rounded up. */
  function Round(x: real): (r: real)
    ensures IsIntegral(r)
    ensures x - 0.5 < r <= x + 0.5
  {
    (x + 0.5).Floor as real
  }

  /** Rounding a value between two integers stays between them, and leaves an
      integer as it is. */
  lemma RoundWithin(x: real, lo: int, hi: int)
    requires lo as real <= x <= hi as real
    ensures lo as real <= Round(x) <= hi as real
    ensures IsIntegral(x) ==> Round(x) == x
  {
    var r := Round(x);
    assert r == r.Floor as real;
    assert r.Floor < hi + 1;
    assert r.Floor > lo - 1;
    if IsIntegral(x) {
      assert x.Floor <= r.Floor <= x.Floor;
    }
  }

  /** A temperature as updateAnimal stores it, `parseFloat(t.toFixed(2))`,
      is within 0.005 of t and stays within bounds that have at most two
      decimals. */
  lemma StoredTemperature(t: real, lo: real, hi: real)
    requires 0.0 <= lo <= t <= hi
    requires IsIntegral(lo * 100.0) && IsIntegral(hi * 100.0)
    ensures lo <= Decimal.FixedValue(t, TEMP_DECIMALS) <= hi
    ensures -0.005 <= Decimal.FixedValue(t, TEMP_DECIMALS) - t <= 0.005
  {
    assert Decimal.Pow10(TEMP_DECIMALS) == 100;
    var n := Decimal.Nearest(Decimal.Magnitude(t, TEMP_DECIMALS));
    assert Decimal.Magnitude(t, TEMP_DECIMALS) == t * 100.0;
    assert Decimal.FixedValue(t, TEMP_DECIMALS) == n as real / 100.0;
    var low, high := (lo * 100.0).Floor, (hi * 100.0).Floor;
    assert lo * 100.0 == low as real && hi * 100.0 == high as real;
    assert low <= n by {
      assert low as real < n as real + 0.5;
    }
    assert n <= high by {
      assert n as real - 0.5 <= high as real;
    }
  }

  /** Every species' temperature clamp bounds are positive and have at most
      two decimals, so storage rounding never leaves the clamp range. */
  lemma ClampBoundsTwoDecimals(s: Species)
    ensures var cfg := Config(s);
            && 0.0 <= cfg.tempMin - 0.5
            && IsIntegral((cfg.tempMin - 0.5) * 100.0) && IsIntegral((cfg.tempMax + 2.0) * 100.0)
  {
    match s
    case Cow =>
    case Goat =>
    case Sheep =>
    case Bull =>
  }

  /** A coordinate as updateAnimal stores it, `parseFloat(x.toFixed(6))`, is
      within half a millionth of a degree of x. */
  lemma StoredCoordinate(x: real)
    ensures -0.0000005 <= Decimal.FixedValue(x, COORD_DECIMALS) - x <= 0.0000005
  {
    assert Decimal.Pow10(COORD_DECIMALS) == 1000000;
    var n := Decimal.Nearest(Decimal.Magnitude(x, COORD_DECIMALS));
    assert Decimal.Magnitude(x, COORD_DECIMALS) == Decimal.Abs(x) * 1000000.0;
    assert n as real - 0.5 <= Decimal.Abs(x) * 1000000.0 < n as real + 0.5;
  }

  function Sum(xs: seq<real>): real
  {
    if xs == [] then 0.0 else Sum(xs[..|xs| - 1]) + xs[|xs| - 1]
  }

  lemma {:induction false} SumBounds(xs: seq<real>, lo: real, hi: real)
    requires forall i :: 0 <= i < |xs| ==> lo <= xs[i] <= hi
    ensures |xs| as real * lo <= Sum(xs) <= |xs| as real * hi
  {
    if xs != [] {
      SumBounds(xs[..|xs| - 1], lo, hi);
    }
  }

  /** `average(arr)` of a non-empty array. */
  function Average(xs: seq<real>): real
    requires xs != []
  {
    Sum(xs) / |xs| as real
  }

  /** The average lies between any common bounds of the values, so the
      initial herd centre lies within the boundary's bounding box. */
  lemma AverageBounds(xs: seq<real>, lo: real, hi: real)
    requires xs != []
    requires forall i :: 0 <= i < |xs| ==> lo <= xs[i] <= hi
    ensures lo <= Average(xs) <= hi
  {
    SumBounds(xs, lo, hi);
    var n := |xs| as real;
    assert Sum(xs) / n >= (n * lo) / n;
    assert Sum(xs) / n <= (n * hi) / n;
  }

  function Lats(polygon: seq<Geofence.Vertex>): (r: seq<real>)
    ensures |r| == |polygon| && forall i :: 0 <= i < |r| ==> r[i] == polygon[i].lat
  {
    seq(|polygon|, i requires 0 <= i < |polygon| => polygon[i].lat)
  }

  function Lngs(polygon: seq<Geofence.Vertex>): (r: seq<real>)
    ensures |r| == |polygon| && forall i :: 0 <= i < |r| ==> r[i] == polygon[i].lng
  {
    seq(|polygon|, i requires 0 <= i < |polygon| => polygon[i].lng)
  }

  /** The centre initAnimals spreads the herd around lies inside any box
      that holds every vertex of the fence. */
  lemma CentreInBox(polygon: seq<Geofence.Vertex>, lo: Geofence.Vertex, hi: Geofence.Vertex)
    requires polygon != []
    requires forall i :: 0 <= i < |polygon| ==>
               lo.lat <= polygon[i].lat <= hi.lat && lo.lng <= polygon[i].lng <= hi.lng
    ensures lo.lat <= Average(Lats(polygon)) <= hi.lat
    ensures lo.lng <= Average(Lngs(polygon)) <= hi.lng
  {
    AverageBounds(Lats(polygon), lo.lat, hi.lat);
    AverageBounds(Lngs(polygon), lo.lng, hi.lng);
  }

  // ---------------------------------------------------------------------------
  // Initial state
  // ---------------------------------------------------------------------------

  /** The draws initAnimals makes for one animal. */
  datatype InitDraws = InitDraws(temperature: Unit, heartRate: Unit)

  /** The reading initAnimals gives the animal at position `index` of the herd:
      spread diagonally around the boundary centre, vitals drawn inside the
      species' normal ranges, inside the fence and in normal status. */
  function InitialReading(a: Profile, index: int, centreLat: real, centreLng: real, d: InitDraws, now: int): (r: Reading)
    ensures r.profile == a && r.insideGeofence && r.status == Normal
    ensures Config(a.species).tempMin <= r.temperature < Config(a.species).tempMax
    ensures Config(a.species).hrMin as real <= r.heartRate <= Config(a.species).hrMax as real
    ensures IsIntegral(r.heartRate)
  {
    var cfg := Config(a.species);
    RangesOrdered(a.species);
    var offset := (index - 2) as real * 0.0005;
    Reading(a,
      centreLat + offset,
      centreLng + offset,
      RandomInRange(d.temperature, cfg.tempMin, cfg.tempMax),
      RandomIntInRange(d.heartRate, cfg.hrMin, cfg.hrMax) as real,
      true, Normal, now)
  }

  // ---------------------------------------------------------------------------
  // One update of one animal
  // ---------------------------------------------------------------------------

  /** The draws updateAnimal makes for one animal in one tick. The offset
      draws serve the escape jump or the drift, whichever is taken; `spike`
      is only used on a fever tick. */
  datatype Draws = Draws(
    escape: Unit,
    latOffset: Unit,
    latSign: Unit,
    lngOffset: Unit,
    lngSign: Unit,
    fever: Unit,
    tempStep: Unit,
    spike: Unit,
    hrStep: Unit)

  function Abs(x: real): real { if x < 0.0 then -x else x }

  function Sign(u: real): real { if u > 0.5 then 1.0 else -1.0 }

  /** The candidate position: with probability ESCAPE_CHANCE a jump of
      0.004 to 0.007 degrees on each axis with a random sign, otherwise a
      drift of at most 0.0003 degrees on each axis. */
  function NextLat(lat: real, d: Draws): (r: real)
    ensures d.escape < ESCAPE_CHANCE ==> 0.004 <= Abs(r - lat) <= 0.007
    ensures d.escape >= ESCAPE_CHANCE ==> Abs(r - lat) <= 0.0003
  {
    if d.escape < ESCAPE_CHANCE then lat + RandomInRange(d.latOffset, 0.004, 0.007) * Sign(d.latSign)
    else lat + RandomInRange(d.latOffset, -0.0003, 0.0003)
  }

  function NextLng(lng: real, d: Draws): (r: real)
    ensures d.escape < ESCAPE_CHANCE ==> 0.004 <= Abs(r - lng) <= 0.007
    ensures d.escape >= ESCAPE_CHANCE ==> Abs(r - lng) <= 0.0003
  {
    if d.escape < ESCAPE_CHANCE then lng + RandomInRange(d.lngOffset, 0.004, 0.007) * Sign(d.lngSign)
    else lng + RandomInRange(d.lngOffset, -0.0003, 0.0003)
  }

  /** The new temperature: a step of at most 0.05, an extra 0.5 to 1.5 on a
      fever tick, clamped into [tempMin - 0.5, tempMax + 2.0]. */
  function NextTemperature(temp: real, cfg: VitalsRange, d: Draws): (r: real)
    requires cfg.tempMin <= cfg.tempMax
    ensures cfg.tempMin - 0.5 <= r <= cfg.tempMax + 2.0
    ensures var raw := temp + RandomInRange(d.tempStep, -0.05, 0.05);
            d.fever >= FEVER_CHANCE && cfg.tempMin - 0.5 <= raw <= cfg.tempMax + 2.0 ==> r == raw
  {
    var walked := temp + RandomInRange(d.tempStep, -0.05, 0.05);
    var spiked := if d.fever < FEVER_CHANCE then walked + RandomInRange(d.spike, 0.5, 1.5) else walked;
    Clamp(spiked, cfg.tempMin - 0.5, cfg.tempMax + 2.0)
  }

  /** The new heart rate before rounding: a step of -3 to 3 bpm, clamped into
      [hrMin - 5, hrMax + 20]. */
  function NextHeartRate(hr: real, cfg: VitalsRange, d: Draws): (r: real)
    requires cfg.hrMin <= cfg.hrMax
    ensures (cfg.hrMin - 5) as real <= r <= (cfg.hrMax + 20) as real
    ensures IsIntegral(hr) ==> IsIntegral(r)
    ensures (cfg.hrMin - 5) as real <= hr - 3.0 && hr + 3.0 <= (cfg.hrMax + 20) as real ==> Abs(r - hr) <= 3.0
  {
    var stepped := hr + RandomIntInRange(d.hrStep, -3, 3) as real;
    var r := Clamp(stepped, (cfg.hrMin - 5) as real, (cfg.hrMax + 20) as real);
    assert IsIntegral(hr) ==> IsIntegral(stepped) by {
      if IsIntegral(hr) {
        assert stepped == (hr.Floor + RandomIntInRange(d.hrStep, -3, 3)) as real;
      }
    }
    r
  }

  /** The status rules, in order: outside the fence is an alert whatever the
      vitals; inside, a temperature above tempMax + 0.5 or a heart rate above
      hrMax + 10 is a warning; anything else is normal. */
  function Classify(inside: bool, temp: real, hr: real, cfg: VitalsRange): (s: Status)
    ensures s == Alert <==> !inside
    ensures s == Warning <==> inside && (temp > cfg.tempMax + 0.5 || hr > (cfg.hrMax + 10) as real)
    ensures s == Normal <==> inside && temp <= cfg.tempMax + 0.5 && hr <= (cfg.hrMax + 10) as real
  {
    if !inside then Alert
    else if temp > cfg.tempMax + 0.5 || hr > (cfg.hrMax + 10) as real then Warning
    else Normal
  }

  /** The reading updateAnimal stores for `current`, given the draws, the live
      polygon and the clock. The fence test and the status are computed on
      the new position and temperature before they are rounded for storage
      (six and two decimals); the heart rate is rounded to a whole number. */
  function NextReading(current: Reading, d: Draws, polygon: seq<Geofence.Vertex>, now: int): (r: Reading)
    ensures r.profile == current.profile && r.lastUpdate == now
    ensures var lat, lng := NextLat(current.lat, d), NextLng(current.lng, d);
            && (r.insideGeofence <==> Geofence.InsideAsWritten(lat, lng, polygon))
            && -0.0000005 <= r.lat - lat <= 0.0000005
            && -0.0000005 <= r.lng - lng <= 0.0000005
    ensures var cfg := Config(current.profile.species);
            && cfg.tempMin - 0.5 <= r.temperature <= cfg.tempMax + 2.0
            && -0.005 <= r.temperature - NextTemperature(current.temperature, cfg, d) <= 0.005
            && (cfg.hrMin - 5) as real <= r.heartRate <= (cfg.hrMax + 20) as real
            && IsIntegral(r.heartRate)
  {
    var cfg := Config(current.profile.species);
    RangesOrdered(current.profile.species);
    var lat := NextLat(current.lat, d);
    var lng := NextLng(current.lng, d);
    var temp := NextTemperature(current.temperature, cfg, d);
    var hr := NextHeartRate(current.heartRate, cfg, d);
    var inside := Geofence.InsideAsWritten(lat, lng, polygon);
    RoundWithin(hr, cfg.hrMin - 5, cfg.hrMax + 20);
    StoredCoordinate(lat);
    StoredCoordinate(lng);
    assert -0.005 <= Decimal.FixedValue(temp, TEMP_DECIMALS) - temp <= 0.005
        && cfg.tempMin - 0.5 <= Decimal.FixedValue(temp, TEMP_DECIMALS) <= cfg.tempMax + 2.0 by {
      ClampBoundsTwoDecimals(current.profile.species);
      StoredTemperature(temp, cfg.tempMin - 0.5, cfg.tempMax + 2.0);
    }
    Reading(current.profile, Decimal.FixedValue(lat, COORD_DECIMALS), Decimal.FixedValue(lng, COORD_DECIMALS), Decimal.FixedValue(temp, TEMP_DECIMALS),
            Round(hr), inside, Classify(inside, temp, hr, cfg), now)
  }

  /** For an animal whose heart rate is a whole number (as the model keeps it),
      the stored status follows the status rules applied to the stored heart
      rate and to the temperature before it was rounded to two decimals. */
  lemma StatusRules(current: Reading, d: Draws, polygon: seq<Geofence.Vertex>, now: int)
    requires IsIntegral(current.heartRate)
    ensures var r := NextReading(current, d, polygon, now);
            var cfg := Config(current.profile.species);
            var temp := NextTemperature(current.temperature, cfg, d);
            && (r.status == Alert <==> !r.insideGeofence)
            && (r.status == Warning <==> r.insideGeofence && (temp > cfg.tempMax + 0.5 || r.heartRate > (cfg.hrMax + 10) as real))
            && (r.status == Normal <==> r.insideGeofence && temp <= cfg.tempMax + 0.5 && r.heartRate <= (cfg.hrMax + 10) as real)
  {
    var cfg := Config(current.profile.species);
    RangesOrdered(current.profile.species);
    var hr := NextHeartRate(current.heartRate, cfg, d);
    RoundWithin(hr, cfg.hrMin - 5, cfg.hrMax + 20);
  }

  /** Because the status is decided before the rounding, a stored reading
      can carry a warning that its own stored temperature does not explain:
      a cow at 40.004 degrees that stays put is stored at 40.0, the cow's
      threshold, yet is classed as a warning when inside the fence. */
  lemma WarningAboveStoredTemperature(current: Reading, d: Draws, polygon: seq<Geofence.Vertex>, now: int)
    requires current.profile.species == Cow && current.temperature == 40.004
    requires d.tempStep == 0.5 && d.fever >= FEVER_CHANCE
    ensures var r := NextReading(current, d, polygon, now);
            && r.temperature == 40.0 == Config(Cow).tempMax + 0.5
            && (r.insideGeofence ==> r.status == Warning)
  {
    assert RandomInRange(d.tempStep, -0.05, 0.05) == 0.0;
    assert NextTemperature(current.temperature, Config(Cow), d) == 40.004;
    assert Decimal.Pow10(2) == 100;
    assert Decimal.Magnitude(40.004, 2) == 400.04 * 10.0;
    assert Decimal.Nearest(4000.4) == 4000;
  }

  /** A cow whose raw temperature would reach 42.0 is stored at 41.5, its
      species maximum plus 2.0. */
  lemma CowFeverClamped(current: Reading, d: Draws, polygon: seq<Geofence.Vertex>, now: int)
    requires current.profile.species == Cow
    requires current.temperature + RandomInRange(d.tempStep, -0.05, 0.05) +
             (if d.fever < FEVER_CHANCE then RandomInRange(d.spike, 0.5, 1.5) else 0.0) == 42.0
    ensures NextReading(current, d, polygon, now).temperature == 41.5
  {
    assert NextTemperature(current.temperature, Config(Cow), d) == 41.5;
    assert Decimal.Pow10(2) == 100;
    assert Decimal.Nearest(Decimal.Magnitude(41.5, 2)) == 4150;
  }

  /** The history entry that mirrors a reading. */
  function SnapshotOf(r: Reading): Snapshot
  {
    Snapshot(r.lastUpdate, r.lat, r.lng, r.temperature, r.heartRate, r.insideGeofence, r.status)
  }

  /** Push, then shift once when the history has grown past its capacity. */
  function Record(h: seq<Snapshot>, s: Snapshot): (r: seq<Snapshot>)
    ensures |r| > 0 && r[|r| - 1] == s
  {
    var pushed := h + [s];
    if |pushed| > HISTORY_CAPACITY then pushed[1..] else pushed
  }

  /** A history within capacity stays within capacity, keeping the newest
      entries in order with the new one last. */
  lemma RecordKeepsNewest(h: seq<Snapshot>, s: Snapshot)
    requires |h| <= HISTORY_CAPACITY
    ensures Record(h, s) == Newest(HISTORY_CAPACITY, h + [s])
    ensures |Record(h, s)| == Min(|h| + 1, HISTORY_CAPACITY)
  {
  }

  /** The history after recording each of ss in turn. */
  function RecordAll(h: seq<Snapshot>, ss: seq<Snapshot>): seq<Snapshot>
    decreases |ss|
  {
    if ss == [] then h else RecordAll(Record(h, ss[0]), ss[1..])
  }

  /** However many updates are recorded, the history holds exactly the newest
      HISTORY_CAPACITY snapshots (or all of them, if fewer), oldest first. */
  lemma {:induction false} RecordAllKeepsNewest(h: seq<Snapshot>, ss: seq<Snapshot>)
    requires |h| <= HISTORY_CAPACITY
    ensures RecordAll(h, ss) == Newest(HISTORY_CAPACITY, h + ss)
    decreases |ss|
  {
    if ss != [] {
      RecordFirstKeepsNewest(h, ss);
      RecordAllKeepsNewest(Record(h, ss[0]), ss[1..]);
    }
  }

  /** Recording the first of ss and then keeping the newest entries of the
      rest is the same as keeping the newest entries of h + ss. */
  lemma RecordFirstKeepsNewest(h: seq<Snapshot>, ss: seq<Snapshot>)
    requires |h| <= HISTORY_CAPACITY && ss != []
    ensures |Record(h, ss[0])| <= HISTORY_CAPACITY
    ensures Newest(HISTORY_CAPACITY, Record(h, ss[0]) + ss[1..]) == Newest(HISTORY_CAPACITY, h + ss)
  {
    RecordKeepsNewest(h, ss[0]);
    NewestAppend(HISTORY_CAPACITY, h + [ss[0]], ss[1..]);
    assert h + [ss[0]] + ss[1..] == h + ss;
  }

  /** After more than HISTORY_CAPACITY updates from an empty history, the
      history is exactly the last HISTORY_CAPACITY snapshots. */
  lemma HistoryAfterManyUpdates(ss: seq<Snapshot>)
    requires |ss| > HISTORY_CAPACITY
    ensures RecordAll([], ss) == ss[|ss| - HISTORY_CAPACITY..]
  {
    RecordAllKeepsNewest([], ss);
    assert [] + ss == ss;
  }

  // ---------------------------------------------------------------------------
  // Breach detection
  // ---------------------------------------------------------------------------

  predicate Breached(before: Reading, after: Reading)
  {
    before.insideGeofence && !after.insideGeofence
  }

  function BreachFor(a: Profile, after: Reading): BreachAlert
  {
    BreachAlert(BREACH_KIND, a.id, a.name, after.lastUpdate,
      "\U{26A0}\U{FE0F} " + a.name + " has left the farm boundaries!")
  }

  /** The alerts a tick raises: one per animal that went from inside to
      outside, in herd order. */
  /** Every animal has a reading before and after. */
  predicate Present(animals: seq<Profile>, before: map<string, Reading>, after: map<string, Reading>)
  {
    forall i :: 0 <= i < |animals| ==> animals[i].id in before && animals[i].id in after
  }

  function Breaches(animals: seq<Profile>, before: map<string, Reading>, after: map<string, Reading>): seq<BreachAlert>
    requires Present(animals, before, after)
  {
    if animals == [] then []
    else
      var last := animals[|animals| - 1];
      Breaches(animals[..|animals| - 1], before, after) +
      (if Breached(before[last.id], after[last.id]) then [BreachFor(last, after[last.id])] else [])
  }

  /** An alert names an animal exactly when that animal breached, and there
      are no more alerts than animals looked at. */
  lemma {:induction false} BreachesExactly(animals: seq<Profile>, before: map<string, Reading>, after: map<string, Reading>)
    requires Present(animals, before, after)
    ensures (set al <- Breaches(animals, before, after) :: al.animalId)
         == (set a <- animals | Breached(before[a.id], after[a.id]) :: a.id)
    ensures |Breaches(animals, before, after)| <= |animals|
  {
    if animals != [] {
      var init, last := animals[..|animals| - 1], animals[|animals| - 1];
      BreachesExactly(init, before, after);
      assert animals == init + [last];
      var extra := if Breached(before[last.id], after[last.id]) then [BreachFor(last, after[last.id])] else [];
      var ids := if Breached(before[last.id], after[last.id]) then {last.id} else {};
      assert Breaches(animals, before, after) == Breaches(init, before, after) + extra;
      assert (set al <- Breaches(animals, before, after) :: al.animalId)
          == (set al <- Breaches(init, before, after) :: al.animalId) + ids;
      assert (set a <- animals | Breached(before[a.id], after[a.id]) :: a.id)
          == (set a <- init | Breached(before[a.id], after[a.id]) :: a.id) + ids;
    }
  }

  /** No two alerts in `alerts` name the same animal. */
  predicate OnePerAnimal(alerts: seq<BreachAlert>)
  {
    forall i, j :: 0 <= i < j < |alerts| ==> alerts[i].animalId != alerts[j].animalId
  }

  /** In a herd with distinct ids no two alerts name the same animal: each
      breaching animal gets exactly one alert. */
  lemma {:induction false} BreachesOnePerAnimal(animals: seq<Profile>, before: map<string, Reading>, after: map<string, Reading>)
    requires Present(animals, before, after) && DistinctIds(animals)
    ensures OnePerAnimal(Breaches(animals, before, after))
  {
    if animals != [] {
      var init, last := animals[..|animals| - 1], animals[|animals| - 1];
      assert DistinctIds(init);
      var b0 := Breaches(init, before, after);
      assert Present(init, before, after) by {
        forall i | 0 <= i < |init| ensures init[i].id in before && init[i].id in after {
          assert init[i] == animals[i];
        }
      }
      BreachesOnePerAnimal(init, before, after);
      assert forall k :: 0 <= k < |b0| ==> b0[k].animalId != last.id by {
        BreachesSound(init, before, after);
        forall k | 0 <= k < |b0| ensures b0[k].animalId != last.id {
          assert b0[k] in b0;
          var i :| 0 <= i < |init| && Breached(before[init[i].id], after[init[i].id])
                   && b0[k] == BreachFor(init[i], after[init[i].id]);
          assert init[i] == animals[i];
        }
      }
      var extra := if Breached(before[last.id], after[last.id]) then [BreachFor(last, after[last.id])] else [];
      var b := b0 + extra;
      assert Breaches(animals, before, after) == b;
      forall i, j | 0 <= i < j < |b| ensures b[i].animalId != b[j].animalId {
        assert b[i] == b0[i];
        if j >= |b0| {
          assert b[j].animalId == last.id;
          assert b0[i].animalId != last.id;
        } else {
          assert b[j] == b0[j];
          assert OnePerAnimal(b0);
        }
      }
    }
  }

  /** Every alert is the alert of an animal that breached, carrying its name
      and the time of the breaching reading. */
  lemma {:induction false} BreachesSound(animals: seq<Profile>, before: map<string, Reading>, after: map<string, Reading>)
    requires Present(animals, before, after)
    ensures forall al <- Breaches(animals, before, after) ::
              exists i :: 0 <= i < |animals| && Breached(before[animals[i].id], after[animals[i].id])
                          && al == BreachFor(animals[i], after[animals[i].id])
  {
    if animals != [] {
      var init := animals[..|animals| - 1];
      BreachesSound(init, before, after);
    }
  }

  /** Breaches only depends on the readings of the animals it looks at. */
  lemma {:induction false} BreachesFrame(animals: seq<Profile>, before: map<string, Reading>, after: map<string, Reading>, after': map<string, Reading>)
    requires Present(animals, before, after) && Present(animals, before, after')
    requires forall i :: 0 <= i < |animals| ==> after[animals[i].id] == after'[animals[i].id]
    ensures Breaches(animals, before, after) == Breaches(animals, before, after')
  {
    if animals != [] {
      var init := animals[..|animals| - 1];
      assert forall a <- init :: a in animals;
      BreachesFrame(init, before, after, after');
    }
  }

  /** One more animal at the end adds its own alert, if any. */
  lemma BreachesSnoc(animals: seq<Profile>, n: nat, before: map<string, Reading>, mid: map<string, Reading>, after: map<string, Reading>)
    requires n < |animals|
    requires Present(animals[..n + 1], before, after) && Present(animals[..n], before, mid)
    requires forall i :: 0 <= i < n ==> after[animals[i].id] == mid[animals[i].id]
    ensures Breaches(animals[..n + 1], before, after)
         == Breaches(animals[..n], before, mid) +
            (if Breached(before[animals[n].id], after[animals[n].id]) then [BreachFor(animals[n], after[animals[n].id])] else [])
  {
    assert animals[..n + 1][..n] == animals[..n];
    BreachesFrame(animals[..n], before, mid, after);
  }

  /** What a tick emits, in order. */
  datatype Event = AnimalsUpdate(updates: map<string, Reading>) | AnimalAlert(alert: BreachAlert)

  function AlertEvents(alerts: seq<BreachAlert>): (r: seq<Event>)
    ensures |r| == |alerts| && forall i :: 0 <= i < |r| ==> r[i] == AnimalAlert(alerts[i])
  {
    seq(|alerts|, i requires 0 <= i < |alerts| => AnimalAlert(alerts[i]))
  }

  /** getHistory answers with one animal's entries or with every animal's,
      or throws a TypeError (see GetHistory). */
  datatype HistoryResult = One(entries: seq<Snapshot>) | All(byId: map<string, seq<Snapshot>>) | TypeError

  /** The properties every plain object inherits from `Object.prototype`. The
      history table is an object literal, so looking one of these names up
      finds a function (or, for "__proto__", the prototype itself): a truthy
      value that has no `slice` method. */
  const INHERITED_KEYS: set<string> :=
    {"constructor", "toString", "toLocaleString", "valueOf", "hasOwnProperty",
     "isPrototypeOf", "propertyIsEnumerable", "__proto__", "__defineGetter__",
     "__defineSetter__", "__lookupGetter__", "__lookupSetter__"}

  // ---------------------------------------------------------------------------
  // The two module-level tables as a value
  // ---------------------------------------------------------------------------

  /** No two animals of a herd share an id. */
  predicate DistinctIds(herd: seq<Profile>)
  {
    forall i, j :: 0 <= i < j < |herd| ==> herd[i].id != herd[j].id
  }

  function IdsOf(herd: seq<Profile>): set<string>
  {
    set a <- herd :: a.id
  }

  lemma IdsOfSnoc(herd: seq<Profile>, n: nat)
    requires n < |herd|
    ensures IdsOf(herd[..n + 1]) == IdsOf(herd[..n]) + {herd[n].id}
  {
    assert herd[..n + 1] == herd[..n] + [herd[n]];
  }

  /** The readings of the herd's animals, by id: what a tick emits. */
  function Batch(readings: map<string, Reading>, herd: seq<Profile>): (r: map<string, Reading>)
    requires forall a <- herd :: a.id in readings
    ensures r.Keys == IdsOf(herd) && forall id <- r.Keys :: r[id] == readings[id]
  {
    map id | id in IdsOf(herd) :: readings[id]
  }

  lemma HerdIdsDistinct()
    ensures DistinctIds(ANIMALS)
  {
    AnimalIdsDistinct();
  }

  /** `animalsState` and `history`: the current reading and the history of
      each animal, by id. */
  datatype Tables = Tables(readings: map<string, Reading>, histories: map<string, seq<Snapshot>>)

  /** Both tables have an entry for every animal of the herd. */
  predicate Covers(t: Tables, herd: seq<Profile>)
  {
    forall a <- herd :: a.id in t.readings && a.id in t.histories
  }

  /** The animal has a reading carrying its own profile and a whole-number
      heart rate, and a history within capacity. */
  predicate EntryOk(t: Tables, a: Profile)
  {
    && a.id in t.readings && a.id in t.histories
    && t.readings[a.id].profile == a
    && IsIntegral(t.readings[a.id].heartRate)
    && |t.histories[a.id]| <= HISTORY_CAPACITY
  }

  /** Every animal of the herd has a well-formed entry. */
  predicate WellFormed(t: Tables, herd: seq<Profile>)
  {
    forall i :: 0 <= i < |herd| ==> EntryOk(t, herd[i])
  }

  // ---------------------------------------------------------------------------
  // initAnimals on the tables
  // ---------------------------------------------------------------------------

  /** The tables once initAnimals has placed the first k animals of the
      herd; the animal at position n gets offset index n, the n-th clock
      reading as its timestamp (the clock is read once per animal) and an
      empty history. */
  function Init(herd: seq<Profile>, centreLat: real, centreLng: real, draws: seq<InitDraws>, clock: seq<int>, k: nat): Tables
    requires k <= |herd| && |draws| == |herd| && |clock| == |herd|
  {
    if k == 0 then Tables(map[], map[])
    else
      var t := Init(herd, centreLat, centreLng, draws, clock, k - 1);
      Tables(t.readings[herd[k - 1].id := InitialReading(herd[k - 1], k - 1, centreLat, centreLng, draws[k - 1], clock[k - 1])],
             t.histories[herd[k - 1].id := []])
  }

  /** initAnimals makes an entry in both tables for each animal it has
      placed and for nothing else, and every history it makes is empty. */
  lemma {:induction false} InitShape(herd: seq<Profile>, centreLat: real, centreLng: real, draws: seq<InitDraws>, clock: seq<int>, k: nat)
    requires k <= |herd| && |draws| == |herd| && |clock| == |herd|
    ensures var t := Init(herd, centreLat, centreLng, draws, clock, k);
            && t.readings.Keys == IdsOf(herd[..k]) && t.histories.Keys == IdsOf(herd[..k])
            && (forall id <- t.histories.Keys :: t.histories[id] == [])
  {
    if k > 0 {
      InitShape(herd, centreLat, centreLng, draws, clock, k - 1);
      IdsOfSnoc(herd, k - 1);
    }
  }

  /** With distinct ids, each placed animal has the reading made from its
      own position in the herd and its own draws. */
  lemma {:induction false} InitAt(herd: seq<Profile>, centreLat: real, centreLng: real, draws: seq<InitDraws>, clock: seq<int>, k: nat, i: nat)
    requires DistinctIds(herd) && i < k <= |herd| && |draws| == |herd| && |clock| == |herd|
    ensures var t := Init(herd, centreLat, centreLng, draws, clock, k);
            && herd[i].id in t.readings && herd[i].id in t.histories
            && t.readings[herd[i].id] == InitialReading(herd[i], i, centreLat, centreLng, draws[i], clock[i])
            && t.histories[herd[i].id] == []
  {
    if i < k - 1 {
      InitAt(herd, centreLat, centreLng, draws, clock, k - 1, i);
      assert herd[i].id != herd[k - 1].id;
    }
  }

  /** initAnimals over the whole herd gives exactly the herd's ids entries,
      is well formed, and places every animal by its position. */
  lemma InitWellFormed(herd: seq<Profile>, centreLat: real, centreLng: real, draws: seq<InitDraws>, clock: seq<int>)
    requires DistinctIds(herd) && |draws| == |herd| && |clock| == |herd|
    ensures var t := Init(herd, centreLat, centreLng, draws, clock, |herd|);
            && t.readings.Keys == IdsOf(herd) && t.histories.Keys == IdsOf(herd)
            && WellFormed(t, herd)
            && forall i :: 0 <= i < |herd| ==>
                 t.readings[herd[i].id] == InitialReading(herd[i], i, centreLat, centreLng, draws[i], clock[i])
  {
    InitShape(herd, centreLat, centreLng, draws, clock, |herd|);
    assert herd[..|herd|] == herd;
    forall i | 0 <= i < |herd| {
      InitAt(herd, centreLat, centreLng, draws, clock, |herd|, i);
    }
  }

  // ---------------------------------------------------------------------------
  // updateAnimal and the tick loop on the tables
  // ---------------------------------------------------------------------------

  /** `updateAnimal(animal)` on the tables: the animal's reading is replaced
      by the next one, and a snapshot of it is recorded in its history. An
      id without entries leaves the tables alone (the source would fail on
      it; WellFormed rules it out). */
  function Step(t: Tables, id: string, d: Draws, polygon: seq<Geofence.Vertex>, now: int): Tables
  {
    if id in t.readings && id in t.histories then
      var updated := NextReading(t.readings[id], d, polygon, now);
      Tables(t.readings[id := updated], t.histories[id := Record(t.histories[id], SnapshotOf(updated))])
    else t
  }

  /** updateAnimal keeps the tables well formed. */
  lemma StepWellFormed(t: Tables, herd: seq<Profile>, j: nat, d: Draws, polygon: seq<Geofence.Vertex>, now: int)
    requires DistinctIds(herd) && WellFormed(t, herd) && j < |herd|
    ensures herd[j].id in t.readings && herd[j].id in t.histories
    ensures WellFormed(Step(t, herd[j].id, d, polygon, now), herd)
  {
    var r := Step(t, herd[j].id, d, polygon, now);
    forall i | 0 <= i < |herd| ensures EntryOk(r, herd[i]) {
      if i == j {
        RecordKeepsNewest(t.histories[herd[j].id], SnapshotOf(r.readings[herd[j].id]));
      } else {
        assert herd[i].id != herd[j].id;
      }
    }
  }

  /** The tables once a tick has updated the first k animals of the herd in
      order, each update reading the tables as the previous ones left them
      and taking the k-th draws and clock reading. Past the end of the herd,
      or of its inputs, there is nothing left to update. */
  function Run(t: Tables, herd: seq<Profile>, draws: seq<Draws>, clock: seq<int>, polygon: seq<Geofence.Vertex>, k: nat): Tables
  {
    if k == 0 || k > |herd| || k > |draws| || k > |clock| then t
    else Step(Run(t, herd, draws, clock, polygon, k - 1), herd[k - 1].id, draws[k - 1], polygon, clock[k - 1])
  }

  /** The alert, if any, raised while the animal is updated from tables t:
      its reading before the update was inside the fence and the new one is
      not. */
  function StepAlert(t: Tables, a: Profile, d: Draws, polygon: seq<Geofence.Vertex>, now: int): seq<BreachAlert>
  {
    if a.id in t.readings && a.id in t.histories then
      var updated := NextReading(t.readings[a.id], d, polygon, now);
      if Breached(t.readings[a.id], updated) then [BreachFor(a, updated)] else []
    else []
  }

  lemma StepAlertIs(t: Tables, a: Profile, d: Draws, polygon: seq<Geofence.Vertex>, now: int)
    requires a.id in t.readings && a.id in t.histories
    ensures var updated := Step(t, a.id, d, polygon, now).readings[a.id];
            StepAlert(t, a, d, polygon, now)
              == if t.readings[a.id].insideGeofence && !updated.insideGeofence then [BreachFor(a, updated)] else []
  {
  }

  /** updateAnimal leaves every other animal's entries alone. */
  lemma StepOther(t: Tables, id: string, d: Draws, polygon: seq<Geofence.Vertex>, now: int, other: string)
    requires other != id
    ensures var r := Step(t, id, d, polygon, now);
            && (other in r.readings <==> other in t.readings) && (other in r.histories <==> other in t.histories)
            && (other in t.readings ==> r.readings[other] == t.readings[other])
            && (other in t.histories ==> r.histories[other] == t.histories[other])
  {
  }

  /** updateAnimal on the j-th animal leaves the readings of the animals
      before it alone. */
  lemma StepKeepsPrefix(t: Tables, herd: seq<Profile>, j: nat, d: Draws, polygon: seq<Geofence.Vertex>, now: int)
    requires DistinctIds(herd) && Covers(t, herd) && j < |herd|
    ensures var r := Step(t, herd[j].id, d, polygon, now);
            && Present(herd[..j + 1], t.readings, r.readings)
            && forall i :: 0 <= i < j ==> r.readings[herd[i].id] == t.readings[herd[i].id]
  {
    var r := Step(t, herd[j].id, d, polygon, now);
    forall i | 0 <= i <= j ensures herd[i].id in t.readings && herd[i].id in r.readings {
      assert herd[i] in herd;
    }
    forall i | 0 <= i < j ensures r.readings[herd[i].id] == t.readings[herd[i].id] {
      StepOther(t, herd[j].id, d, polygon, now, herd[i].id);
    }
  }

  /** The alerts a tick has collected once it has updated the first k
      animals. */
  function RunAlerts(t: Tables, herd: seq<Profile>, draws: seq<Draws>, clock: seq<int>, polygon: seq<Geofence.Vertex>, k: nat): seq<BreachAlert>
  {
    if k == 0 || k > |herd| || k > |draws| || k > |clock| then []
    else
      RunAlerts(t, herd, draws, clock, polygon, k - 1) +
      StepAlert(Run(t, herd, draws, clock, polygon, k - 1), herd[k - 1], draws[k - 1], polygon, clock[k - 1])
  }

  /** One more animal updated: the tables and the alerts grow by one step. */
  lemma RunNext(t: Tables, herd: seq<Profile>, draws: seq<Draws>, clock: seq<int>, polygon: seq<Geofence.Vertex>, k: nat)
    requires Covers(t, herd) && k < |herd| && |draws| == |herd| && |clock| == |herd|
    ensures var before := Run(t, herd, draws, clock, polygon, k);
            && herd[k].id in before.readings && herd[k].id in before.histories
            && Run(t, herd, draws, clock, polygon, k + 1) == Step(before, herd[k].id, draws[k], polygon, clock[k])
            && RunAlerts(t, herd, draws, clock, polygon, k + 1)
                 == RunAlerts(t, herd, draws, clock, polygon, k) + StepAlert(before, herd[k], draws[k], polygon, clock[k])
  {
    RunCovers(t, herd, draws, clock, polygon, k);
    assert herd[k] in herd;
  }

  /** A tick keeps an entry for every animal of the herd. */
  lemma {:induction false} RunCovers(t: Tables, herd: seq<Profile>, draws: seq<Draws>, clock: seq<int>, polygon: seq<Geofence.Vertex>, k: nat)
    requires Covers(t, herd)
    requires k <= |herd| && |draws| == |herd| && |clock| == |herd|
    ensures Covers(Run(t, herd, draws, clock, polygon, k), herd)
  {
    if k > 0 {
      RunCovers(t, herd, draws, clock, polygon, k - 1);
    }
  }

  /** A tick keeps the tables well formed. */
  lemma {:induction false} RunWellFormed(t: Tables, herd: seq<Profile>, draws: seq<Draws>, clock: seq<int>, polygon: seq<Geofence.Vertex>, k: nat)
    requires DistinctIds(herd) && WellFormed(t, herd)
    requires k <= |herd| && |draws| == |herd| && |clock| == |herd|
    ensures WellFormed(Run(t, herd, draws, clock, polygon, k), herd)
  {
    if k > 0 {
      var before := Run(t, herd, draws, clock, polygon, k - 1);
      var after := Step(before, herd[k - 1].id, draws[k - 1], polygon, clock[k - 1]);
      assert WellFormed(after, herd) by {
        RunWellFormed(t, herd, draws, clock, polygon, k - 1);
        StepWellFormed(before, herd, k - 1, draws[k - 1], polygon, clock[k - 1]);
      }
      assert Run(t, herd, draws, clock, polygon, k) == after;
    }
  }

  /** With distinct ids, once a tick has updated the first k animals, each
      of them has been updated exactly once, from its reading before the
      tick, and the others are as before. */
  lemma {:induction false} RunAt(t: Tables, herd: seq<Profile>, draws: seq<Draws>, clock: seq<int>, polygon: seq<Geofence.Vertex>, k: nat, i: nat)
    requires DistinctIds(herd) && Covers(t, herd) && i < |herd|
    requires k <= |herd| && |draws| == |herd| && |clock| == |herd|
    ensures var r := Run(t, herd, draws, clock, polygon, k);
            var id := herd[i].id;
            && id in r.readings && id in r.histories
            && if i < k then
                 && r.readings[id] == NextReading(t.readings[id], draws[i], polygon, clock[i])
                 && r.histories[id] == Record(t.histories[id], SnapshotOf(r.readings[id]))
               else r.readings[id] == t.readings[id] && r.histories[id] == t.histories[id]
  {
    if k > 0 {
      var j := k - 1;
      var before := Run(t, herd, draws, clock, polygon, j);
      assert Run(t, herd, draws, clock, polygon, k) == Step(before, herd[j].id, draws[j], polygon, clock[j]);
      RunAt(t, herd, draws, clock, polygon, j, i);
      if i != j {
        StepOther(before, herd[j].id, draws[j], polygon, clock[j], herd[i].id);
      }
    }
  }

  /** A tick leaves the entries of ids outside the herd alone. */
  lemma {:induction false} RunOther(t: Tables, herd: seq<Profile>, draws: seq<Draws>, clock: seq<int>, polygon: seq<Geofence.Vertex>, k: nat, id: string)
    requires id !in IdsOf(herd)
    requires k <= |herd| && |draws| == |herd| && |clock| == |herd|
    ensures var r := Run(t, herd, draws, clock, polygon, k);
            && (id in r.readings <==> id in t.readings) && (id in r.histories <==> id in t.histories)
            && (id in t.readings ==> r.readings[id] == t.readings[id])
            && (id in t.histories ==> r.histories[id] == t.histories[id])
  {
    if k > 0 {
      RunOther(t, herd, draws, clock, polygon, k - 1, id);
      assert herd[k - 1] in herd;
    }
  }

  /** With distinct ids, a whole tick updates every animal of the herd
      exactly once, from its reading before the tick. */
  lemma RunEach(t: Tables, herd: seq<Profile>, draws: seq<Draws>, clock: seq<int>, polygon: seq<Geofence.Vertex>)
    requires DistinctIds(herd) && Covers(t, herd)
    requires |draws| == |herd| && |clock| == |herd|
    ensures var r := Run(t, herd, draws, clock, polygon, |herd|);
            forall i :: 0 <= i < |herd| ==>
              && herd[i].id in r.readings && herd[i].id in r.histories
              && r.readings[herd[i].id] == NextReading(t.readings[herd[i].id], draws[i], polygon, clock[i])
              && r.histories[herd[i].id] == Record(t.histories[herd[i].id], SnapshotOf(r.readings[herd[i].id]))
  {
    forall i | 0 <= i < |herd| {
      RunAt(t, herd, draws, clock, polygon, |herd|, i);
    }
  }

  /** With distinct ids, updating the reading of animal j leaves the alerts
      for the animals before it alone and adds at most the one for j. */
  lemma BreachesAfterUpdate(herd: seq<Profile>, j: nat, start: map<string, Reading>, before: map<string, Reading>, updated: Reading)
    requires DistinctIds(herd) && j < |herd| && herd[j].id in start
    requires Present(herd[..j], start, before)
    ensures var after := before[herd[j].id := updated];
            && Present(herd[..j + 1], start, after)
            && Breaches(herd[..j + 1], start, after)
               == Breaches(herd[..j], start, before) +
                  (if Breached(start[herd[j].id], updated) then [BreachFor(herd[j], updated)] else [])
  {
    var after := before[herd[j].id := updated];
    var prefix := herd[..j + 1];
    assert Present(prefix, start, after) by {
      forall i | 0 <= i < |prefix| ensures prefix[i].id in start && prefix[i].id in after {
        if i < j {
          assert prefix[i] == herd[..j][i];
        }
      }
    }
    forall i | 0 <= i < j ensures after[herd[i].id] == before[herd[i].id] {
      assert herd[..j][i] == herd[i];
    }
    BreachesSnoc(herd, j, start, before, after);
  }

  /** With distinct ids, the alerts a tick collects are exactly the breaches
      between the readings before the tick and after it. */
  lemma {:induction false} RunAlertsAreBreaches(t: Tables, herd: seq<Profile>, draws: seq<Draws>, clock: seq<int>, polygon: seq<Geofence.Vertex>, k: nat)
    requires DistinctIds(herd) && Covers(t, herd)
    requires k <= |herd| && |draws| == |herd| && |clock| == |herd|
    ensures Present(herd[..k], t.readings, Run(t, herd, draws, clock, polygon, k).readings)
    ensures RunAlerts(t, herd, draws, clock, polygon, k)
         == Breaches(herd[..k], t.readings, Run(t, herd, draws, clock, polygon, k).readings)
  {
    RunCovers(t, herd, draws, clock, polygon, k);
    var r := Run(t, herd, draws, clock, polygon, k);
    assert Present(herd[..k], t.readings, r.readings) by {
      forall i | 0 <= i < k ensures herd[..k][i].id in t.readings && herd[..k][i].id in r.readings {
        assert herd[..k][i] == herd[i] && herd[i] in herd;
      }
    }
    if k > 0 {
      var j := k - 1;
      var before := Run(t, herd, draws, clock, polygon, j);
      var id := herd[j].id;
      RunAlertsAreBreaches(t, herd, draws, clock, polygon, j);
      var alert := if Breached(t.readings[id], r.readings[id]) then [BreachFor(herd[j], r.readings[id])] else [];
      assert RunAlerts(t, herd, draws, clock, polygon, k)
          == RunAlerts(t, herd, draws, clock, polygon, j) + alert by {
        RunNext(t, herd, draws, clock, polygon, j);
        RunAt(t, herd, draws, clock, polygon, j, j);
        StepAlertIs(before, herd[j], draws[j], polygon, clock[j]);
      }
      assert Breaches(herd[..k], t.readings, r.readings)
          == Breaches(herd[..j], t.readings, before.readings) + alert by {
        assert r.readings == before.readings[id := r.readings[id]] by {
          RunNext(t, herd, draws, clock, polygon, j);
        }
        BreachesAfterUpdate(herd, j, t.readings, before.readings, r.readings[id]);
      }
    }
  }

  // ---------------------------------------------------------------------------
  // The simulator state
  // ---------------------------------------------------------------------------

  /** The module-level state of the simulator for a herd (the server fixes
      it to ANIMALS), and the geofence the readings are checked against. */
  class Simulator {
    const geofence: Geofence.Store
    const herd: seq<Profile>
    var animalsState: map<string, Reading>
    var history: map<string, seq<Snapshot>>

    ghost function State(): Tables
      reads this
    {
      Tables(animalsState, history)
    }

    ghost predicate Valid()
      reads this
    {
      DistinctIds(herd) && WellFormed(State(), herd)
    }

    /** `startSimulator`'s initialisation (initAnimals): every animal placed
        around the centre of the current boundary, stamped with its own
        clock reading, with an empty history. */
    constructor Start(geofence: Geofence.Store, herd: seq<Profile>, draws: seq<InitDraws>, clock: seq<int>)
      requires DistinctIds(herd)
      requires |draws| == |herd| && |clock| == |herd|
      requires geofence.polygon != []
      ensures this.geofence == geofence && this.herd == herd && Valid()
      ensures animalsState.Keys == IdsOf(herd) && history.Keys == IdsOf(herd)
      ensures State() == Init(herd, Average(Lats(geofence.polygon)), Average(Lngs(geofence.polygon)), draws, clock, |herd|)
    {
      this.geofence := geofence;
      this.herd := herd;
      var centreLat := Average(Lats(geofence.polygon));
      var centreLng := Average(Lngs(geofence.polygon));
      var state: map<string, Reading> := map[];
      var hist: map<string, seq<Snapshot>> := map[];
      for k := 0 to |herd|
        invariant Tables(state, hist) == Init(herd, centreLat, centreLng, draws, clock, k)
      {
        state := state[herd[k].id := InitialReading(herd[k], k, centreLat, centreLng, draws[k], clock[k])];
        hist := hist[herd[k].id := []];
      }
      InitWellFormed(herd, centreLat, centreLng, draws, clock);
      animalsState := state;
      history := hist;
    }

    /** The first half of `updateAnimal`: the reading that replaces `current`,
        computed step by step from the draws, checked against the live fence. */
    method NewReading(current: Reading, d: Draws, now: int) returns (updated: Reading)
      ensures updated == NextReading(current, d, geofence.polygon, now)
    {
      var config := Config(current.profile.species);
      RangesOrdered(current.profile.species);

      // GPS drift, occasionally an escape
      var shouldEscape := d.escape < ESCAPE_CHANCE;
      var newLat, newLng;
      if shouldEscape {
        newLat := current.lat + RandomInRange(d.latOffset, 0.004, 0.007) * (if d.latSign > 0.5 then 1.0 else -1.0);
        newLng := current.lng + RandomInRange(d.lngOffset, 0.004, 0.007) * (if d.lngSign > 0.5 then 1.0 else -1.0);
      } else {
        newLat := current.lat + RandomInRange(d.latOffset, -0.0003, 0.0003);
        newLng := current.lng + RandomInRange(d.lngOffset, -0.0003, 0.0003);
      }

      // Temperature, occasionally a fever spike
      var feverSpike := d.fever < FEVER_CHANCE;
      var newTemp := current.temperature + RandomInRange(d.tempStep, -0.05, 0.05);
      if feverSpike {
        newTemp := newTemp + RandomInRange(d.spike, 0.5, 1.5);
      }
      newTemp := Clamp(newTemp, config.tempMin - 0.5, config.tempMax + 2.0);

      // Heart rate
      var newHR := current.heartRate + RandomIntInRange(d.hrStep, -3, 3) as real;
      newHR := Clamp(newHR, (config.hrMin - 5) as real, (config.hrMax + 20) as real);

      var inside := geofence.IsInside(newLat, newLng);

      var tempHigh := newTemp > config.tempMax + 0.5;
      var hrHigh := newHR > (config.hrMax + 10) as real;
      var status := Normal;
      if !inside {
        status := Alert;
      } else if tempHigh || hrHigh {
        status := Warning;
      }

      assert newLat == NextLat(current.lat, d) && newLng == NextLng(current.lng, d);
      assert newTemp == NextTemperature(current.temperature, config, d);
      assert newHR == NextHeartRate(current.heartRate, config, d);
      assert status == Classify(inside, newTemp, newHR, config);
      updated := Reading(current.profile, Decimal.FixedValue(newLat, COORD_DECIMALS), Decimal.FixedValue(newLng, COORD_DECIMALS),
                         Decimal.FixedValue(newTemp, TEMP_DECIMALS), Round(newHR), inside, status, now);
    }

    /** `updateAnimal(animal)`: the new reading replaces the animal's current
        one and a snapshot of it is appended to its history, dropping the
        oldest entry past HISTORY_CAPACITY; no other animal is touched. */
    method UpdateAnimal(animal: Profile, d: Draws, now: int) returns (updated: Reading)
      requires animal.id in animalsState && animal.id in history
      modifies this
      ensures State() == Step(old(State()), animal.id, d, geofence.polygon, now)
      ensures updated == animalsState[animal.id]
    {
      var current := animalsState[animal.id];
      updated := NewReading(current, d, now);
      animalsState := animalsState[animal.id := updated];

      var h := history[animal.id] + [SnapshotOf(updated)];
      if |h| > HISTORY_CAPACITY {
        h := h[1..];
      }
      history := history[animal.id := h];
    }

    /** The body of the tick's per-animal callback: update the animal and
        collect a breach alert when it went from inside to outside. */
    method VisitAnimal(animal: Profile, d: Draws, now: int, alerts: seq<BreachAlert>) returns (alerts': seq<BreachAlert>)
      requires animal.id in animalsState && animal.id in history
      modifies this
      ensures State() == Step(old(State()), animal.id, d, geofence.polygon, now)
      ensures alerts' == alerts + StepAlert(old(State()), animal, d, geofence.polygon, now)
    {
      StepAlertIs(State(), animal, d, geofence.polygon, now);
      var prev := animalsState[animal.id];
      var updated := UpdateAnimal(animal, d, now);
      alerts' := alerts;
      if prev.insideGeofence && !updated.insideGeofence {
        alerts' := alerts' + [BreachFor(animal, updated)];
      }
    }

    /** The k-th pass of the tick's forEach, stated on the tick so far: the
        tables and the alerts move from those after k animals to those after
        k + 1. */
    method VisitNext(ghost start: Tables, draws: seq<Draws>, clock: seq<int>, k: nat, alerts: seq<BreachAlert>)
      returns (alerts': seq<BreachAlert>)
      requires Covers(start, herd) && k < |herd| && |draws| == |herd| && |clock| == |herd|
      requires State() == Run(start, herd, draws, clock, geofence.polygon, k)
      requires alerts == RunAlerts(start, herd, draws, clock, geofence.polygon, k)
      modifies this
      ensures State() == Run(start, herd, draws, clock, geofence.polygon, k + 1)
      ensures alerts' == RunAlerts(start, herd, draws, clock, geofence.polygon, k + 1)
    {
      RunNext(start, herd, draws, clock, geofence.polygon, k);
      alerts' := VisitAnimal(herd[k], draws[k], clock[k], alerts);
    }

    /** One tick of the interval: every animal is updated in herd order, then
        the batch of updated readings is emitted, then the alerts collected
        along the way, in herd order. */
    method Tick(draws: seq<Draws>, clock: seq<int>) returns (events: seq<Event>)
      requires Valid()
      requires |draws| == |herd| && |clock| == |herd|
      modifies this
      ensures Valid()
      ensures State() == Run(old(State()), herd, draws, clock, geofence.polygon, |herd|)
      ensures events == [AnimalsUpdate(Batch(animalsState, herd))] + AlertEvents(RunAlerts(old(State()), herd, draws, clock, geofence.polygon, |herd|))
    {
      ghost var start := State();
      ghost var polygon := geofence.polygon;
      assert Covers(start, herd);
      var alerts: seq<BreachAlert> := [];
      for k := 0 to |herd|
        invariant State() == Run(start, herd, draws, clock, polygon, k)
        invariant alerts == RunAlerts(start, herd, draws, clock, polygon, k)
      {
        alerts := VisitNext(start, draws, clock, k, alerts);
      }
      assert WellFormed(State(), herd) by {
        RunWellFormed(start, herd, draws, clock, polygon, |herd|);
      }
      var updates := Batch(animalsState, herd);
      events := [AnimalsUpdate(updates)] + AlertEvents(alerts);
    }

    /** `getHistory(animalId, limit = 50)`: with a truthy id, that animal's
        entries sliced with `slice(-limit)`. An unknown id gives the empty
        list, not a not-found answer, unless it names a property inherited
        from `Object.prototype`: the lookup then finds something truthy
        without a `slice` method and the call throws a TypeError. Without an
        id, the same slice of every animal's history. */
    function GetHistory(animalId: Option<string>, limit: Option<int>): (r: HistoryResult)
      reads this
      ensures var lim := if limit.Some? then limit.value else DEFAULT_HISTORY_LIMIT;
              && (r.TypeError? <==>
                    animalId.Some? && animalId.value != "" && animalId.value !in history
                    && animalId.value in INHERITED_KEYS)
              && (animalId.Some? && animalId.value != "" && !r.TypeError? ==> r.One?)
              && ((animalId.Some? && animalId.value != "" && animalId.value !in history &&
                   animalId.value !in INHERITED_KEYS) ==> r.entries == [])
              && (animalId.Some? && animalId.value != "" && animalId.value in history && lim >= 1 ==>
                    r.entries == Newest(lim, history[animalId.value]) &&
                    |r.entries| == Min(lim, |history[animalId.value]|))
              && (animalId.Some? && animalId.value != "" && animalId.value in history && lim == 0 ==>
                    r.entries == history[animalId.value])
              && (animalId.Some? && animalId.value != "" && animalId.value in history && lim < 0 ==>
                    r.entries == history[animalId.value][Min(-lim, |history[animalId.value]|)..])
              && (!(animalId.Some? && animalId.value != "") ==>
                    && r.All? && r.byId.Keys == history.Keys
                    && (lim >= 1 ==> forall id <- history.Keys :: r.byId[id] == Newest(lim, history[id]))
                    && (lim == 0 ==> r.byId == history)
                    && (lim < 0 ==> forall id <- history.Keys :: r.byId[id] == history[id][Min(-lim, |history[id]|)..]))
    {
      var lim := if limit.Some? then limit.value else DEFAULT_HISTORY_LIMIT;
      if animalId.Some? && animalId.value != "" then
        if animalId.value !in history && animalId.value in INHERITED_KEYS then TypeError
        else
          SliceFromEnd(if animalId.value in history then history[animalId.value] else [], lim);
          One(SliceFrom(if animalId.value in history then history[animalId.value] else [], -lim))
      else
        All(SliceEach(history, lim))
    }
  }

  /** `GET /api/animals/constructor/history` passes the id "constructor" to
      getHistory. No animal has that id, so the lookup finds the inherited
      constructor function and the call throws, while an ordinary unknown
      id such as "A999" answers []. */
  lemma ConstructorIdThrows(s: Simulator, limit: Option<int>)
    requires "constructor" !in s.history && "A999" !in s.history
    ensures s.GetHistory(Some("constructor"), limit) == TypeError
    ensures s.GetHistory(Some("A999"), limit) == One([])
  {
  }
}
