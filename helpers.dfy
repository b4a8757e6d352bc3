/** The dashboard's display helpers (farmsense-frontend/src/utils/helpers.js):
    the colour and label tables for an animal's status, and the renderings
    of a heart rate, a position and the age of an update.

    The current time and the parsing of the ISO timestamp are not read here:
    `timeSince` is given `now` and the parsed time (None when the text does
    not parse, which makes the difference NaN). */
module Helpers {

  import opened Options
  import Json
  import Animals
  import Decimal

  const NORMAL_COLOR: string := "#4caf6e"

  const STATUS_COLORS: map<string, string> := map[
    "normal" := NORMAL_COLOR,
    "warning" := "#e8a020",
    "alert" := "#e84040"
  ]

  const STATUS_LABELS: map<string, string> := map[
    "normal" := "NOMINAL",
    "warning" := "WARNING",
    "alert" := "BREACH"
  ]

  /** Both tables have an entry for every status the server sends, and
      different statuses get different colours and different labels. */
  lemma TablesCoverStatuses()
    ensures forall s: Animals.Status :: Animals.StatusName(s) in STATUS_COLORS && Animals.StatusName(s) in STATUS_LABELS
    ensures forall s, t: Animals.Status :: s != t ==> STATUS_COLORS[Animals.StatusName(s)] != STATUS_COLORS[Animals.StatusName(t)]
    ensures forall s, t: Animals.Status :: s != t ==> STATUS_LABELS[Animals.StatusName(s)] != STATUS_LABELS[Animals.StatusName(t)]
  {
  }

  /** The labels the status badge shows. */
  lemma StatusLabels()
    ensures STATUS_LABELS[Animals.StatusName(Animals.Normal)] == "NOMINAL"
    ensures STATUS_LABELS[Animals.StatusName(Animals.Warning)] == "WARNING"
    ensures STATUS_LABELS[Animals.StatusName(Animals.Alert)] == "BREACH"
  {
  }

  /** `getStatusColor(status)`: the table's colour, or the normal colour for
      a status the table does not know (every entry is a non-empty string, so
      the `||` fallback fires exactly on a missing key). */
  function GetStatusColor(status: string): (c: string)
    ensures status in STATUS_COLORS ==> c == STATUS_COLORS[status]
    ensures status !in STATUS_COLORS ==> c == NORMAL_COLOR
    ensures c in STATUS_COLORS.Values
  {
    assert STATUS_COLORS["normal"] == NORMAL_COLOR;
    var found := if status in STATUS_COLORS then Json.Str(STATUS_COLORS[status]) else Json.Undefined;
    if Json.Truthy(found) then found.s else NORMAL_COLOR
  }

  /** The three statuses get their own colours; anything else is drawn as normal. */
  lemma StatusColors(other: string)
    requires other != "normal" && other != "warning" && other != "alert"
    ensures GetStatusColor(Animals.StatusName(Animals.Normal)) == "#4caf6e"
    ensures GetStatusColor(Animals.StatusName(Animals.Warning)) == "#e8a020"
    ensures GetStatusColor(Animals.StatusName(Animals.Alert)) == "#e84040"
    ensures GetStatusColor(other) == GetStatusColor("normal")
  {
  }

  const MISSING: string := "--"

  /** The unit after a temperature, character for character as the source
      file spells it: U+00C2 U+00B0 'C' (a degree sign encoded twice). */
  const DEGREES: string := "\U{C2}\U{B0}C"

  /** `formatTemp(val)`: "--" for an undefined temperature, otherwise the
      value with one decimal followed by the unit. */
  function FormatTemp(val: Option<real>): (r: string)
    ensures r == MISSING <==> val.None?
  {
    match val
    case None => MISSING
    case Some(v) => Decimal.ToFixed(v, 1) + DEGREES
  }

  /** The label shows the temperature: the part before the unit reads back
      with its sign and its value rounded to one decimal. */
  lemma FormatTempReadsBack(v: real)
    ensures var r := FormatTemp(Some(v));
            && |r| > |DEGREES| && r[|r| - |DEGREES|..] == DEGREES
            && var t := Decimal.ParseFixed(r[..|r| - |DEGREES|], 1);
               && t.Fixed? && (t.negative <==> v < 0.0)
               && t.scaled as real - 0.5 <= Decimal.Magnitude(v, 1) < t.scaled as real + 0.5
  {
    var s := Decimal.ToFixed(v, 1);
    var r := s + DEGREES;
    Decimal.ToFixedReadsBack(v, 1);
    Decimal.ToFixedChars(v, 1);
    assert r[..|r| - |DEGREES|] == s;
    assert r[|r| - |DEGREES|..] == DEGREES;
  }

  const BPM: string := " bpm"

  /** `formatHR(val)`: "--" for an undefined rate, otherwise the whole
      number followed by " bpm". */
  function FormatHR(val: Option<int>): (r: string)
    ensures r == MISSING <==> val.None?
  {
    match val
    case None => MISSING
    case Some(v) => Decimal.IntToString(v) + BPM
  }

  /** Reads a heart-rate label back: the number before " bpm". */
  function ReadHR(r: string): Option<int>
  {
    if |r| >= |BPM| + 1 && r[|r| - |BPM|..] == BPM then
      var digits := r[..|r| - |BPM|];
      if digits[0] == '-' && Decimal.AllDigits(digits[1..]) then Some(Decimal.ParseInt(digits))
      else if digits[0] != '-' && Decimal.AllDigits(digits) then Some(Decimal.ParseInt(digits))
      else None
    else None
  }

  /** The label shows the rate itself: reading it back gives the rate, and
      "--" reads back as no rate. */
  lemma FormatHRReadsBack(val: Option<int>)
    ensures ReadHR(FormatHR(val)) == val
  {
    if val.Some? {
      var digits := Decimal.IntToString(val.value);
      var r := digits + BPM;
      Decimal.IntToStringRoundTrip(val.value);
      assert r[..|r| - |BPM|] == digits;
      assert r[|r| - |BPM|..] == BPM;
    }
  }

  const SEPARATOR: string := ", "

  /** `formatCoords(lat, lng)`: "--" when either is undefined, otherwise both
      with five decimals, separated by a comma and a space. */
  function FormatCoords(lat: Option<real>, lng: Option<real>): (r: string)
  {
    if lat.None? || lng.None? then MISSING
    else Decimal.ToFixed(lat.value, 5) + SEPARATOR + Decimal.ToFixed(lng.value, 5)
  }

  /** Index of the first c in s at or after from, or |s| when there is none. */
  function IndexOf(s: string, c: char, from: nat): (k: nat)
    requires from <= |s|
    ensures from <= k <= |s|
    ensures k < |s| ==> s[k] == c
    ensures forall i :: from <= i < k ==> s[i] != c
    decreases |s| - from
  {
    if from == |s| || s[from] == c then from else IndexOf(s, c, from + 1)
  }

  /** Reads a position label back: the two five-decimal numbers around the
      first comma. */
  function ReadCoords(r: string): Option<(Decimal.FixedReading, Decimal.FixedReading)>
  {
    var k := IndexOf(r, ',', 0);
    if k + 2 <= |r| && r[k + 1] == ' ' then Some((Decimal.ParseFixed(r[..k], 5), Decimal.ParseFixed(r[k + 2..], 5)))
    else None
  }

  /** "--" exactly when a coordinate is missing; it carries no position. */
  lemma FormatCoordsMissing(lat: Option<real>, lng: Option<real>)
    ensures FormatCoords(lat, lng) == MISSING <==> lat.None? || lng.None?
    ensures lat.None? || lng.None? ==> ReadCoords(FormatCoords(lat, lng)).None?
  {
    if lat.Some? && lng.Some? {
      Decimal.ToFixedChars(lat.value, 5);
      Decimal.ToFixedChars(lng.value, 5);
      assert |FormatCoords(lat, lng)| >= 4;
    } else {
      assert IndexOf(MISSING, ',', 0) == 2;
    }
  }

  /** The label shows both coordinates: each part reads back with the
      coordinate's sign and its value rounded to five decimals. */
  lemma FormatCoordsReadsBack(lat: real, lng: real)
    ensures ReadCoords(FormatCoords(Some(lat), Some(lng)))
            == Some((Decimal.ParseFixed(Decimal.ToFixed(lat, 5), 5), Decimal.ParseFixed(Decimal.ToFixed(lng, 5), 5)))
  {
    var a, b := Decimal.ToFixed(lat, 5), Decimal.ToFixed(lng, 5);
    var r := a + SEPARATOR + b;
    Decimal.ToFixedChars(lat, 5);
    assert forall i :: 0 <= i < |a| ==> r[i] == a[i] && r[i] != ',';
    assert r[|a|] == ',';
    assert IndexOf(r, ',', 0) == |a|;
    assert r[..|a|] == a;
    assert r[|a| + 2..] == b;
  }

  /** Both parts of a position label read back as numbers, with the
      coordinates' signs. */
  lemma FormatCoordsSigns(lat: real, lng: real)
    ensures var v := ReadCoords(FormatCoords(Some(lat), Some(lng)));
            && v.Some? && v.value.0.Fixed? && v.value.1.Fixed?
            && (v.value.0.negative <==> lat < 0.0)
            && (v.value.1.negative <==> lng < 0.0)
  {
    FormatCoordsReadsBack(lat, lng);
    Decimal.ToFixedReadsBack(lat, 5);
    Decimal.ToFixedReadsBack(lng, 5);
  }

  // ---------------------------------------------------------------------------
  // timeSince
  // ---------------------------------------------------------------------------

  const SECONDS_AGO: string := "s ago"

  const MINUTES_AGO: string := "m ago"

  /** What `${NaN}m ago` renders as. */
  const NAN_AGO: string := "NaNm ago"

  /** `timeSince(isoString)` at time now (ms): "--" for a falsy argument;
      "NaNm ago" when the text does not parse; otherwise the whole seconds
      elapsed (rounded down) while under a minute, else the whole minutes. */
  function TimeSince(iso: Json.Value, parsed: Option<int>, now: int): (r: string)
    ensures !Json.Truthy(iso) ==> r == MISSING
  {
    if !Json.Truthy(iso) then MISSING
    else match parsed
      case None => NAN_AGO
      case Some(t) =>
        var diff := (now - t) / 1000;
        if diff < 60 then Decimal.IntToString(diff) + SECONDS_AGO
        else Decimal.IntToString(diff / 60) + MINUTES_AGO
  }

  /** Under a minute (including a timestamp in the future), the label shows
      the whole number of seconds s with s * 1000 <= elapsed < (s + 1) * 1000. */
  lemma TimeSinceSeconds(iso: Json.Value, t: int, now: int)
    requires Json.Truthy(iso) && now - t < 60000
    ensures exists s: int :: s * 1000 <= now - t < (s + 1) * 1000 && s < 60
                             && TimeSince(iso, Some(t), now) == Decimal.IntToString(s) + SECONDS_AGO
  {
    var s := (now - t) / 1000;
    assert s * 1000 <= now - t < (s + 1) * 1000 && s < 60;
    assert TimeSince(iso, Some(t), now) == Decimal.IntToString(s) + SECONDS_AGO;
  }

  /** From a minute on, the label shows the whole number of minutes m >= 1
      with m * 60000 <= elapsed < (m + 1) * 60000: rounding the seconds down
      and then the minutes down is rounding the minutes down once. */
  lemma TimeSinceMinutes(iso: Json.Value, t: int, now: int)
    requires Json.Truthy(iso) && now - t >= 60000
    ensures exists m: int :: m >= 1 && m * 60000 <= now - t < (m + 1) * 60000
                             && TimeSince(iso, Some(t), now) == Decimal.IntToString(m) + MINUTES_AGO
  {
    var e := now - t;
    var s := e / 1000;
    var m := s / 60;
    assert s * 1000 <= e < s * 1000 + 1000;
    assert m * 60 <= s < m * 60 + 60;
    FloorSteps(e, s, m);
    assert s >= 60 && m >= 1;
    assert TimeSince(iso, Some(t), now) == Decimal.IntToString(m) + MINUTES_AGO;
  }

  lemma FloorSteps(e: int, s: int, m: int)
    requires s * 1000 <= e < s * 1000 + 1000
    requires m * 60 <= s < m * 60 + 60
    ensures m * 60000 <= e < (m + 1) * 60000
  {
    assert m * 60000 == (m * 60) * 1000;
    assert (m * 60) * 1000 <= s * 1000;
    assert s * 1000 + 1000 <= (m * 60 + 60) * 1000;
  }

  /** The seconds label and the minutes label never coincide, and neither is
      "--" or the NaN label. */
  lemma TimeSinceLabelsDistinct(iso: Json.Value, t: int, now: int)
    requires Json.Truthy(iso)
    ensures var r := TimeSince(iso, Some(t), now);
            r != MISSING && r != NAN_AGO
            && (now - t < 60000 <==> r[|r| - |SECONDS_AGO|..] == SECONDS_AGO)
  {
    var r := TimeSince(iso, Some(t), now);
    var diff := (now - t) / 1000;
    if diff < 60 {
      var d := Decimal.IntToString(diff);
      assert r[|r| - |SECONDS_AGO|..] == SECONDS_AGO;
      assert r[|d|] == 's';
      Decimal.IntToStringRoundTrip(diff);
    } else {
      var d := Decimal.IntToString(diff / 60);
      assert r[|r| - |SECONDS_AGO|..] == MINUTES_AGO;
      Decimal.IntToStringRoundTrip(diff / 60);
    }
  }
}
