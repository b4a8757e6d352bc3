/** The herd and the records the server keeps and sends for it
    (farmsense-backend/src/simulator/simulator.js): the five fixed animals,
    the per-species vital ranges, the live reading, the history snapshot and
    the breach alert. The dashboard receives the same records as JSON. */
module Animals {

  datatype Species = Cow | Goat | Sheep | Bull

  datatype Status = Normal | Warning | Alert

  /** The status as it appears on the wire. */
  function StatusName(s: Status): string
  {
    match s
    case Normal => "normal"
    case Warning => "warning"
    case Alert => "alert"
  }

  /** The immutable identity of one animal. */
  datatype Profile = Profile(id: string, name: string, species: Species, emoji: string)

  const ANIMALS: seq<Profile> := [
    Profile("A001", "Bessie", Cow, "\U{1F404}"),
    Profile("A002", "Daisy", Cow, "\U{1F404}"),
    Profile("A003", "Rufus", Goat, "\U{1F410}"),
    Profile("A004", "Clover", Sheep, "\U{1F411}"),
    Profile("A005", "Bruno", Bull, "\U{1F402}")
  ]

  /** The normal ranges of temperature (degrees Celsius) and heart rate (bpm). */
  datatype VitalsRange = VitalsRange(tempMin: real, tempMax: real, hrMin: int, hrMax: int)

  /** VITALS_CONFIG, keyed by species. */
  function Config(s: Species): VitalsRange
  {
    match s
    case Cow => VitalsRange(38.0, 39.5, 48, 84)
    case Goat => VitalsRange(38.5, 40.0, 70, 135)
    case Sheep => VitalsRange(38.5, 40.0, 60, 120)
    case Bull => VitalsRange(38.0, 39.5, 40, 80)
  }

  /** The live reading of one animal: the profile fields spread in, then the
      position, vitals, containment flag, status and the time of the update
      (milliseconds; the ISO text form is not modelled). */
  datatype Reading = Reading(
    profile: Profile,
    lat: real,
    lng: real,
    temperature: real,
    heartRate: real,
    insideGeofence: bool,
    status: Status,
    lastUpdate: int)

  /** Live readings keyed by animal id, as the server keeps and sends them. */
  type Roster = map<string, Reading>

  /** One history entry. */
  datatype Snapshot = Snapshot(
    timestamp: int,
    lat: real,
    lng: real,
    temperature: real,
    heartRate: real,
    insideGeofence: bool,
    status: Status)

  const BREACH_KIND: string := "geofence_breach"

  /** The `animal:alert` payload. */
  datatype BreachAlert = BreachAlert(
    kind: string,
    animalId: string,
    animalName: string,
    timestamp: int,
    message: string)

  /** The animals' ids are distinct, so each animal owns one entry of every
      map keyed by id. */
  lemma AnimalIdsDistinct()
    ensures forall a, b :: 0 <= a < b < |ANIMALS| ==> ANIMALS[a].id != ANIMALS[b].id
  {
  }

  /** Every species' ranges are proper intervals. */
  lemma RangesOrdered(s: Species)
    ensures Config(s).tempMin < Config(s).tempMax && Config(s).hrMin < Config(s).hrMax
  {
  }
}
