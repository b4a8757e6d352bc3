/** The dashboard's rolling chart history (farmsense-frontend/src/hooks/useHistory.js).
    Each time a new animals map arrives over the socket, every animal whose
    `lastUpdate` differs from the one in the previously seen map gets one
    chart point appended to its series, and each series keeps only its 60
    newest points.

    The incoming map is the server's `animals:update` payload: keyed by
    animal id, each value carrying its own id (WellKeyed). */
module HistoryHook {

  import opened Options
  import opened Seqs
  import opened Animals

  const MAX_POINTS: nat := 60

  /** One chart point; the clock label derived from the timestamp is not modelled. */
  datatype ChartPoint = ChartPoint(temperature: real, heartRate: real, timestamp: int)

  type History = map<string, seq<ChartPoint>>

  predicate WellKeyed(animals: Roster)
  {
    forall id :: id in animals ==> animals[id].profile.id == id
  }

  /** The point recorded for a reading. */
  function PointOf(a: Reading): ChartPoint
  {
    ChartPoint(a.temperature, a.heartRate, a.lastUpdate)
  }

  /** A reading is new unless the previous map has the same animal with the
      same `lastUpdate`. */
  predicate Changed(seen: Roster, a: Reading)
  {
    !(a.profile.id in seen && seen[a.profile.id].lastUpdate == a.lastUpdate)
  }

  /** An animal's series, empty when it has none yet. */
  function Series(h: History, id: string): seq<ChartPoint>
  {
    if id in h then h[id] else []
  }

  /** The series after one more point: the newest MAX_POINTS of them. */
  function Appended(s: seq<ChartPoint>, p: ChartPoint): seq<ChartPoint>
  {
    Newest(MAX_POINTS, s + [p])
  }

  /** The history once the animals with ids in done have been visited: those
      whose reading changed have the point appended, every other series is
      as it was, and an animal that had no series and did not change still
      has none. */
  function Merged(prev: History, seen: Roster, animals: Roster, done: set<string>): History
    requires done <= animals.Keys
  {
    map id | id in prev.Keys + done && (id in prev || Changed(seen, animals[id]))
      :: if id in done && Changed(seen, animals[id]) then Appended(Series(prev, id), PointOf(animals[id])) else prev[id]
  }

  /** The history after the whole map has been visited. */
  function Next(prev: History, seen: Roster, animals: Roster): History
  {
    Merged(prev, seen, animals, animals.Keys)
  }

  /** Where and what the history holds once the animals in done are visited. */
  lemma MergedAt(prev: History, seen: Roster, animals: Roster, done: set<string>, k: string)
    requires done <= animals.Keys
    ensures var m := Merged(prev, seen, animals, done);
            && (k in m <==> k in prev || (k in done && Changed(seen, animals[k])))
            && (k in m && k in done && Changed(seen, animals[k]) ==> m[k] == Appended(Series(prev, k), PointOf(animals[k])))
            && (k in m && !(k in done && Changed(seen, animals[k])) ==> m[k] == prev[k])
  {
  }

  /** Two histories with the same ids and the same series are equal. */
  lemma HistoryEq(a: History, b: History)
    requires a.Keys == b.Keys && forall k :: k in a ==> a[k] == b[k]
    ensures a == b
  {
  }

  /** Before any animal is visited the history is the previous one. */
  lemma MergedNone(prev: History, seen: Roster, animals: Roster)
    ensures Merged(prev, seen, animals, {}) == prev
  {
    var m := Merged(prev, seen, animals, {});
    forall k ensures k in m <==> k in prev {
      MergedAt(prev, seen, animals, {}, k);
    }
    forall k | k in m ensures m[k] == prev[k] {
      MergedAt(prev, seen, animals, {}, k);
    }
    HistoryEq(m, prev);
  }

  /** Visiting one more animal updates its entry and nothing else. */
  lemma MergedAdd(prev: History, seen: Roster, animals: Roster, done: set<string>, id: string)
    requires done <= animals.Keys && id in animals && id !in done
    ensures var before := Merged(prev, seen, animals, done);
            var a := animals[id];
            Merged(prev, seen, animals, done + {id})
            == if Changed(seen, a) then before[id := Appended(Series(before, id), PointOf(a))] else before
  {
    var before := Merged(prev, seen, animals, done);
    var after := Merged(prev, seen, animals, done + {id});
    var a := animals[id];
    var target := if Changed(seen, a) then before[id := Appended(Series(before, id), PointOf(a))] else before;
    assert Series(before, id) == Series(prev, id) by {
      MergedAt(prev, seen, animals, done, id);
    }
    assert after.Keys == target.Keys by {
      forall k ensures k in after <==> k in target {
        MergedAt(prev, seen, animals, done, k);
        MergedAt(prev, seen, animals, done + {id}, k);
      }
    }
    assert forall k :: k in after ==> after[k] == target[k] by {
      forall k | k in after ensures after[k] == target[k] {
        MergedAt(prev, seen, animals, done, k);
        MergedAt(prev, seen, animals, done + {id}, k);
      }
    }
    HistoryEq(after, target);
  }

  /** An animal that is not in the incoming map keeps its series (or keeps
      having none). */
  lemma AbsentUnchanged(prev: History, seen: Roster, animals: Roster, id: string)
    requires id !in animals
    ensures id in Next(prev, seen, animals) <==> id in prev
    ensures id in prev ==> Next(prev, seen, animals)[id] == prev[id]
  {
  }

  /** An animal whose `lastUpdate` is the one already seen gets no point. */
  lemma UnchangedSkipped(prev: History, seen: Roster, animals: Roster, id: string)
    requires WellKeyed(animals) && id in animals && id in seen
    requires seen[id].lastUpdate == animals[id].lastUpdate
    ensures id in Next(prev, seen, animals) <==> id in prev
    ensures id in prev ==> Next(prev, seen, animals)[id] == prev[id]
  {
  }

  /** An animal whose reading changed gets its point last, carrying the
      reading's temperature, heart rate and time; the series keeps the newest
      points, at most MAX_POINTS of them, in arrival order. */
  lemma ChangedAppended(prev: History, seen: Roster, animals: Roster, id: string)
    requires WellKeyed(animals) && id in animals && Changed(seen, animals[id])
    ensures id in Next(prev, seen, animals)
    ensures var s := Next(prev, seen, animals)[id];
            var a := animals[id];
            && s == Newest(MAX_POINTS, Series(prev, id) + [PointOf(a)])
            && |s| == Min(MAX_POINTS, |Series(prev, id)| + 1)
            && s[|s| - 1] == ChartPoint(a.temperature, a.heartRate, a.lastUpdate)
  {
    NewestShape(MAX_POINTS, Series(prev, id) + [PointOf(animals[id])]);
  }

  /** An animal seen for the first time always gets a point. */
  lemma FirstSeenAppended(prev: History, seen: Roster, animals: Roster, id: string)
    requires WellKeyed(animals) && id in animals && id !in seen
    ensures id in Next(prev, seen, animals)
    ensures var s := Next(prev, seen, animals)[id];
            |s| >= 1 && s[|s| - 1] == PointOf(animals[id])
  {
    ChangedAppended(prev, seen, animals, id);
  }

  /** No series ever holds more than MAX_POINTS points. */
  predicate Capped(h: History)
  {
    forall id :: id in h ==> |h[id]| <= MAX_POINTS
  }

  lemma NextCapped(prev: History, seen: Roster, animals: Roster)
    requires Capped(prev)
    ensures Capped(Next(prev, seen, animals))
  {
    forall id | id in Next(prev, seen, animals)
      ensures |Next(prev, seen, animals)[id]| <= MAX_POINTS
    {
      if id in animals && Changed(seen, animals[id]) {
        NewestShape(MAX_POINTS, Series(prev, id) + [PointOf(animals[id])]);
      }
    }
  }

  /** A series that holds the newest points of some log of readings holds,
      after one more point, the newest points of the log extended by it:
      the series is always the latest MAX_POINTS readings in arrival order. */
  lemma NewestOfLog(prev: History, seen: Roster, animals: Roster, id: string, log: seq<ChartPoint>)
    requires WellKeyed(animals) && id in animals && Changed(seen, animals[id])
    requires Series(prev, id) == Newest(MAX_POINTS, log)
    ensures Next(prev, seen, animals)[id] == Newest(MAX_POINTS, log + [PointOf(animals[id])])
  {
    ChangedAppended(prev, seen, animals, id);
    NewestAppend(MAX_POINTS, log, [PointOf(animals[id])]);
  }

  /** The same map delivered twice adds nothing the second time. */
  lemma RedeliveryIgnored(prev: History, seen: Roster, animals: Roster)
    requires WellKeyed(animals)
    ensures Next(Next(prev, seen, animals), animals, animals) == Next(prev, seen, animals)
  {
    var once := Next(prev, seen, animals);
    var twice := Next(once, animals, animals);
    forall id | id in animals ensures !Changed(animals, animals[id]) {
    }
    assert twice.Keys == once.Keys;
  }

  /** The body of the loop over the incoming readings: a changed reading
      appends its point to its animal's series, cut to the newest
      MAX_POINTS; an unchanged one leaves the history as it is. */
  method VisitAnimal(next: History, seen: Roster, animal: Reading) returns (next': History)
    ensures Changed(seen, animal) ==> next' == next[animal.profile.id := Appended(Series(next, animal.profile.id), PointOf(animal))]
    ensures !Changed(seen, animal) ==> next' == next
  {
    var id := animal.profile.id;
    if id in seen && seen[id].lastUpdate == animal.lastUpdate {
      next' := next;
    } else {
      var existing := if id in next then next[id] else [];
      var point := ChartPoint(animal.temperature, animal.heartRate, animal.lastUpdate);
      var all := existing + [point];
      var series := SliceFrom(all, -(MAX_POINTS as int));
      assert series == Appended(Series(next, id), PointOf(animal)) by {
        SliceFromEnd(all, MAX_POINTS);
        assert all == Series(next, id) + [PointOf(animal)];
      }
      next' := next[id := series];
    }
  }

  /** The `setHistory` updater: a copy of the previous history, then the
      loop over the incoming readings (`Object.values(animals).forEach`). */
  method MergeAll(prev: History, before: Roster, roster: Roster) returns (next: History)
    requires WellKeyed(roster)
    ensures next == Next(prev, before, roster)
  {
    next := prev;
    var pending := roster.Keys;
    assert next == Merged(prev, before, roster, roster.Keys - pending) by {
      assert roster.Keys - pending == {};
      MergedNone(prev, before, roster);
    }
    while pending != {}
      invariant pending <= roster.Keys
      invariant next == Merged(prev, before, roster, roster.Keys - pending)
      decreases pending
    {
      var key :| key in pending;
      var animal := roster[key];
      next := VisitAnimal(next, before, animal);
      assert next == Merged(prev, before, roster, roster.Keys - (pending - {key})) by {
        assert animal.profile.id == key;
        MergedAdd(prev, before, roster, roster.Keys - pending, key);
        assert roster.Keys - pending + {key} == roster.Keys - (pending - {key});
      }
      pending := pending - {key};
    }
    assert roster.Keys - pending == roster.Keys;
  }

  /** The hook's state: the rolling history and the map seen last. */
  class Hook {
    var history: History
    var seen: Roster

    constructor ()
      ensures history == map[] && seen == map[]
    {
      history := map[];
      seen := map[];
    }

    /** The effect run when the animals map changes: nothing for a missing
        or empty map; otherwise the merged history, and the map is
        remembered as seen. */
    method OnAnimals(animals: Option<Roster>)
      requires animals.Some? ==> WellKeyed(animals.value)
      modifies this
      ensures animals.None? || |animals.value| == 0 ==> history == old(history) && seen == old(seen)
      ensures animals.Some? && |animals.value| > 0 ==>
                history == Next(old(history), old(seen), animals.value) && seen == animals.value
    {
      if animals.None? || |animals.value| == 0 {
        return;
      }
      var roster := animals.value;
      var next := MergeAll(history, seen, roster);
      history := next;
      seen := roster;
    }
  }
}
