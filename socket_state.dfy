/** The dashboard's live socket state (farmsense-frontend/src/hooks/useSocket.js):
    the animals map replaced by every snapshot and update, the time of the
    last one, the connection flag, and the list of recent breach alerts.

    Each incoming alert is numbered by a counter that only grows, put first
    in the list, and the list keeps the 20 newest; eight seconds later the
    alert with that number is removed. The timer is not modelled: its firing
    is a call to Expire with the number OnAlert returned. */
module SocketState {

  import opened Options
  import opened Seqs
  import opened Animals

  const MAX_ALERTS: nat := 20

  /** An alert as the list holds it: the payload and its number (`_id`). */
  datatype AlertEntry = AlertEntry(alert: BreachAlert, id: int)

  /** `[entry, ...alerts].slice(0, MAX_ALERTS)`. */
  function Prepend(alerts: seq<AlertEntry>, entry: AlertEntry): seq<AlertEntry>
  {
    ([entry] + alerts)[..Min(MAX_ALERTS, |alerts| + 1)]
  }

  /** `alerts.filter(a => a._id !== id)`. */
  function Without(alerts: seq<AlertEntry>, id: int): seq<AlertEntry>
  {
    if alerts == [] then []
    else if alerts[0].id != id then [alerts[0]] + Without(alerts[1..], id)
    else Without(alerts[1..], id)
  }

  /** Numbers strictly decrease from the front (newest) to the back (oldest). */
  predicate Decreasing(alerts: seq<AlertEntry>)
  {
    forall i, j :: 0 <= i < j < |alerts| ==> alerts[i].id > alerts[j].id
  }

  /** Every number in the list is at least 1 and at most the counter. */
  predicate NumberedUpTo(alerts: seq<AlertEntry>, counter: int)
  {
    forall i :: 0 <= i < |alerts| ==> 1 <= alerts[i].id <= counter
  }

  /** The new alert comes first, followed by the newest of the previous ones,
      and the list never exceeds MAX_ALERTS. */
  lemma PrependShape(alerts: seq<AlertEntry>, entry: AlertEntry)
    ensures var r := Prepend(alerts, entry);
            && |r| == Min(MAX_ALERTS, |alerts| + 1) && |r| >= 1
            && r[0] == entry
            && r[1..] == alerts[..Min(MAX_ALERTS - 1, |alerts|)]
  {
    var r := Prepend(alerts, entry);
    assert r[1..] == alerts[..|r| - 1];
  }

  /** A number larger than all in the list keeps the list decreasing. */
  lemma PrependDecreasing(alerts: seq<AlertEntry>, entry: AlertEntry, counter: int)
    requires Decreasing(alerts) && NumberedUpTo(alerts, counter) && counter >= 0 && entry.id == counter + 1
    ensures Decreasing(Prepend(alerts, entry)) && NumberedUpTo(Prepend(alerts, entry), counter + 1)
  {
    var r := Prepend(alerts, entry);
    PrependShape(alerts, entry);
    forall i | 1 <= i < |r| ensures r[i] == alerts[i - 1] {
      assert r[i] == r[1..][i - 1];
    }
  }

  /** Removal keeps exactly the entries with other numbers, in their order:
      each survivor came from the list, nothing with the number survives, and
      every entry with another number survives. */
  lemma {:induction false} WithoutFilters(alerts: seq<AlertEntry>, id: int)
    ensures |Without(alerts, id)| <= |alerts|
    ensures forall e :: e in Without(alerts, id) <==> e in alerts && e.id != id
  {
    if alerts != [] {
      WithoutFilters(alerts[1..], id);
      assert alerts == [alerts[0]] + alerts[1..];
    }
  }

  /** Removing a number no entry carries changes nothing. */
  lemma {:induction false} WithoutAbsent(alerts: seq<AlertEntry>, id: int)
    requires forall i :: 0 <= i < |alerts| ==> alerts[i].id != id
    ensures Without(alerts, id) == alerts
  {
    if alerts != [] {
      WithoutAbsent(alerts[1..], id);
      assert alerts == [alerts[0]] + alerts[1..];
    }
  }

  /** When the numbers are distinct, removing the number of entry i drops
      that entry alone and leaves the rest in their order. */
  lemma {:induction false} WithoutAt(alerts: seq<AlertEntry>, i: nat)
    requires Decreasing(alerts) && i < |alerts|
    ensures Without(alerts, alerts[i].id) == alerts[..i] + alerts[i + 1..]
  {
    var id := alerts[i].id;
    var rest := alerts[1..];
    if i == 0 {
      assert forall k :: 0 <= k < |rest| ==> rest[k].id < id;
      WithoutAbsent(rest, id);
    } else {
      assert Decreasing(rest);
      assert rest[i - 1] == alerts[i];
      WithoutAt(rest, i - 1);
      assert alerts[..i] + alerts[i + 1..] == [alerts[0]] + (rest[..i - 1] + rest[i..]);
    }
  }

  /** Every survivor of a removal carries a number from the list, so bounds
      that hold of all the list's numbers hold of the survivors'. */
  lemma WithoutBounded(alerts: seq<AlertEntry>, id: int, lo: int, hi: int)
    requires forall i :: 0 <= i < |alerts| ==> lo <= alerts[i].id <= hi
    ensures forall k :: 0 <= k < |Without(alerts, id)| ==> lo <= Without(alerts, id)[k].id <= hi
  {
    var w := Without(alerts, id);
    WithoutFilters(alerts, id);
    forall k | 0 <= k < |w| ensures lo <= w[k].id <= hi {
      assert w[k] in alerts;
    }
  }

  /** Removal keeps the numbers decreasing. */
  lemma {:induction false} WithoutDecreasing(alerts: seq<AlertEntry>, id: int)
    requires Decreasing(alerts)
    ensures Decreasing(Without(alerts, id))
  {
    if alerts != [] {
      var rest := alerts[1..];
      var w := Without(rest, id);
      assert Decreasing(rest);
      WithoutDecreasing(rest, id);
      if alerts[0].id != id {
        var r := [alerts[0]] + w;
        var lo := if rest == [] then 0 else rest[|rest| - 1].id;
        assert forall k :: 0 <= k < |rest| ==> lo <= rest[k].id <= alerts[0].id - 1;
        WithoutBounded(rest, id, lo, alerts[0].id - 1);
        forall a, b | 0 <= a < b < |r| ensures r[a].id > r[b].id {
          assert r[b] == w[b - 1];
          if a > 0 {
            assert r[a] == w[a - 1];
          }
        }
      }
    }
  }

  /** Removal keeps the list decreasing and within the counter. */
  lemma WithoutValid(alerts: seq<AlertEntry>, id: int, counter: int)
    requires Decreasing(alerts) && NumberedUpTo(alerts, counter)
    ensures Decreasing(Without(alerts, id)) && NumberedUpTo(Without(alerts, id), counter)
  {
    WithoutDecreasing(alerts, id);
    WithoutBounded(alerts, id, 1, counter);
  }

  /** An alert that is expired before anything else happens leaves the list
      it joined, less its oldest entry when the list was full. */
  lemma AlertThenExpire(alerts: seq<AlertEntry>, entry: AlertEntry, counter: int)
    requires Decreasing(alerts) && NumberedUpTo(alerts, counter) && counter >= 0 && entry.id == counter + 1
    ensures Without(Prepend(alerts, entry), entry.id) == alerts[..Min(MAX_ALERTS - 1, |alerts|)]
  {
    var r := Prepend(alerts, entry);
    PrependShape(alerts, entry);
    PrependDecreasing(alerts, entry, counter);
    WithoutAt(r, 0);
    assert r[..0] + r[1..] == r[1..];
  }

  /** Expiring a number that is in the list removes exactly that entry. */
  lemma ExpireRemovesOne(alerts: seq<AlertEntry>, i: nat)
    requires Decreasing(alerts) && i < |alerts|
    ensures |Without(alerts, alerts[i].id)| == |alerts| - 1
    ensures forall e :: e in Without(alerts, alerts[i].id) <==> e in alerts && e != alerts[i]
  {
    WithoutAt(alerts, i);
    WithoutFilters(alerts, alerts[i].id);
    forall e | e in alerts && e.id == alerts[i].id ensures e == alerts[i] {
      var k :| 0 <= k < |alerts| && alerts[k] == e;
    }
  }

  /** The hook's state. `alertCounter` is `alertIdRef.current`; `lastTick` is
      None until the first snapshot or update. */
  class Dashboard {
    var animals: Roster
    var alerts: seq<AlertEntry>
    var connected: bool
    var lastTick: Option<int>
    var alertCounter: int

    predicate Valid()
      reads this
    {
      && |alerts| <= MAX_ALERTS
      && Decreasing(alerts)
      && NumberedUpTo(alerts, alertCounter)
      && alertCounter >= 0
    }

    constructor ()
      ensures Valid()
      ensures animals == map[] && alerts == [] && !connected && lastTick.None? && alertCounter == 0
    {
      animals := map[];
      alerts := [];
      connected := false;
      lastTick := None;
      alertCounter := 0;
    }

    /** The `connect` event. */
    method OnConnect()
      modifies this
      ensures connected
      ensures animals == old(animals) && alerts == old(alerts) && lastTick == old(lastTick) && alertCounter == old(alertCounter)
    {
      connected := true;
    }

    /** The `disconnect` event. */
    method OnDisconnect()
      modifies this
      ensures !connected
      ensures animals == old(animals) && alerts == old(alerts) && lastTick == old(lastTick) && alertCounter == old(alertCounter)
    {
      connected := false;
    }

    /** The `animals:snapshot` event at time now: the map is replaced as a
        whole, not merged. */
    method OnSnapshot(data: Roster, now: int)
      modifies this
      ensures animals == data && lastTick == Some(now)
      ensures alerts == old(alerts) && connected == old(connected) && alertCounter == old(alertCounter)
    {
      animals := data;
      lastTick := Some(now);
    }

    /** The `animals:update` event at time now: handled exactly as a snapshot. */
    method OnUpdate(data: Roster, now: int)
      modifies this
      ensures animals == data && lastTick == Some(now)
      ensures alerts == old(alerts) && connected == old(connected) && alertCounter == old(alertCounter)
    {
      animals := data;
      lastTick := Some(now);
    }

    /** The `animal:alert` event: the next number, the alert put first, the
        list cut to MAX_ALERTS. Returns the number the expiry timer removes. */
    method OnAlert(alert: BreachAlert) returns (id: int)
      requires Valid()
      modifies this
      ensures Valid()
      ensures id == old(alertCounter) + 1 && alertCounter == id
      ensures alerts == Prepend(old(alerts), AlertEntry(alert, id))
      ensures animals == old(animals) && connected == old(connected) && lastTick == old(lastTick)
    {
      alertCounter := alertCounter + 1;
      id := alertCounter;
      PrependDecreasing(alerts, AlertEntry(alert, id), id - 1);
      PrependShape(alerts, AlertEntry(alert, id));
      alerts := Prepend(alerts, AlertEntry(alert, id));
    }

    /** The expiry timer of alert id firing. */
    method Expire(id: int)
      requires Valid()
      modifies this
      ensures Valid()
      ensures alerts == Without(old(alerts), id)
      ensures animals == old(animals) && connected == old(connected) && lastTick == old(lastTick) && alertCounter == old(alertCounter)
    {
      WithoutValid(alerts, id, alertCounter);
      WithoutFilters(alerts, id);
      alerts := Without(alerts, id);
    }
  }
}
