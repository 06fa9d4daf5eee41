/**
  The location provider's state around the geofence core: the latest sample
  per user, a bounded history of the user's own samples, the zone list, the
  geofencing flags and alert log, and whether sharing is on. Timers are left
  out: one tick of the 3-second sharing interval is the function `Tick`,
  with the clock and the two random draws as parameters.
 */
module LocationContext {
  import opened Options
  import opened Alerts
  import opened Zones
  import opened Geofence
  import Auth

  datatype LocState = LocState(
    locations: map<string, Location>,
    history: seq<Location>,
    zones: seq<SafeZone>,
    geo: GeoState,
    sharing: bool)

  /** How many samples the history keeps. */
  const HistoryLimit: nat := 100

  /** The last `HistoryLimit` elements of `s` (all of them when fewer). */
  function Window(s: seq<Location>): (r: seq<Location>)
    ensures |r| == if |s| < HistoryLimit then |s| else HistoryLimit
  {
    if |s| <= HistoryLimit then s else s[|s| - HistoryLimit..]
  }

  /** `[...prev.slice(-99), newLocation]`: keep at most the 99 newest, then
      append. */
  function PushHistory(h: seq<Location>, loc: Location): (r: seq<Location>)
    ensures 1 <= |r| <= HistoryLimit
    ensures r[|r| - 1] == loc
    ensures |h| < HistoryLimit ==> r == h + [loc]
  {
    var keep := if |h| < HistoryLimit - 1 then |h| else HistoryLimit - 1;
    h[|h| - keep..] + [loc]
  }

  /** Pushing one sample is taking the window of the extended history. */
  lemma PushIsWindow(h: seq<Location>, loc: Location)
    ensures PushHistory(h, loc) == Window(h + [loc])
  {
    var r := PushHistory(h, loc);
    var w := Window(h + [loc]);
    assert |r| == |w|;
    forall i | 0 <= i < |r| ensures r[i] == w[i] {
      if i < |r| - 1 {
        assert r[i] == r[..|r| - 1][i];
      }
    }
  }

  /** Samples pushed one after another, oldest first. */
  function PushAll(h: seq<Location>, locs: seq<Location>): seq<Location>
    decreases |locs|
  {
    if |locs| == 0 then h else PushAll(PushHistory(h, locs[0]), locs[1..])
  }

  lemma WindowStep(s: seq<Location>, loc: Location)
    ensures Window(Window(s) + [loc]) == Window(s + [loc])
  {
    var a := Window(Window(s) + [loc]);
    var b := Window(s + [loc]);
    assert |a| == |b|;
    forall i | 0 <= i < |a| ensures a[i] == b[i] {
    }
  }

  /** Starting from any window, the history after a run of pushes is the
      window of everything pushed: the newest `HistoryLimit` samples, in
      arrival order. */
  lemma {:induction false} PushAllIsWindow(s: seq<Location>, locs: seq<Location>)
    ensures PushAll(Window(s), locs) == Window(s + locs)
    decreases |locs|
  {
    if |locs| == 0 {
      PushNone(s, locs);
    } else {
      PushAllIsWindow(s + [locs[0]], locs[1..]);
      PushStep(s, locs);
    }
  }

  lemma PushNone(s: seq<Location>, locs: seq<Location>)
    requires |locs| == 0
    ensures PushAll(Window(s), locs) == Window(s + locs)
  {
    assert s + locs == s;
    WindowIdempotent(s);
  }

  /** The first push of a run, taken on the window. */
  lemma PushStep(s: seq<Location>, locs: seq<Location>)
    requires |locs| > 0
    requires PushAll(Window(s + [locs[0]]), locs[1..]) == Window((s + [locs[0]]) + locs[1..])
    ensures PushAll(Window(s), locs) == Window(s + locs)
  {
    var s1 := s + [locs[0]];
    var w := Window(s);
    assert PushAll(w, locs) == PushAll(PushHistory(w, locs[0]), locs[1..]);
    PushIsWindow(w, locs[0]);
    WindowStep(s, locs[0]);
    assert PushHistory(w, locs[0]) == Window(s1);
    ConsSplit(s, locs);
  }

  lemma ConsSplit(s: seq<Location>, locs: seq<Location>)
    requires |locs| > 0
    ensures (s + [locs[0]]) + locs[1..] == s + locs
  {
    assert locs == [locs[0]] + locs[1..];
  }

  lemma WindowIdempotent(s: seq<Location>)
    ensures Window(Window(s)) == Window(s)
  {
  }

  /** From an empty history, a run of pushes keeps exactly the newest
      `HistoryLimit` samples. */
  lemma HistoryKeepsNewest(locs: seq<Location>)
    ensures PushAll([], locs) == Window(locs)
  {
    var empty: seq<Location> := [];
    assert Window(empty) == empty;
    PushAllIsWindow(empty, locs);
    assert empty + locs == locs;
  }

  /** startSharing: only the sharing switch changes. */
  function StartSharing(st: LocState): (r: LocState)
    ensures r.sharing
    ensures r.(sharing := st.sharing) == st
  {
    st.(sharing := true)
  }

  /** stopSharing: only the sharing switch changes. */
  function StopSharing(st: LocState): (r: LocState)
    ensures !r.sharing
    ensures r.(sharing := st.sharing) == st
  {
    st.(sharing := false)
  }

  /** Where a user without a sample starts (New York City). */
  const DefaultLat: real := 40.7128
  const DefaultLng: real := -74.0060

  /** One random draw `Math.random() - 0.5` scaled to at most 0.0005 degrees. */
  function Jitter(u: real): (d: real)
    requires 0.0 <= u < 1.0
    ensures -0.0005 <= d < 0.0005
  {
    (u - 0.5) * 0.001
  }

  /** One tick of the sharing interval: with sharing on and a user logged in,
      the user moves by a small random step from the last sample (or the
      default point), the sample is stored, pushed to the history and run
      through geofencing. Otherwise nothing happens. */
  function Tick(st: LocState, user: Option<Auth.User>, u1: real, u2: real, now: int,
                dist: Distance, ids: seq<string>): (r: LocState)
    requires 0.0 <= u1 < 1.0 && 0.0 <= u2 < 1.0
    requires |ids| >= |st.zones|
    ensures !st.sharing || user.None? ==> r == st
    ensures st.sharing && user.Some? ==>
      var uid := user.value.id;
      && uid in r.locations
      && r.locations[uid].userId == uid && r.locations[uid].timestamp == now
      && (forall k :: k in st.locations && k != uid ==> k in r.locations && r.locations[k] == st.locations[k])
      && r.locations.Keys == st.locations.Keys + {uid}
      && r.history == PushHistory(st.history, r.locations[uid])
      && r.geo == CheckGeofencing(user, r.locations[uid], st.zones, dist, st.geo, ids, now)
      && r.zones == st.zones && r.sharing
  {
    if !st.sharing || user.None? then st
    else
      var uid := user.value.id;
      var lat := if uid in st.locations then st.locations[uid].lat else DefaultLat;
      var lng := if uid in st.locations then st.locations[uid].lng else DefaultLng;
      var loc := Location(lat + Jitter(u1), lng + Jitter(u2), now, uid);
      LocState(st.locations[uid := loc], PushHistory(st.history, loc), st.zones,
               CheckGeofencing(user, loc, st.zones, dist, st.geo, ids, now), st.sharing)
  }

  /** A tick moves the user at most 0.0005 degrees in each direction from
      the previous sample, or from the default point when there was none. */
  lemma TickStepIsSmall(st: LocState, user: Option<Auth.User>, u1: real, u2: real, now: int,
                        dist: Distance, ids: seq<string>)
    requires 0.0 <= u1 < 1.0 && 0.0 <= u2 < 1.0
    requires |ids| >= |st.zones|
    requires st.sharing && user.Some?
    ensures var uid := user.value.id;
      var r := Tick(st, user, u1, u2, now, dist, ids);
      var lat := if uid in st.locations then st.locations[uid].lat else DefaultLat;
      var lng := if uid in st.locations then st.locations[uid].lng else DefaultLng;
      && -0.0005 <= r.locations[uid].lat - lat < 0.0005
      && -0.0005 <= r.locations[uid].lng - lng < 0.0005
  {
  }

  /** After stopSharing a tick does nothing. */
  lemma StoppedTickIsNoop(st: LocState, user: Option<Auth.User>, u1: real, u2: real, now: int,
                          dist: Distance, ids: seq<string>)
    requires 0.0 <= u1 < 1.0 && 0.0 <= u2 < 1.0
    requires |ids| >= |st.zones|
    ensures Tick(StopSharing(st), user, u1, u2, now, dist, ids) == StopSharing(st)
  {
  }

  /** The SOS text; the leading character is U+1F6A8 (police car light). */
  function SosMessage(userName: string): (r: string)
    ensures |r| == 13 + |userName| + 21
    ensures r[0] == '\U{1F6A8}' && r[1..13] == " EMERGENCY: "
    ensures r[13..13 + |userName|] == userName
    ensures r[13 + |userName|..] == " triggered SOS alert!"
  {
    "\U{1F6A8} EMERGENCY: " + userName + " triggered SOS alert!"
  }

  /** triggerSOS: with a user logged in, one unacknowledged `sos` alert about
      that user goes in front of the log; without one, nothing. */
  function TriggerSOS(alerts: seq<Alert>, user: Option<Auth.User>, id: string, now: int): (r: seq<Alert>)
    ensures user.None? ==> r == alerts
    ensures user.Some? ==>
      && |r| == |alerts| + 1 && r[1..] == alerts
      && r[0].kind == Sos && r[0].id == id && r[0].timestamp == now && !r[0].acknowledged
      && r[0].userId == user.value.id && r[0].userName == user.value.name
      && r[0].message == SosMessage(user.value.name)
  {
    match user
    case None => alerts
    case Some(u) => AddAlert(alerts, AlertDraft(Sos, SosMessage(u.name), u.id, u.name), id, now)
  }

  /** How many alerts of a kind the log holds. */
  function CountKind(log: seq<Alert>, kind: AlertType): (n: nat)
    ensures n <= |log|
  {
    if |log| == 0 then 0 else (if log[0].kind == kind then 1 else 0) + CountKind(log[1..], kind)
  }

  /** An SOS adds exactly one `sos` alert when a user is present, none
      otherwise, and no alert of any other kind. */
  lemma TriggerSOSCounts(alerts: seq<Alert>, user: Option<Auth.User>, id: string, now: int, kind: AlertType)
    ensures var r := TriggerSOS(alerts, user, id, now);
      CountKind(r, kind) == CountKind(alerts, kind) + (if user.Some? && kind == Sos then 1 else 0)
  {
  }
}
