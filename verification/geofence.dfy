/**
  Geofence transition detection. For every zone, a sample's "inside now"
  (distance at most the radius) is compared with the persisted "was inside"
  flag for (zone, user); an edge emits an entry or exit alert and writes the
  flag, no edge emits and writes nothing. The haversine distance is not
  computed: it is a parameter `dist`.
 */
module Geofence {
  import opened Options
  import opened Alerts
  import opened Zones
  import Auth

  datatype Location = Location(lat: real, lng: real, timestamp: int, userId: string)

  /** Distance in meters from a sample to a zone's centre. */
  type Distance = (Location, SafeZone) -> real

  /** The persisted membership flags: the key (zoneId, userId) stands for the
      storage key `zone_<zoneId>_<userId>`, the value for the stored string
      ('true' or 'false'). */
  type Flags = map<(string, string), bool>

  /** A flag counts as inside only when present and true. */
  function WasInside(flags: Flags, zoneId: string, userId: string): (r: bool)
    ensures (zoneId, userId) !in flags ==> !r
    ensures (zoneId, userId) in flags ==> r == flags[(zoneId, userId)]
  {
    (zoneId, userId) in flags && flags[(zoneId, userId)]
  }

  /** The boundary itself is inside. */
  predicate Inside(dist: Distance, loc: Location, zone: SafeZone)
    ensures dist(loc, zone) == zone.radius ==> Inside(dist, loc, zone)
    ensures dist(loc, zone) < zone.radius ==> Inside(dist, loc, zone)
    ensures dist(loc, zone) > zone.radius ==> !Inside(dist, loc, zone)
  {
    dist(loc, zone) <= zone.radius
  }

  /** Two flag maps hold the same entry (or both none) for key `k`. */
  predicate Agree(f: Flags, g: Flags, k: (string, string))
  {
    (k in f <==> k in g) && (k in f ==> f[k] == g[k])
  }

  /** The transition a zone reports, if any. */
  function Edge(wasInside: bool, isInside: bool): (r: Option<AlertType>)
    ensures r == Some(ZoneEntry) <==> isInside && !wasInside
    ensures r == Some(ZoneExit) <==> !isInside && wasInside
    ensures r.None? <==> isInside == wasInside
  {
    if isInside && !wasInside then Some(ZoneEntry)
    else if !isInside && wasInside then Some(ZoneExit)
    else None
  }

  function EdgeSeq(wasInside: bool, isInside: bool): seq<AlertType>
  {
    match Edge(wasInside, isInside)
    case None => []
    case Some(k) => [k]
  }

  /** `<user> entered <zone>`. */
  function EntryMessage(userName: string, zoneName: string): (r: string)
    ensures |r| == |userName| + 9 + |zoneName|
    ensures r[..|userName|] == userName
    ensures r[|userName|..|userName| + 9] == " entered "
    ensures r[|userName| + 9..] == zoneName
  {
    userName + " entered " + zoneName
  }

  /** `<user> left <zone>`. */
  function ExitMessage(userName: string, zoneName: string): (r: string)
    ensures |r| == |userName| + 6 + |zoneName|
    ensures r[..|userName|] == userName
    ensures r[|userName|..|userName| + 6] == " left "
    ensures r[|userName| + 6..] == zoneName
  {
    userName + " left " + zoneName
  }

  /** For the same user and zone, entry and exit messages never coincide. */
  lemma EntryExitMessagesDiffer(userName: string, zoneName: string)
    ensures EntryMessage(userName, zoneName) != ExitMessage(userName, zoneName)
  {
  }

  /** The shape of every alert geofencing emits. */
  predicate ZoneAlert(a: Alert, userId: string, userName: string, now: int)
  {
    && (a.kind == ZoneEntry || a.kind == ZoneExit)
    && a.userId == userId && a.userName == userName
    && a.timestamp == now && !a.acknowledged
  }

  /** What evaluating zones against a sample produces: the flags afterwards
      and the alerts emitted, newest first. */
  datatype Outcome = Outcome(flags: Flags, emitted: seq<Alert>)

  /** The body of the per-zone loop: compare, and on an edge emit and write. */
  function ZoneStep(zone: SafeZone, loc: Location, inside: bool, userName: string,
                    flags: Flags, id: string, now: int): (r: Outcome)
    ensures var was := WasInside(flags, zone.id, loc.userId);
      && (Edge(was, inside).None? <==> r.emitted == [])
      && (Edge(was, inside).None? ==> r.flags == flags)
      && (Edge(was, inside).Some? ==>
            && |r.emitted| == 1 && r.emitted[0].kind == Edge(was, inside).value
            && r.emitted[0].id == id && ZoneAlert(r.emitted[0], loc.userId, userName, now)
            && r.emitted[0].message
                 == (if inside then EntryMessage(userName, zone.name) else ExitMessage(userName, zone.name)))
    ensures WasInside(r.flags, zone.id, loc.userId) == inside
  {
    var key := (zone.id, loc.userId);
    var was := WasInside(flags, zone.id, loc.userId);
    if inside && !was then
      var d := AlertDraft(ZoneEntry, EntryMessage(userName, zone.name), loc.userId, userName);
      Outcome(flags[key := true], AddAlert([], d, id, now))
    else if !inside && was then
      var d := AlertDraft(ZoneExit, ExitMessage(userName, zone.name), loc.userId, userName);
      Outcome(flags[key := false], AddAlert([], d, id, now))
    else
      Outcome(flags, [])
  }

  /** A step writes at most the flag of its own (zone, user) key. */
  lemma ZoneStepFrame(zone: SafeZone, loc: Location, inside: bool, userName: string,
                      flags: Flags, id: string, now: int, k: (string, string))
    requires k != (zone.id, loc.userId)
    ensures Agree(ZoneStep(zone, loc, inside, userName, flags, id, now).flags, flags, k)
  {
  }

  /** The `forEach` over the zones: zone i may use alert id ids[i]. Each
      alert goes in front of the log, so the last zone's alert ends up first. */
  function Evaluate(zones: seq<SafeZone>, loc: Location, dist: Distance, userName: string,
                    flags: Flags, ids: seq<string>, now: int): (r: Outcome)
    requires |ids| >= |zones|
    ensures |r.emitted| <= |zones|
    decreases |zones|
  {
    if |zones| == 0 then Outcome(flags, [])
    else
      var o := ZoneStep(zones[0], loc, Inside(dist, loc, zones[0]), userName, flags, ids[0], now);
      var rest := Evaluate(zones[1..], loc, dist, userName, o.flags, ids[1..], now);
      Outcome(rest.flags, rest.emitted + o.emitted)
  }

  /** The location context's geofencing state: flags and alert log. */
  datatype GeoState = GeoState(flags: Flags, alerts: seq<Alert>)

  /** One evaluation applied to the state: the emitted alerts are put in
      front of the log, which is otherwise untouched. */
  function CheckZones(zones: seq<SafeZone>, loc: Location, dist: Distance, userName: string,
                      st: GeoState, ids: seq<string>, now: int): (r: GeoState)
    requires |ids| >= |zones|
    ensures |st.alerts| <= |r.alerts| <= |st.alerts| + |zones|
    ensures r.alerts[|r.alerts| - |st.alerts|..] == st.alerts
  {
    var o := Evaluate(zones, loc, dist, userName, st.flags, ids, now);
    GeoState(o.flags, o.emitted + st.alerts)
  }

  /** checkGeofencing: nothing without a logged-in user, whose name the
      messages carry; the flags are keyed by the sample's user id. */
  function CheckGeofencing(user: Option<Auth.User>, loc: Location, zones: seq<SafeZone>,
                           dist: Distance, st: GeoState, ids: seq<string>, now: int): (r: GeoState)
    requires |ids| >= |zones|
    ensures user.None? ==> r == st
    ensures user.Some? ==>
      && |st.alerts| <= |r.alerts| <= |st.alerts| + |zones|
      && r.alerts[|r.alerts| - |st.alerts|..] == st.alerts
      && forall a :: a in r.alerts[..|r.alerts| - |st.alerts|] ==> ZoneAlert(a, loc.userId, user.value.name, now)
  {
    if user.None? then st
    else
      var o := Evaluate(zones, loc, dist, user.value.name, st.flags, ids, now);
      EvaluateAlerts(zones, loc, dist, user.value.name, st.flags, ids, now);
      assert (o.emitted + st.alerts)[..|o.emitted|] == o.emitted;
      CheckZones(zones, loc, dist, user.value.name, st, ids, now)
  }

  /** Every alert an evaluation emits is an unacknowledged entry or exit
      alert about the sample's user, stamped with the evaluation time. */
  lemma {:induction false} EvaluateAlerts(zones: seq<SafeZone>, loc: Location, dist: Distance, userName: string,
                                          flags: Flags, ids: seq<string>, now: int)
    requires |ids| >= |zones|
    ensures forall a :: a in Evaluate(zones, loc, dist, userName, flags, ids, now).emitted ==>
      ZoneAlert(a, loc.userId, userName, now)
  {
    if |zones| > 0 {
      var o := ZoneStep(zones[0], loc, Inside(dist, loc, zones[0]), userName, flags, ids[0], now);
      EvaluateAlerts(zones[1..], loc, dist, userName, o.flags, ids[1..], now);
    }
  }

  /** An evaluation leaves the flags of other users, and of zones not in the
      list, as they were. */
  lemma {:induction false} EvaluateFrame(zones: seq<SafeZone>, loc: Location, dist: Distance, userName: string,
                                         flags: Flags, ids: seq<string>, now: int, k: (string, string))
    requires |ids| >= |zones|
    requires k.1 != loc.userId || k.0 !in ZoneIds(zones)
    ensures Agree(Evaluate(zones, loc, dist, userName, flags, ids, now).flags, flags, k)
  {
    if |zones| > 0 {
      var o := ZoneStep(zones[0], loc, Inside(dist, loc, zones[0]), userName, flags, ids[0], now);
      ZoneStepFrame(zones[0], loc, Inside(dist, loc, zones[0]), userName, flags, ids[0], now, k);
      EvaluateFrame(zones[1..], loc, dist, userName, o.flags, ids[1..], now, k);
    }
  }

  /** After one evaluation the effective flag of every listed zone equals
      whether the sample is inside it, although a flag is written only on a
      transition. */
  lemma {:induction false} EvaluateSettlesFlags(zones: seq<SafeZone>, loc: Location, dist: Distance,
                                                userName: string, flags: Flags, ids: seq<string>, now: int)
    requires |ids| >= |zones|
    requires UniqueIds(zones)
    ensures var r := Evaluate(zones, loc, dist, userName, flags, ids, now);
      forall z :: z in zones ==> WasInside(r.flags, z.id, loc.userId) == Inside(dist, loc, z)
  {
    if |zones| > 0 {
      var o := ZoneStep(zones[0], loc, Inside(dist, loc, zones[0]), userName, flags, ids[0], now);
      var r := Evaluate(zones[1..], loc, dist, userName, o.flags, ids[1..], now);
      EvaluateSettlesFlags(zones[1..], loc, dist, userName, o.flags, ids[1..], now);
      EvaluateFrame(zones[1..], loc, dist, userName, o.flags, ids[1..], now, (zones[0].id, loc.userId));
      forall z | z in zones ensures WasInside(r.flags, z.id, loc.userId) == Inside(dist, loc, z)
      {
        if z != zones[0] {
          assert z in zones[1..];
        }
      }
    }
  }

  /** Reference definition: the kinds a sample emits, newest first, read
      against the flags as they were before the sample. */
  function Transitions(zones: seq<SafeZone>, loc: Location, dist: Distance, flags: Flags): (r: seq<AlertType>)
    ensures |r| <= |zones|
  {
    if |zones| == 0 then []
    else
      Transitions(zones[1..], loc, dist, flags)
        + EdgeSeq(WasInside(flags, zones[0].id, loc.userId), Inside(dist, loc, zones[0]))
  }

  function Kinds(s: seq<Alert>): (r: seq<AlertType>)
    ensures |r| == |s|
  {
    if |s| == 0 then [] else [s[0].kind] + Kinds(s[1..])
  }

  lemma {:induction false} KindsConcat(a: seq<Alert>, b: seq<Alert>)
    ensures Kinds(a + b) == Kinds(a) + Kinds(b)
  {
    if |a| == 0 {
      assert a + b == b;
    } else {
      assert (a + b)[1..] == a[1..] + b;
      KindsConcat(a[1..], b);
    }
  }

  /** The transitions read only the flags of the listed zones for this user. */
  lemma {:induction false} TransitionsFrame(zones: seq<SafeZone>, loc: Location, dist: Distance, f: Flags, g: Flags)
    requires forall id :: id in ZoneIds(zones) ==> WasInside(f, id, loc.userId) == WasInside(g, id, loc.userId)
    ensures Transitions(zones, loc, dist, f) == Transitions(zones, loc, dist, g)
  {
    if |zones| > 0 {
      TransitionsFrame(zones[1..], loc, dist, f, g);
    }
  }

  /** The kinds one step emits: its edge, if any. */
  lemma ZoneStepKinds(zone: SafeZone, loc: Location, inside: bool, userName: string,
                      flags: Flags, id: string, now: int)
    ensures Kinds(ZoneStep(zone, loc, inside, userName, flags, id, now).emitted)
      == EdgeSeq(WasInside(flags, zone.id, loc.userId), inside)
  {
    var r := ZoneStep(zone, loc, inside, userName, flags, id, now);
    if |r.emitted| == 1 {
      assert r.emitted[1..] == [];
    }
  }

  /** The first zone's step does not change what the later zones read. */
  lemma StepKeepsLaterTransitions(zones: seq<SafeZone>, loc: Location, dist: Distance,
                                  userName: string, flags: Flags, id: string, now: int)
    requires |zones| > 0 && UniqueIds(zones)
    ensures var o := ZoneStep(zones[0], loc, Inside(dist, loc, zones[0]), userName, flags, id, now);
      Transitions(zones[1..], loc, dist, o.flags) == Transitions(zones[1..], loc, dist, flags)
  {
    var o := ZoneStep(zones[0], loc, Inside(dist, loc, zones[0]), userName, flags, id, now);
    forall id' | id' in ZoneIds(zones[1..])
      ensures WasInside(o.flags, id', loc.userId) == WasInside(flags, id', loc.userId)
    {
      ZoneStepFrame(zones[0], loc, Inside(dist, loc, zones[0]), userName, flags, id, now, (id', loc.userId));
    }
    TransitionsFrame(zones[1..], loc, dist, o.flags, flags);
  }

  /** With distinct zone ids, one evaluation emits exactly the reference
      transitions: one alert per zone whose membership flipped, none for the
      others, newest first. */
  lemma {:induction false} EvaluateEmits(zones: seq<SafeZone>, loc: Location, dist: Distance,
                                         userName: string, flags: Flags, ids: seq<string>, now: int)
    requires |ids| >= |zones|
    requires UniqueIds(zones)
    ensures Kinds(Evaluate(zones, loc, dist, userName, flags, ids, now).emitted) == Transitions(zones, loc, dist, flags)
  {
    if |zones| > 0 {
      var o := ZoneStep(zones[0], loc, Inside(dist, loc, zones[0]), userName, flags, ids[0], now);
      var rest := Evaluate(zones[1..], loc, dist, userName, o.flags, ids[1..], now);
      EvaluateEmits(zones[1..], loc, dist, userName, o.flags, ids[1..], now);
      StepKeepsLaterTransitions(zones, loc, dist, userName, flags, ids[0], now);
      ZoneStepKinds(zones[0], loc, Inside(dist, loc, zones[0]), userName, flags, ids[0], now);
      KindsConcat(rest.emitted, o.emitted);
    }
  }

  /** A second sample still inside the zone reports nothing and writes nothing. */
  lemma StayingInsideIsQuiet(zone: SafeZone, loc: Location, dist: Distance, userName: string,
                             st: GeoState, ids: seq<string>, now: int)
    requires |ids| >= 1
    requires WasInside(st.flags, zone.id, loc.userId) && Inside(dist, loc, zone)
    ensures CheckZones([zone], loc, dist, userName, st, ids, now) == st
  {
    SingleZoneIsStep(zone, loc, dist, userName, st.flags, ids, now);
    assert [] + st.alerts == st.alerts;
  }

  /** The transitions one zone reports, oldest first, across consecutive
      samples of one user whose memberships are `insides`; `was` is the flag
      before the first sample. */
  function ZoneTrace(was: bool, insides: seq<bool>): seq<AlertType>
    decreases |insides|
  {
    if |insides| == 0 then []
    else EdgeSeq(was, insides[0]) + ZoneTrace(insides[0], insides[1..])
  }

  /** The trace alternates entry and exit, starting with an entry when the
      user was outside (or had no flag), and holds at most one transition per
      sample. */
  lemma {:induction false} ZoneTraceAlternates(was: bool, insides: seq<bool>)
    ensures var t := ZoneTrace(was, insides);
      && |t| <= |insides|
      && forall i :: 0 <= i < |t| ==> t[i] == (if (i % 2 == 0) == was then ZoneExit else ZoneEntry)
    decreases |insides|
  {
    if |insides| > 0 {
      ZoneTraceAlternates(insides[0], insides[1..]);
    }
  }

  function Reverse<T>(s: seq<T>): (r: seq<T>)
    ensures |r| == |s|
  {
    if |s| == 0 then [] else Reverse(s[1..]) + [s[0]]
  }

  lemma {:induction false} ReverseConcat<T>(a: seq<T>, b: seq<T>)
    ensures Reverse(a + b) == Reverse(b) + Reverse(a)
  {
    if |a| == 0 {
      assert a + b == b;
    } else {
      assert (a + b)[1..] == a[1..] + b;
      ReverseConcat(a[1..], b);
    }
  }

  /** Newest first, a trace is the rest's trace followed by the first edge. */
  lemma ReverseTraceStep(was: bool, insides: seq<bool>)
    requires |insides| > 0
    ensures Reverse(ZoneTrace(was, insides))
      == Reverse(ZoneTrace(insides[0], insides[1..])) + EdgeSeq(was, insides[0])
  {
    var e := EdgeSeq(was, insides[0]);
    ReverseConcat(e, ZoneTrace(insides[0], insides[1..]));
    assert Reverse(e) == e by {
      if |e| == 1 {
        assert e[1..] == [];
      }
    }
  }

  /** `ids` holds at least `n` id lists of at least `width` ids each. */
  predicate Supplies(ids: seq<seq<string>>, n: nat, width: nat)
    decreases n
  {
    |ids| >= n && (n == 0 || (|ids[0]| >= width && Supplies(ids[1..], n - 1, width)))
  }

  /** Samples evaluated one after another, sample i with the alert ids
      ids[i] and its own timestamp as the alert time: the final flags and
      every alert emitted, newest first. */
  function Track(zones: seq<SafeZone>, locs: seq<Location>, dist: Distance, userName: string,
                 flags: Flags, ids: seq<seq<string>>): (r: Outcome)
    requires Supplies(ids, |locs|, |zones|)
    decreases |locs|
  {
    if |locs| == 0 then Outcome(flags, [])
    else
      var o := Evaluate(zones, locs[0], dist, userName, flags, ids[0], locs[0].timestamp);
      var rest := Track(zones, locs[1..], dist, userName, o.flags, ids[1..]);
      Outcome(rest.flags, rest.emitted + o.emitted)
  }

  /** The same samples fed to `CheckZones` one after another. */
  function Feed(zones: seq<SafeZone>, locs: seq<Location>, dist: Distance, userName: string,
                st: GeoState, ids: seq<seq<string>>): (r: GeoState)
    requires Supplies(ids, |locs|, |zones|)
    ensures |st.alerts| <= |r.alerts|
    decreases |locs|
  {
    if |locs| == 0 then st
    else
      var s1 := CheckZones(zones, locs[0], dist, userName, st, ids[0], locs[0].timestamp);
      Feed(zones, locs[1..], dist, userName, s1, ids[1..])
  }

  /** Feeding samples one by one puts exactly the tracked alerts in front of
      the log and ends with the tracked flags. */
  lemma {:induction false} FeedIsTrack(zones: seq<SafeZone>, locs: seq<Location>, dist: Distance, userName: string,
                                       st: GeoState, ids: seq<seq<string>>)
    requires Supplies(ids, |locs|, |zones|)
    ensures var t := Track(zones, locs, dist, userName, st.flags, ids);
      Feed(zones, locs, dist, userName, st, ids) == GeoState(t.flags, t.emitted + st.alerts)
    decreases |locs|
  {
    if |locs| > 0 {
      var s1 := CheckZones(zones, locs[0], dist, userName, st, ids[0], locs[0].timestamp);
      var o := Evaluate(zones, locs[0], dist, userName, st.flags, ids[0], locs[0].timestamp);
      var rest := Track(zones, locs[1..], dist, userName, o.flags, ids[1..]);
      assert s1 == GeoState(o.flags, o.emitted + st.alerts);
      assert Track(zones, locs, dist, userName, st.flags, ids) == Outcome(rest.flags, rest.emitted + o.emitted);
      assert Feed(zones, locs, dist, userName, st, ids) == Feed(zones, locs[1..], dist, userName, s1, ids[1..]);
      FeedIsTrack(zones, locs[1..], dist, userName, s1, ids[1..]);
      assert rest.emitted + (o.emitted + st.alerts) == (rest.emitted + o.emitted) + st.alerts;
    }
  }

  /** `insides` lists whether each sample lies inside `zone`. */
  predicate InsidesOf(insides: seq<bool>, dist: Distance, locs: seq<Location>, zone: SafeZone)
  {
    |insides| == |locs| && forall i :: 0 <= i < |locs| ==> insides[i] == Inside(dist, locs[i], zone)
  }

  predicate SameUser(locs: seq<Location>, userId: string)
  {
    forall i :: 0 <= i < |locs| ==> locs[i].userId == userId
  }

  lemma Tails(locs: seq<Location>, userId: string, insides: seq<bool>, dist: Distance, zone: SafeZone)
    requires |locs| > 0 && SameUser(locs, userId) && InsidesOf(insides, dist, locs, zone)
    ensures SameUser(locs[1..], userId) && InsidesOf(insides[1..], dist, locs[1..], zone)
  {
    forall i | 0 <= i < |locs| - 1 ensures locs[1..][i] == locs[i + 1] && insides[1..][i] == insides[i + 1] {
    }
  }

  /** A single zone evaluates as one step. */
  lemma SingleZoneIsStep(zone: SafeZone, loc: Location, dist: Distance, userName: string,
                         flags: Flags, ids: seq<string>, now: int)
    requires |ids| >= 1
    ensures Evaluate([zone], loc, dist, userName, flags, ids, now)
      == ZoneStep(zone, loc, Inside(dist, loc, zone), userName, flags, ids[0], now)
  {
    assert [zone][1..] == [];
  }

  /** For one zone and one user, the alerts a run of samples emits are the
      zone's trace, newest first. */
  lemma {:induction false} TrackOneZone(zone: SafeZone, locs: seq<Location>, dist: Distance, userName: string,
                                        flags: Flags, ids: seq<seq<string>>, userId: string, insides: seq<bool>)
    requires Supplies(ids, |locs|, 1)
    requires SameUser(locs, userId)
    requires InsidesOf(insides, dist, locs, zone)
    ensures Kinds(Track([zone], locs, dist, userName, flags, ids).emitted)
      == Reverse(ZoneTrace(WasInside(flags, zone.id, userId), insides))
    decreases |locs|
  {
    if |locs| > 0 {
      var o := Evaluate([zone], locs[0], dist, userName, flags, ids[0], locs[0].timestamp);
      var rest := Track([zone], locs[1..], dist, userName, o.flags, ids[1..]);
      SingleZoneIsStep(zone, locs[0], dist, userName, flags, ids[0], locs[0].timestamp);
      ZoneStepKinds(zone, locs[0], insides[0], userName, flags, ids[0][0], locs[0].timestamp);
      Tails(locs, userId, insides, dist, zone);
      TrackOneZone(zone, locs[1..], dist, userName, o.flags, ids[1..], userId, insides[1..]);
      KindsConcat(rest.emitted, o.emitted);
      ReverseTraceStep(WasInside(flags, zone.id, userId), insides);
    }
  }

  /** Over a run of one user's samples, with distinct zone ids, every listed
      zone's flag ends as whether the last sample lies inside it (and is
      untouched by an empty run). */
  lemma {:induction false} TrackSettlesFlags(zones: seq<SafeZone>, locs: seq<Location>, dist: Distance,
                                             userName: string, flags: Flags, ids: seq<seq<string>>, userId: string)
    requires Supplies(ids, |locs|, |zones|)
    requires UniqueIds(zones) && SameUser(locs, userId)
    ensures var r := Track(zones, locs, dist, userName, flags, ids);
      forall z :: z in zones ==>
        WasInside(r.flags, z.id, userId)
          == (if |locs| == 0 then WasInside(flags, z.id, userId) else Inside(dist, locs[|locs| - 1], z))
    decreases |locs|
  {
    if |locs| > 0 {
      var o := Evaluate(zones, locs[0], dist, userName, flags, ids[0], locs[0].timestamp);
      EvaluateSettlesFlags(zones, locs[0], dist, userName, flags, ids[0], locs[0].timestamp);
      assert SameUser(locs[1..], userId);
      TrackSettlesFlags(zones, locs[1..], dist, userName, o.flags, ids[1..], userId);
      if |locs| > 1 {
        assert locs[1..][|locs| - 2] == locs[|locs| - 1];
      }
    }
  }

  /** A zone evaluated among others keeps the same flag, after any run of
      one user's samples, as when it is the only zone. Since a sample's
      transition for a zone is read from that flag alone, the zone emits at
      each sample what it would emit on its own. */
  lemma TrackZoneAgrees(zones: seq<SafeZone>, z: SafeZone, locs: seq<Location>, dist: Distance, userName: string,
                        flags: Flags, ids: seq<seq<string>>, ids1: seq<seq<string>>, userId: string)
    requires Supplies(ids, |locs|, |zones|) && Supplies(ids1, |locs|, 1)
    requires UniqueIds(zones) && z in zones && SameUser(locs, userId)
    ensures WasInside(Track(zones, locs, dist, userName, flags, ids).flags, z.id, userId)
      == WasInside(Track([z], locs, dist, userName, flags, ids1).flags, z.id, userId)
  {
    assert ZoneIds([z][1..]) == {};
    TrackSettlesFlags(zones, locs, dist, userName, flags, ids, userId);
    TrackSettlesFlags([z], locs, dist, userName, flags, ids1, userId);
  }

  /** Reference definition: the transitions between two consecutive samples,
      newest zone first, each zone comparing where the two samples lie. */
  function Steps(zones: seq<SafeZone>, prev: Location, cur: Location, dist: Distance): (r: seq<AlertType>)
    ensures |r| <= |zones|
  {
    if |zones| == 0 then []
    else Steps(zones[1..], prev, cur, dist) + EdgeSeq(Inside(dist, prev, zones[0]), Inside(dist, cur, zones[0]))
  }

  /** The transitions of the samples after the first, newest first. */
  function Later(zones: seq<SafeZone>, locs: seq<Location>, dist: Distance): seq<AlertType>
    decreases |locs|
  {
    if |locs| <= 1 then []
    else Later(zones, locs[1..], dist) + Steps(zones, locs[0], locs[1], dist)
  }

  /** Reference definition of a whole run, newest first: the first sample is
      read against the stored flags, every later one against the sample
      before it. No flag map is threaded through. */
  function Run(zones: seq<SafeZone>, locs: seq<Location>, dist: Distance, flags: Flags): seq<AlertType>
  {
    if |locs| == 0 then [] else Later(zones, locs, dist) + Transitions(zones, locs[0], dist, flags)
  }

  /** Flags that record where `prev` lay give the transitions of `Steps`. */
  lemma {:induction false} TransitionsAreSteps(zones: seq<SafeZone>, prev: Location, cur: Location,
                                               dist: Distance, flags: Flags)
    requires forall z :: z in zones ==> WasInside(flags, z.id, cur.userId) == Inside(dist, prev, z)
    ensures Transitions(zones, cur, dist, flags) == Steps(zones, prev, cur, dist)
  {
    if |zones| > 0 {
      TransitionsAreSteps(zones[1..], prev, cur, dist, flags);
    }
  }

  /** With distinct zone ids and one user, any number of zones and samples
      emit exactly the reference run: at every sample after the first, each
      zone reports the edge between where the previous and the current
      sample lie, which is the next step of that zone's own trace. */
  lemma {:induction false} TrackEmitsRun(zones: seq<SafeZone>, locs: seq<Location>, dist: Distance,
                                         userName: string, flags: Flags, ids: seq<seq<string>>, userId: string)
    requires Supplies(ids, |locs|, |zones|)
    requires UniqueIds(zones) && SameUser(locs, userId)
    ensures Kinds(Track(zones, locs, dist, userName, flags, ids).emitted) == Run(zones, locs, dist, flags)
    decreases |locs|
  {
    if |locs| > 0 {
      var o := Evaluate(zones, locs[0], dist, userName, flags, ids[0], locs[0].timestamp);
      var rest := Track(zones, locs[1..], dist, userName, o.flags, ids[1..]);
      EvaluateEmits(zones, locs[0], dist, userName, flags, ids[0], locs[0].timestamp);
      KindsConcat(rest.emitted, o.emitted);
      assert SameUser(locs[1..], userId);
      TrackEmitsRun(zones, locs[1..], dist, userName, o.flags, ids[1..], userId);
      if |locs| > 1 {
        EvaluateSettlesFlags(zones, locs[0], dist, userName, flags, ids[0], locs[0].timestamp);
        assert locs[1..][0] == locs[1];
        TransitionsAreSteps(zones, locs[0], locs[1], dist, o.flags);
      }
    }
  }

  /** The walk-through of a single "Home" zone: inside, far outside, back
      inside, with no flag stored beforehand, emits entry, exit, entry. */
  lemma HomeScenario(home: SafeZone, l1: Location, l2: Location, l3: Location, dist: Distance,
                     userName: string, flags: Flags, ids: seq<seq<string>>)
    requires l1.userId == l2.userId == l3.userId
    requires (home.id, l1.userId) !in flags
    requires Inside(dist, l1, home) && !Inside(dist, l2, home) && Inside(dist, l3, home)
    requires |ids| == 3 && |ids[0]| >= 1 && |ids[1]| >= 1 && |ids[2]| >= 1
    ensures Kinds(Track([home], [l1, l2, l3], dist, userName, flags, ids).emitted) == [ZoneEntry, ZoneExit, ZoneEntry]
  {
    var locs := [l1, l2, l3];
    SuppliesThree(ids);
    TrackOneZone(home, locs, dist, userName, flags, ids, l1.userId, [true, false, true]);
    EntryExitEntry();
  }

  lemma SuppliesThree(ids: seq<seq<string>>)
    requires |ids| == 3 && |ids[0]| >= 1 && |ids[1]| >= 1 && |ids[2]| >= 1
    ensures Supplies(ids, 3, 1)
  {
    assert ids[1..][1..] == [ids[2]];
  }

  /** Outside, then inside, outside, inside: entry, exit, entry. */
  lemma EntryExitEntry()
    ensures Reverse(ZoneTrace(false, [true, false, true])) == [ZoneEntry, ZoneExit, ZoneEntry]
  {
    assert ZoneTrace(false, [true]) == [ZoneEntry] + ZoneTrace(true, []);
    assert ZoneTrace(true, [false, true]) == [ZoneExit] + ZoneTrace(false, [true]);
    assert ZoneTrace(false, [true, false, true]) == [ZoneEntry] + ZoneTrace(true, [false, true]);
    assert [ZoneEntry, ZoneExit, ZoneEntry][1..] == [ZoneExit, ZoneEntry];
    assert [ZoneExit, ZoneEntry][1..] == [ZoneEntry];
  }
}
