/**
  The safe-zone list: circular zones appended with a fresh id and removed by
  id. Coordinates and radius are reals; the model never computes with them
  beyond comparing a distance against the radius.
 */
module Zones {

  datatype SafeZone = SafeZone(id: string, name: string, lat: real, lng: real, radius: real, color: string)

  /** A zone as the caller describes it, before an id is assigned. */
  datatype ZoneSpec = ZoneSpec(name: string, lat: real, lng: real, radius: real, color: string)

  function WithId(spec: ZoneSpec, id: string): SafeZone
  {
    SafeZone(id, spec.name, spec.lat, spec.lng, spec.radius, spec.color)
  }

  /** The ids the list carries. */
  function ZoneIds(zones: seq<SafeZone>): set<string>
  {
    if |zones| == 0 then {} else {zones[0].id} + ZoneIds(zones[1..])
  }

  /** No id occurs twice in the list. */
  predicate UniqueIds(zones: seq<SafeZone>)
  {
    |zones| == 0 || (zones[0].id !in ZoneIds(zones[1..]) && UniqueIds(zones[1..]))
  }

  /** `ZoneIds` holds exactly the ids found at some index. */
  lemma {:induction false} ZoneIdsIndex(zones: seq<SafeZone>, id: string)
    ensures id in ZoneIds(zones) <==> exists i :: 0 <= i < |zones| && zones[i].id == id
  {
    if |zones| > 0 {
      ZoneIdsIndex(zones[1..], id);
      if id in ZoneIds(zones[1..]) {
        var i :| 0 <= i < |zones| - 1 && zones[1..][i].id == id;
        assert zones[i + 1].id == id;
      }
      if exists i :: 1 <= i < |zones| && zones[i].id == id {
        var i :| 1 <= i < |zones| && zones[i].id == id;
        assert zones[1..][i - 1].id == id;
      }
    }
  }

  /** `UniqueIds` is pairwise distinctness of the ids. */
  lemma {:induction false} UniqueIdsPairwise(zones: seq<SafeZone>)
    ensures UniqueIds(zones) <==> forall i, j :: 0 <= i < j < |zones| ==> zones[i].id != zones[j].id
  {
    if |zones| > 0 {
      var tail := zones[1..];
      UniqueIdsPairwise(tail);
      ZoneIdsIndex(tail, zones[0].id);
      if UniqueIds(zones) {
        forall i, j | 0 <= i < j < |zones| ensures zones[i].id != zones[j].id {
          assert zones[j] == tail[j - 1];
          if i > 0 {
            assert zones[i] == tail[i - 1];
          }
        }
      }
      if forall i, j :: 0 <= i < j < |zones| ==> zones[i].id != zones[j].id {
        forall i, j | 0 <= i < j < |tail| ensures tail[i].id != tail[j].id {
          assert tail[i] == zones[i + 1] && tail[j] == zones[j + 1];
        }
        forall j | 0 <= j < |tail| ensures tail[j].id != zones[0].id {
          assert tail[j] == zones[j + 1];
        }
      }
    }
  }

  lemma {:induction false} ZoneIdsConcat(a: seq<SafeZone>, b: seq<SafeZone>)
    ensures ZoneIds(a + b) == ZoneIds(a) + ZoneIds(b)
  {
    if |a| == 0 {
      assert a + b == b;
    } else {
      assert (a + b)[1..] == a[1..] + b;
      ZoneIdsConcat(a[1..], b);
    }
  }

  /** addSafeZone: the new zone is appended; the others keep their places. */
  function AddSafeZone(zones: seq<SafeZone>, spec: ZoneSpec, id: string): (r: seq<SafeZone>)
    ensures |r| == |zones| + 1
    ensures r[..|zones|] == zones
    ensures r[|zones|] == WithId(spec, id)
    ensures ZoneIds(r) == ZoneIds(zones) + {id}
  {
    var r := zones + [WithId(spec, id)];
    ZoneIdsConcat(zones, [WithId(spec, id)]);
    assert [WithId(spec, id)][1..] == [];
    r
  }

  /** removeSafeZone: keep exactly the zones whose id differs, in order. */
  function RemoveSafeZone(zones: seq<SafeZone>, id: string): (r: seq<SafeZone>)
    ensures |r| <= |zones|
    ensures forall z :: z in r <==> z in zones && z.id != id
    ensures ZoneIds(r) == ZoneIds(zones) - {id}
    ensures id !in ZoneIds(zones) ==> r == zones
  {
    if |zones| == 0 then []
    else if zones[0].id == id then RemoveSafeZone(zones[1..], id)
    else
      assert zones == [zones[0]] + zones[1..];
      [zones[0]] + RemoveSafeZone(zones[1..], id)
  }

  /** Removal distributes over concatenation, so together with the single
      zone cases it keeps the surviving zones in their original order. */
  lemma {:induction false} RemoveSafeZoneConcat(a: seq<SafeZone>, b: seq<SafeZone>, id: string)
    ensures RemoveSafeZone(a + b, id) == RemoveSafeZone(a, id) + RemoveSafeZone(b, id)
  {
    if |a| > 0 {
      var ab := a + b;
      assert ab[0] == a[0] && ab[1..] == a[1..] + b;
      RemoveSafeZoneConcat(a[1..], b, id);
      var tail := RemoveSafeZone(a[1..], id) + RemoveSafeZone(b, id);
      if a[0].id == id {
        assert RemoveSafeZone(ab, id) == tail;
      } else {
        assert RemoveSafeZone(ab, id) == [a[0]] + tail;
        assert RemoveSafeZone(a, id) == [a[0]] + RemoveSafeZone(a[1..], id);
      }
    } else {
      assert a + b == b;
    }
  }

  /** The single-zone cases: a zone survives exactly when its id differs. */
  lemma RemoveSafeZoneSingle(z: SafeZone, id: string)
    ensures RemoveSafeZone([z], id) == if z.id == id then [] else [z]
  {
    assert [z][1..] == [];
  }

  /** Removing twice is removing once. */
  lemma RemoveSafeZoneIdempotent(zones: seq<SafeZone>, id: string)
    ensures RemoveSafeZone(RemoveSafeZone(zones, id), id) == RemoveSafeZone(zones, id)
  {
  }

  /** Removing a zone just added with a fresh id gives back the old list. */
  lemma AddThenRemove(zones: seq<SafeZone>, spec: ZoneSpec, id: string)
    requires id !in ZoneIds(zones)
    ensures RemoveSafeZone(AddSafeZone(zones, spec, id), id) == zones
  {
    RemoveSafeZoneConcat(zones, [WithId(spec, id)], id);
    RemoveSafeZoneSingle(WithId(spec, id), id);
  }

  /** Adding with a fresh id keeps ids distinct. */
  lemma {:induction false} AddKeepsUniqueIds(zones: seq<SafeZone>, spec: ZoneSpec, id: string)
    requires UniqueIds(zones) && id !in ZoneIds(zones)
    ensures UniqueIds(AddSafeZone(zones, spec, id))
  {
    var r := AddSafeZone(zones, spec, id);
    if |zones| > 0 {
      AddKeepsUniqueIds(zones[1..], spec, id);
      assert r[1..] == AddSafeZone(zones[1..], spec, id);
    } else {
      assert r[1..] == [];
    }
  }

  /** Removing keeps ids distinct. */
  lemma {:induction false} RemoveKeepsUniqueIds(zones: seq<SafeZone>, id: string)
    requires UniqueIds(zones)
    ensures UniqueIds(RemoveSafeZone(zones, id))
  {
    if |zones| > 0 {
      RemoveKeepsUniqueIds(zones[1..], id);
      if zones[0].id != id {
        assert ([zones[0]] + RemoveSafeZone(zones[1..], id))[1..] == RemoveSafeZone(zones[1..], id);
      }
    }
  }
}
