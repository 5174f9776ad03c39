/**
 * Coordinates of a place from a static table keyed by place path:
 * the exact path first, then ever shorter runs of leading segments.
 */
module LocationCoordinates {
  import opened Text
  import opened LocationModel

  /** The table shipped with the application. */
  const CoordinateTable: map<string, Coord> := map[
    "서울특별시" := Coord(37.5665, 126.978),
    "서울특별시-종로구" := Coord(37.5735, 126.9788),
    "서울특별시-종로구-청운동" := Coord(37.5892, 126.9706),
    "부산광역시" := Coord(35.1796, 129.0756),
    "대구광역시" := Coord(35.8714, 128.6014),
    "인천광역시" := Coord(37.4563, 126.7052),
    "광주광역시" := Coord(35.1595, 126.8526),
    "대전광역시" := Coord(36.3504, 127.3845),
    "울산광역시" := Coord(35.5384, 129.3114),
    "세종특별자치시" := Coord(36.480, 127.289),
    "경기도" := Coord(37.4138, 127.5183),
    "강원도" := Coord(37.8228, 128.1555),
    "충청북도" := Coord(36.8001, 127.7002),
    "충청남도" := Coord(36.5184, 126.8),
    "전라북도" := Coord(35.7175, 127.153),
    "전라남도" := Coord(34.8679, 126.991),
    "경상북도" := Coord(36.4919, 128.8889),
    "경상남도" := Coord(35.4606, 128.2132),
    "제주특별자치도" := Coord(33.4996, 126.5312)
  ]

  /** `parts.slice(0, i).join("-")` for the segments of `id`. */
  function PrefixKey(id: string, i: nat): string
    requires i <= |Split(id)|
  {
    Join(Split(id)[..i], '-')
  }

  /** The fallback loop from `i` segments down to one. */
  function FallbackFrom(table: map<string, Coord>, id: string, i: nat): Option<Coord>
    requires i <= |Split(id)|
  {
    if i == 0 then None
    else if PrefixKey(id, i) in table then Some(table[PrefixKey(id, i)])
    else FallbackFrom(table, id, i - 1)
  }

  /** The value `getLocationCoordinates` returns. */
  function Coordinates(table: map<string, Coord>, id: string): Option<Coord> {
    if id in table then Some(table[id]) else FallbackFrom(table, id, |Split(id)|)
  }

  /** `getLocationCoordinates`: exact match, then a counting-down loop over segment prefixes. */
  method GetLocationCoordinates(table: map<string, Coord>, locationId: string) returns (r: Option<Coord>)
    ensures r == Coordinates(table, locationId)
  {
    if locationId in table {
      return Some(table[locationId]);
    }
    var parts := Split(locationId);
    var i := |parts|;
    while i > 0
      invariant 0 <= i <= |parts|
      invariant Coordinates(table, locationId) == FallbackFrom(table, locationId, i)
    {
      var partialId := Join(parts[..i], '-');
      if partialId in table {
        return Some(table[partialId]);
      }
      i := i - 1;
    }
    return None;
  }

  /**
   * A prefix key is made of whole segments: it is the whole id, or a
   * prefix of the id followed there by a hyphen. So "서울특별시-종로" can
   * only fall back to "서울특별시", never to "서울특별시-종로구".
   */
  lemma PrefixKeyBoundary(id: string, i: nat)
    requires 1 <= i <= |Split(id)|
    ensures i == |Split(id)| ==> PrefixKey(id, i) == id
    ensures i < |Split(id)| ==>
              |PrefixKey(id, i)| < |id| && id[..|PrefixKey(id, i)|] == PrefixKey(id, i) && id[|PrefixKey(id, i)|] == '-'
  {
    var parts := Split(id);
    JoinSplit(id);
    assert parts[..|parts|] == parts;
    if i < |parts| {
      JoinAt(parts, i, '-');
    }
  }

  /** The fallback loop finds the longest prefix key in the table, or nothing when there is none. */
  lemma {:induction false} FallbackLongest(table: map<string, Coord>, id: string, i: nat)
    requires i <= |Split(id)|
    ensures FallbackFrom(table, id, i).None? <==> forall j | 1 <= j <= i :: PrefixKey(id, j) !in table
    ensures FallbackFrom(table, id, i).Some? ==>
              exists j | 1 <= j <= i ::
                && PrefixKey(id, j) in table
                && FallbackFrom(table, id, i).value == table[PrefixKey(id, j)]
                && forall k | j < k <= i :: PrefixKey(id, k) !in table
  {
    if i > 0 && PrefixKey(id, i) !in table {
      FallbackLongest(table, id, i - 1);
    }
  }

  /**
   * `getLocationCoordinates(id)`: the entry of `id` itself when present; otherwise the
   * entry of the longest run of leading segments of `id` that is a key; nothing when no
   * run is a key.
   */
  lemma CoordinatesLongestPrefix(table: map<string, Coord>, id: string)
    ensures id in table ==> Coordinates(table, id) == Some(table[id])
    ensures Coordinates(table, id).None? <==> forall j | 1 <= j <= |Split(id)| :: PrefixKey(id, j) !in table
    ensures Coordinates(table, id).Some? ==>
              exists j | 1 <= j <= |Split(id)| ::
                && PrefixKey(id, j) in table
                && Coordinates(table, id).value == table[PrefixKey(id, j)]
                && forall k | j < k <= |Split(id)| :: PrefixKey(id, k) !in table
  {
    var n := |Split(id)|;
    PrefixKeyBoundary(id, n);
    if id !in table {
      FallbackLongest(table, id, n);
    } else {
      assert PrefixKey(id, n) in table;
    }
  }

  /** `enrichLocationWithCoordinates`: every field kept except `coordinates`, which is the lookup result. */
  function EnrichWithCoordinates(table: map<string, Coord>, location: Location): (r: Location)
    ensures r.id == location.id && r.name == location.name
    ensures r.fullPath == location.fullPath && r.level == location.level
    ensures r.coordinates == Coordinates(table, location.id)
  {
    location.(coordinates := Coordinates(table, location.id))
  }

  /** The segments of a three-level path. */
  lemma SplitThree(city: string, district: string, dong: string)
    requires '-' !in city && '-' !in district && '-' !in dong
    ensures Split(city + "-" + district + "-" + dong) == [city, district, dong]
  {
    assert city + "-" + district + "-" + dong == city + "-" + (district + "-" + dong);
    SplitSingle(dong);
    SplitCons(district, dong);
    SplitCons(city, district + "-" + dong);
  }

  /**
   * With only a city in the table, a neighbourhood of that city
   * ("서울특별시-종로구-신설동") falls back to the city's coordinates.
   */
  lemma FallbackToCity(city: string, district: string, dong: string, c: Coord)
    requires '-' !in city && '-' !in district && '-' !in dong
    ensures Coordinates(map[city := c], city + "-" + district + "-" + dong) == Some(c)
  {
    var table := map[city := c];
    var id := city + "-" + district + "-" + dong;
    var parts := [city, district, dong];
    SplitThree(city, district, dong);
    assert |id| > |city|;
    PrefixKeyBoundary(id, 3);
    assert parts[..2] == [city, district] && [city, district][1..] == [district];
    assert Join([district], '-') == district;
    assert Join([city, district], '-') == city + "-" + district;
    assert PrefixKey(id, 2) == city + "-" + district;
    assert parts[..1] == [city];
    assert PrefixKey(id, 1) == city;
    assert id !in table && PrefixKey(id, 3) !in table && PrefixKey(id, 2) !in table;
    assert FallbackFrom(table, id, 3) == FallbackFrom(table, id, 2) == FallbackFrom(table, id, 1);
  }

  /** A hyphen-free place that is not a key gets no coordinates ("존재하지않는장소"). */
  lemma NoEntryNoCoordinates(table: map<string, Coord>, name: string)
    requires '-' !in name && name !in table
    ensures Coordinates(table, name) == None
  {
    SplitSingle(name);
    assert [name][..1] == [name];
    assert Join([name], '-') == name;
    assert PrefixKey(name, 1) == name;
    assert FallbackFrom(table, name, 1) == FallbackFrom(table, name, 0);
  }

  /** A neighbourhood with no entry of its own falls back to its district's entry. */
  lemma FallbackToDistrict(table: map<string, Coord>, city: string, district: string, dong: string)
    requires '-' !in city && '-' !in district && '-' !in dong
    requires city + "-" + district + "-" + dong !in table && city + "-" + district in table
    ensures Coordinates(table, city + "-" + district + "-" + dong) == Some(table[city + "-" + district])
  {
    var id := city + "-" + district + "-" + dong;
    var parts := [city, district, dong];
    SplitThree(city, district, dong);
    PrefixKeyBoundary(id, 3);
    assert parts[..2] == [city, district] && [city, district][1..] == [district];
    assert Join([district], '-') == district;
    assert PrefixKey(id, 2) == city + "-" + district;
    assert FallbackFrom(table, id, 3) == FallbackFrom(table, id, 2);
  }

  /** The shipped table answers the exact keys with their own entries. */
  lemma ShippedTableExact()
    ensures Coordinates(CoordinateTable, "서울특별시") == Some(Coord(37.5665, 126.978))
    ensures Coordinates(CoordinateTable, "부산광역시") == Some(Coord(35.1796, 129.0756))
    ensures Coordinates(CoordinateTable, "서울특별시-종로구-청운동") == Some(Coord(37.5892, 126.9706))
  {
  }

  /** Over the shipped table, a name that is no key gets null. */
  lemma ShippedTableMissing()
    ensures Coordinates(CoordinateTable, "존재하지않는장소") == None
  {
    NoEntryNoCoordinates(CoordinateTable, "존재하지않는장소");
  }

  /** Over the shipped table, "서울특별시-종로구-신설동" falls back to the entry of "서울특별시-종로구". */
  lemma ShippedTableFallback()
    ensures Coordinates(CoordinateTable, "서울특별시-종로구-신설동") == Some(Coord(37.5735, 126.9788))
  {
    ShippedFallbackKeys();
    ShippedFallbackPath();
    FallbackToDistrict(CoordinateTable, "서울특별시", "종로구", "신설동");
  }

  /** The neighbourhood has no entry of its own; its district has one. */
  lemma ShippedFallbackKeys()
    ensures "서울특별시-종로구-신설동" !in CoordinateTable
    ensures "서울특별시-종로구" in CoordinateTable && CoordinateTable["서울특별시-종로구"] == Coord(37.5735, 126.9788)
  {
  }

  /** The neighbourhood's path is its city, district and name joined by hyphens. */
  lemma ShippedFallbackPath()
    ensures '-' !in "서울특별시" && '-' !in "종로구" && '-' !in "신설동"
    ensures "서울특별시" + "-" + "종로구" + "-" + "신설동" == "서울특별시-종로구-신설동"
    ensures "서울특별시" + "-" + "종로구" == "서울특별시-종로구"
  {
  }
}
