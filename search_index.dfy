/**
 * The inverted index over place paths: every lower-cased segment of a
 * path, and the lower-cased path itself, maps to the list of location
 * records registered under it. Keys keep their first-insertion order, as a
 * JavaScript `Map` iterates them.
 */
module SearchIndex {
  import opened Text
  import opened LocationModel
  import opened LocationCoordinates

  /** Key/list pairs in first-insertion order. */
  type Index = seq<(string, seq<Location>)>

  // ---------------------------------------------------------------------
  // The record of one district
  // ---------------------------------------------------------------------

  /** Level from the number of path segments: 1 is 시, 2 is 구, 3 or more is 동. */
  function LevelOf(segments: nat): Level {
    if segments == 1 then Si else if segments == 2 then Gu else Dong
  }

  /** The record built for a path: base fields, then coordinates, then the level again. */
  function MakeLocation(table: map<string, Coord>, district: string): (loc: Location)
    ensures loc.id == district && loc.fullPath == district
    ensures loc.coordinates == Coordinates(table, district)
  {
    var parts := Split(district);
    var base := Location(district, parts[|parts| - 1], district, LevelOf(|parts|), None);
    var enriched := EnrichWithCoordinates(table, base);
    enriched.(level := base.level)
  }

  /**
   * The record's name is the last segment: it has no hyphen, and the path is
   * that name alone or some leading segments, a hyphen and the name.
   */
  lemma MakeLocationName(table: map<string, Coord>, district: string)
    ensures '-' !in MakeLocation(table, district).name
    ensures var name := MakeLocation(table, district).name;
            district == name ||
            (|name| < |district| && district[|district| - |name|..] == name && district[|district| - |name| - 1] == '-')
  {
    var parts := Split(district);
    var n := |parts|;
    JoinSplit(district);
    if n > 1 {
      JoinAt(parts, n - 1, '-');
      assert parts[n - 1..] == [parts[n - 1]];
    }
  }

  /** The level counts hyphens: none gives 시, one gives 구, more give 동. */
  lemma MakeLocationLevel(table: map<string, Coord>, district: string)
    ensures var h := multiset(district)['-'];
            MakeLocation(table, district).level == (if h == 0 then Si else if h == 1 then Gu else Dong)
  {
    SplitCount(district);
  }

  // ---------------------------------------------------------------------
  // The index as a value
  // ---------------------------------------------------------------------

  function Keys(index: Index): (keys: seq<string>)
    ensures |keys| == |index| && forall i :: 0 <= i < |index| ==> keys[i] == index[i].0
  {
    seq(|index|, i requires 0 <= i < |index| => index[i].0)
  }

  /** Position of `key` in the index, or `|index|` when absent. */
  function KeyPos(index: Index, key: string): (p: nat)
    ensures p <= |index|
    ensures p < |index| ==> index[p].0 == key
    ensures forall j :: 0 <= j < p ==> index[j].0 != key
  {
    if |index| == 0 then 0
    else if index[0].0 == key then 0
    else 1 + KeyPos(index[1..], key)
  }

  /** `index.has(key)`. */
  predicate HasKey(index: Index, key: string) {
    KeyPos(index, key) < |index|
  }

  /** `index.get(key)`, empty when absent. */
  function Lookup(index: Index, key: string): seq<Location> {
    var p := KeyPos(index, key);
    if p < |index| then index[p].1 else []
  }

  /** No key appears twice. */
  ghost predicate KeysDistinct(index: Index) {
    forall i, j | 0 <= i < j < |index| :: index[i].0 != index[j].0
  }

  /** `if (!index.has(key)) index.set(key, []); index.get(key)!.push(location)`. */
  function Register(index: Index, key: string, location: Location): Index {
    var p := KeyPos(index, key);
    if p == |index| then index + [(key, [location])]
    else index[p := (key, index[p].1 + [location])]
  }

  /** Registering appends the record to the key's list and leaves every other key's list alone. */
  lemma RegisterLookup(index: Index, key: string, location: Location, k: string)
    ensures Lookup(Register(index, key, location), k) == Lookup(index, k) + (if k == key then [location] else [])
  {
    var r := Register(index, key, location);
    var p := KeyPos(index, k);
    var q := KeyPos(r, k);
    if p < |index| {
      assert r[p].0 == k;
      assert forall j :: 0 <= j < p ==> r[j].0 == index[j].0;
    } else if k == key {
      assert r[|index|].0 == k;
      assert forall j :: 0 <= j < |index| ==> r[j].0 == index[j].0;
    } else {
      assert forall j :: 0 <= j < |r| ==> r[j].0 != k by {
        forall j | 0 <= j < |r| ensures r[j].0 != k {
          if j < |index| {
            assert r[j].0 == index[j].0;
          }
        }
      }
      assert q == |r|;
    }
  }

  /** A new key goes last, and distinct keys stay distinct. */
  lemma RegisterKeys(index: Index, key: string, location: Location)
    ensures Keys(Register(index, key, location))
            == (if HasKey(index, key) then Keys(index) else Keys(index) + [key])
    ensures KeysDistinct(index) ==> KeysDistinct(Register(index, key, location))
  {
  }

  /** The keys of one district: each segment lower-cased, then the whole path lower-cased. */
  function KeysOf(district: string): (keys: seq<string>)
    ensures |keys| == |Split(district)| + 1
  {
    var parts := Split(district);
    seq(|parts|, i requires 0 <= i < |parts| => Lower(parts[i])) + [Lower(district)]
  }

  /** Each key of a district occurs in its lower-cased path. */
  lemma KeysOfContained(district: string, k: int)
    requires 0 <= k < |KeysOf(district)|
    ensures Contains(Lower(district), KeysOf(district)[k])
  {
    var parts := Split(district);
    if k < |parts| {
      SplitPartContained(district, k);
      LowerContains(district, parts[k]);
    } else {
      ContainsSelf(Lower(district));
    }
  }

  /** Registers one record under each key in turn. */
  function RegisterAll(index: Index, keys: seq<string>, location: Location): Index {
    if |keys| == 0 then index
    else Register(RegisterAll(index, keys[..|keys| - 1], location), keys[|keys| - 1], location)
  }

  /** The index `createSearchIndex` returns for a district list. */
  function BuildIndex(districts: seq<string>, table: map<string, Coord>): Index {
    if |districts| == 0 then []
    else
      var d := districts[|districts| - 1];
      RegisterAll(BuildIndex(districts[..|districts| - 1], table), KeysOf(d), MakeLocation(table, d))
  }

  /** `createSearchIndex`: for each district, push its record under each segment key and the full key. */
  method CreateSearchIndex(districts: seq<string>, table: map<string, Coord>) returns (index: Index)
    ensures index == BuildIndex(districts, table)
  {
    index := [];
    for i := 0 to |districts|
      invariant index == BuildIndex(districts[..i], table)
    {
      var district := districts[i];
      var location := MakeLocation(table, district);
      index := RegisterDistrict(index, district, location);
      assert districts[..i + 1][..i] == districts[..i];
    }
    assert districts[..|districts|] == districts;
  }

  /** The body of the district loop: the segment keys in order, then the full key. */
  method RegisterDistrict(index0: Index, district: string, location: Location) returns (index: Index)
    ensures index == RegisterAll(index0, KeysOf(district), location)
  {
    var parts := Split(district);
    index := index0;
    for j := 0 to |parts|
      invariant index == RegisterAll(index0, KeysOf(district)[..j], location)
    {
      var key := Lower(parts[j]);
      assert KeysOf(district)[..j + 1] == KeysOf(district)[..j] + [key];
      index := Register(index, key, location);
    }
    var fullKey := Lower(district);
    assert KeysOf(district)[..|parts|] + [fullKey] == KeysOf(district);
    index := Register(index, fullKey, location);
  }

  // ---------------------------------------------------------------------
  // What the index holds
  // ---------------------------------------------------------------------

  function Repeat(location: Location, n: nat): (r: seq<Location>)
    ensures |r| == n && forall i :: 0 <= i < n ==> r[i] == location
  {
    seq(n, _ => location)
  }

  /**
   * The list expected under `key`: district by district, the district's record
   * once for every one of its keys equal to `key`.
   */
  function EntriesFor(districts: seq<string>, table: map<string, Coord>, key: string): seq<Location> {
    if |districts| == 0 then []
    else
      var d := districts[|districts| - 1];
      EntriesFor(districts[..|districts| - 1], table, key) + Repeat(MakeLocation(table, d), multiset(KeysOf(d))[key])
  }

  /** First occurrences of `s`, in order, after those already in `acc`. */
  function Dedup(acc: seq<string>, s: seq<string>): seq<string> {
    if |s| == 0 then acc
    else
      var a := Dedup(acc, s[..|s| - 1]);
      if s[|s| - 1] in a then a else a + [s[|s| - 1]]
  }

  /** All keys of all districts, in district order. */
  function AllKeys(districts: seq<string>): seq<string> {
    if |districts| == 0 then [] else AllKeys(districts[..|districts| - 1]) + KeysOf(districts[|districts| - 1])
  }

  lemma {:induction false} DedupAppend(acc: seq<string>, a: seq<string>, b: seq<string>)
    ensures Dedup(acc, a + b) == Dedup(Dedup(acc, a), b)
  {
    if |b| > 0 {
      assert (a + b)[..|a + b| - 1] == a + b[..|b| - 1];
      DedupAppend(acc, a, b[..|b| - 1]);
    } else {
      assert a + b == a;
    }
  }

  /** One more key adds one more copy of the record exactly when it is the key looked at. */
  lemma RepeatGrows(location: Location, init: seq<string>, last: string, k: string)
    ensures Repeat(location, multiset(init)[k]) + (if k == last then [location] else [])
            == Repeat(location, multiset(init + [last])[k])
  {
    assert multiset(init + [last])[k] == multiset(init)[k] + (if k == last then 1 else 0);
  }

  /** Registering a run of keys appends the record to a key's list once per occurrence of that key. */
  lemma {:induction false} RegisterAllLookup(index: Index, keys: seq<string>, location: Location, k: string)
    ensures Lookup(RegisterAll(index, keys, location), k) == Lookup(index, k) + Repeat(location, multiset(keys)[k])
  {
    if |keys| > 0 {
      var init := keys[..|keys| - 1];
      var last := keys[|keys| - 1];
      RegisterAllLookup(index, init, location, k);
      RegisterLookup(RegisterAll(index, init, location), last, location, k);
      assert keys == init + [last];
      RepeatGrows(location, init, last, k);
    } else {
      assert Lookup(index, k) + Repeat(location, 0) == Lookup(index, k);
    }
  }

  /** `index.has(key)` is membership among the keys. */
  lemma HasKeyIffInKeys(index: Index, key: string)
    ensures HasKey(index, key) <==> key in Keys(index)
  {
    if key in Keys(index) {
      var j :| 0 <= j < |Keys(index)| && Keys(index)[j] == key;
      assert index[j].0 == key;
    }
  }

  /** Registering a run of keys adds the new ones, in first-occurrence order, and keeps keys distinct. */
  lemma {:induction false} RegisterAllKeys(index: Index, keys: seq<string>, location: Location)
    ensures Keys(RegisterAll(index, keys, location)) == Dedup(Keys(index), keys)
    ensures KeysDistinct(index) ==> KeysDistinct(RegisterAll(index, keys, location))
  {
    if |keys| > 0 {
      var init := keys[..|keys| - 1];
      var last := keys[|keys| - 1];
      var mid := RegisterAll(index, init, location);
      RegisterAllKeys(index, init, location);
      RegisterKeys(mid, last, location);
      HasKeyIffInKeys(mid, last);
    }
  }

  /**
   * Under every key, the index lists each district's record once per key of
   * that district equal to it, in district order.
   */
  lemma {:induction false} BuildIndexLookup(districts: seq<string>, table: map<string, Coord>, k: string)
    ensures Lookup(BuildIndex(districts, table), k) == EntriesFor(districts, table, k)
  {
    if |districts| > 0 {
      var init := districts[..|districts| - 1];
      var d := districts[|districts| - 1];
      BuildIndexLookup(init, table, k);
      RegisterAllLookup(BuildIndex(init, table), KeysOf(d), MakeLocation(table, d), k);
    }
  }

  /** The index keys are all districts' keys in order of first insertion, none twice. */
  lemma {:induction false} BuildIndexKeys(districts: seq<string>, table: map<string, Coord>)
    ensures Keys(BuildIndex(districts, table)) == Dedup([], AllKeys(districts))
    ensures KeysDistinct(BuildIndex(districts, table))
  {
    if |districts| > 0 {
      var init := districts[..|districts| - 1];
      var d := districts[|districts| - 1];
      BuildIndexKeys(init, table);
      RegisterAllKeys(BuildIndex(init, table), KeysOf(d), MakeLocation(table, d));
      DedupAppend([], AllKeys(init), KeysOf(d));
    }
  }

  /**
   * Every record under a key is the record of a listed district, and the key
   * occurs in that district's lower-cased path.
   */
  ghost predicate IndexSound(index: Index, districts: seq<string>, table: map<string, Coord>) {
    forall i, j | 0 <= i < |index| && 0 <= j < |index[i].1| ::
      && index[i].1[j].id in districts
      && index[i].1[j] == MakeLocation(table, index[i].1[j].id)
      && Contains(Lower(index[i].1[j].fullPath), index[i].0)
  }

  lemma RegisterSound(index: Index, key: string, location: Location, districts: seq<string>, table: map<string, Coord>)
    requires IndexSound(index, districts, table)
    requires location.id in districts && location == MakeLocation(table, location.id)
    requires Contains(Lower(location.fullPath), key)
    ensures IndexSound(Register(index, key, location), districts, table)
  {
  }

  lemma {:induction false} RegisterAllSound(index: Index, d: string, n: nat, districts: seq<string>, table: map<string, Coord>)
    requires n <= |KeysOf(d)|
    requires IndexSound(index, districts, table) && d in districts
    ensures IndexSound(RegisterAll(index, KeysOf(d)[..n], MakeLocation(table, d)), districts, table)
  {
    if n > 0 {
      var keys := KeysOf(d)[..n];
      assert keys[..n - 1] == KeysOf(d)[..n - 1];
      RegisterAllSound(index, d, n - 1, districts, table);
      KeysOfContained(d, n - 1);
      RegisterSound(RegisterAll(index, keys[..n - 1], MakeLocation(table, d)), keys[n - 1], MakeLocation(table, d), districts, table);
    }
  }

  /** The built index is sound for its district list. */
  lemma {:induction false} BuildIndexSound(districts: seq<string>, table: map<string, Coord>)
    ensures IndexSound(BuildIndex(districts, table), districts, table)
  {
    if |districts| > 0 {
      var init := districts[..|districts| - 1];
      var d := districts[|districts| - 1];
      BuildIndexSound(init, table);
      assert IndexSound(BuildIndex(init, table), districts, table);
      RegisterAllSound(BuildIndex(init, table), d, |KeysOf(d)|, districts, table);
      assert KeysOf(d)[..|KeysOf(d)|] == KeysOf(d);
    }
  }
}
