/**
 * Queries over the search index: the two-pass substring search, lookup by
 * exact id, and the display name of a location.
 */
module LocationSearch {
  import opened Text
  import opened LocationModel
  import opened LocationCoordinates
  import opened SearchIndex

  // ---------------------------------------------------------------------
  // Specification of searchLocations
  // ---------------------------------------------------------------------

  /** The ids in a result list (the `seen` set). */
  function IdsOf(results: seq<Location>): set<string> {
    set l | l in results :: l.id
  }

  /** The exact-key pass: each location whose id is not yet seen is appended; no limit. */
  function ExactPass(acc: seq<Location>, locations: seq<Location>): seq<Location> {
    if |locations| == 0 then acc
    else
      var a := ExactPass(acc, locations[..|locations| - 1]);
      var l := locations[|locations| - 1];
      if l.id in IdsOf(a) then a else a + [l]
  }

  /** The inner loop of the substring pass: as the exact pass, but only while fewer than `limit` results. */
  function TakeUnseen(acc: seq<Location>, locations: seq<Location>, limit: int): seq<Location> {
    if |locations| == 0 then acc
    else
      var a := TakeUnseen(acc, locations[..|locations| - 1], limit);
      var l := locations[|locations| - 1];
      if l.id !in IdsOf(a) && |a| < limit then a + [l] else a
  }

  /** The substring pass over the keys in index order: keys containing `q` while fewer than `limit` results. */
  function SubstringPass(acc: seq<Location>, index: Index, q: string, limit: int): seq<Location> {
    if |index| == 0 then acc
    else
      var a := SubstringPass(acc, index[..|index| - 1], q, limit);
      var entry := index[|index| - 1];
      if Contains(entry.0, q) && |a| < limit then TakeUnseen(a, entry.1, limit) else a
  }

  /** `s.slice(0, limit)`: a negative limit counts from the end. */
  function SliceTo(s: seq<Location>, limit: int): (r: seq<Location>)
    ensures |r| <= |s| && r == s[..|r|]
    ensures limit >= 0 ==> |r| == if limit <= |s| then limit else |s|
  {
    if limit >= 0 then (if limit <= |s| then s[..limit] else s)
    else if -limit <= |s| then s[..|s| + limit]
    else []
  }

  /** The query as compared with keys: `query.toLowerCase().trim()`. */
  function NormalizeQuery(query: string): (r: string)
    ensures |r| <= |query|
    ensures NoCapitals(r)
    ensures r == [] || (!IsWhitespace(r[0]) && !IsWhitespace(r[|r| - 1]))
  {
    var lower := Lower(query);
    assert NoCapitals(lower);
    TrimShape(lower);
    TrimNoCapitals(lower);
    Trim(lower)
  }

  /** The exact-key results: the key's list with repeated ids dropped. */
  function ExactMatches(index: Index, q: string): seq<Location> {
    if HasKey(index, q) then ExactPass([], Lookup(index, q)) else []
  }

  /** The value `searchLocations(query, limit)` returns over `index`. */
  function Search(index: Index, query: string, limit: int, minLength: int): (r: seq<Location>)
    ensures limit >= 0 ==> |r| <= limit
  {
    if Trim(query) == [] then []
    else
      var q := NormalizeQuery(query);
      if |q| < minLength then []
      else SliceTo(SubstringPass(ExactMatches(index, q), index, q, limit), limit)
  }

  /** `!query.trim()`: a query made of whitespace only, the empty one included, finds nothing. */
  lemma BlankQueryFindsNothing(index: Index, query: string, limit: int, minLength: int)
    requires forall i | 0 <= i < |query| :: IsWhitespace(query[i])
    ensures Search(index, query, limit, minLength) == []
  {
    TrimEmpty(query);
  }

  // ---------------------------------------------------------------------
  // searchLocations
  // ---------------------------------------------------------------------

  lemma IdsOfAppend(results: seq<Location>, l: Location)
    ensures IdsOf(results + [l]) == IdsOf(results) + {l.id}
  {
    assert forall x :: x in results + [l] <==> x in results || x == l;
  }

  /** The exact-key loop of `searchLocations`, with its `seen` set. */
  method ExactLoop(exact: seq<Location>) returns (results: seq<Location>, seen: set<string>)
    ensures results == ExactPass([], exact)
    ensures seen == IdsOf(results)
  {
    results := [];
    seen := {};
    for i := 0 to |exact|
      invariant results == ExactPass([], exact[..i])
      invariant seen == IdsOf(results)
    {
      var l := exact[i];
      assert exact[..i + 1][..i] == exact[..i];
      if l.id !in seen {
        IdsOfAppend(results, l);
        seen := seen + {l.id};
        results := results + [l];
      }
    }
    assert exact[..|exact|] == exact;
  }

  /** The inner loop of the substring pass over one key's locations. */
  method TakeLoop(acc: seq<Location>, accSeen: set<string>, locations: seq<Location>, limit: int)
    returns (results: seq<Location>, seen: set<string>)
    requires accSeen == IdsOf(acc)
    ensures results == TakeUnseen(acc, locations, limit)
    ensures seen == IdsOf(results)
  {
    results, seen := acc, accSeen;
    for j := 0 to |locations|
      invariant results == TakeUnseen(acc, locations[..j], limit)
      invariant seen == IdsOf(results)
    {
      var l := locations[j];
      assert locations[..j + 1][..j] == locations[..j];
      if l.id !in seen && |results| < limit {
        IdsOfAppend(results, l);
        seen := seen + {l.id};
        results := results + [l];
      }
    }
    assert locations[..|locations|] == locations;
  }

  /** The outer loop of the substring pass over the keys in index order. */
  method SubstringLoop(acc: seq<Location>, accSeen: set<string>, index: Index, q: string, limit: int)
    returns (results: seq<Location>)
    requires accSeen == IdsOf(acc)
    ensures results == SubstringPass(acc, index, q, limit)
  {
    results := acc;
    var seen := accSeen;
    for i := 0 to |index|
      invariant results == SubstringPass(acc, index[..i], q, limit)
      invariant seen == IdsOf(results)
    {
      assert index[..i + 1][..i] == index[..i];
      if Contains(index[i].0, q) && |results| < limit {
        results, seen := TakeLoop(results, seen, index[i].1, limit);
      }
    }
    assert index[..|index|] == index;
  }

  /** `searchLocations`: the exact-key pass, then the substring pass with the limit checks, then the slice. */
  method SearchLocations(index: Index, query: string, limit: int, minLength: int) returns (results: seq<Location>)
    ensures results == Search(index, query, limit, minLength)
    ensures Trim(query) == [] || |NormalizeQuery(query)| < minLength ==> results == []
    ensures limit >= 0 ==> |results| <= limit
  {
    if Trim(query) == [] {
      return [];
    }
    var q := Trim(Lower(query));
    if |q| < minLength {
      return [];
    }
    var exact: seq<Location> := [];
    var seen: set<string> := {};
    if HasKey(index, q) {
      exact, seen := ExactLoop(Lookup(index, q));
    }
    results := SubstringLoop(exact, seen, index, q, limit);
    results := SliceTo(results, limit);
  }

  // ---------------------------------------------------------------------
  // Properties of the search
  // ---------------------------------------------------------------------

  /** The exact pass extends its start and adds only locations of its input. */
  lemma {:induction false} ExactPassExtends(acc: seq<Location>, locations: seq<Location>)
    ensures |ExactPass(acc, locations)| >= |acc| && ExactPass(acc, locations)[..|acc|] == acc
    ensures forall i | |acc| <= i < |ExactPass(acc, locations)| :: ExactPass(acc, locations)[i] in locations
  {
    if |locations| > 0 {
      var init := locations[..|locations| - 1];
      var l := locations[|locations| - 1];
      ExactPassExtends(acc, init);
      var a := ExactPass(acc, init);
      var r := ExactPass(acc, locations);
      if l.id !in IdsOf(a) {
        assert r[..|acc|] == a[..|acc|];
      }
      forall i | |acc| <= i < |r| ensures r[i] in locations {
        if i < |a| {
          assert r[i] == a[i] && a[i] in init;
        }
      }
    }
  }

  /** The exact pass keeps ids distinct and covers every id of its input. */
  lemma {:induction false} ExactPassIds(acc: seq<Location>, locations: seq<Location>)
    ensures IdsDistinct(acc) ==> IdsDistinct(ExactPass(acc, locations))
    ensures IdsOf(ExactPass(acc, locations)) == IdsOf(acc) + IdsOf(locations)
  {
    if |locations| > 0 {
      var init := locations[..|locations| - 1];
      var l := locations[|locations| - 1];
      ExactPassIds(acc, init);
      var a := ExactPass(acc, init);
      IdsOfAppend(a, l);
      IdsOfAppend(init, l);
      assert locations == init + [l];
      if IdsDistinct(acc) && l.id !in IdsOf(a) {
        forall i | 0 <= i < |a| ensures a[i].id != l.id {
          assert a[i] in a;
        }
      }
    }
  }

  /** The inner substring loop extends its start, keeps ids distinct, adds only its input, and stops at the limit. */
  lemma {:induction false} TakeUnseenGrows(acc: seq<Location>, locations: seq<Location>, limit: int)
    ensures |TakeUnseen(acc, locations, limit)| >= |acc| && TakeUnseen(acc, locations, limit)[..|acc|] == acc
    ensures IdsDistinct(acc) ==> IdsDistinct(TakeUnseen(acc, locations, limit))
    ensures forall i | |acc| <= i < |TakeUnseen(acc, locations, limit)| :: TakeUnseen(acc, locations, limit)[i] in locations
    ensures |TakeUnseen(acc, locations, limit)| <= if |acc| < limit then limit else |acc|
  {
    if |locations| > 0 {
      var init := locations[..|locations| - 1];
      TakeUnseenGrows(acc, init, limit);
      IdsOfAppend(TakeUnseen(acc, init, limit), locations[|locations| - 1]);
    }
  }

  /** The substring pass extends its start: what it started with is a prefix of its result. */
  lemma {:induction false} SubstringPassExtends(acc: seq<Location>, index: Index, q: string, limit: int)
    ensures |SubstringPass(acc, index, q, limit)| >= |acc| && SubstringPass(acc, index, q, limit)[..|acc|] == acc
  {
    if |index| > 0 {
      var init := index[..|index| - 1];
      var a := SubstringPass(acc, init, q, limit);
      SubstringPassExtends(acc, init, q, limit);
      var entry := index[|index| - 1];
      if Contains(entry.0, q) && |a| < limit {
        TakeUnseenGrows(a, entry.1, limit);
        var r := SubstringPass(acc, index, q, limit);
        assert r[..|acc|] == r[..|a|][..|acc|];
      }
    }
  }

  /**
   * The substring pass extends its start, keeps ids distinct, and adds only
   * locations listed under a key that contains `q`.
   */
  lemma {:induction false} SubstringPassGrows(acc: seq<Location>, index: Index, q: string, limit: int)
    ensures |SubstringPass(acc, index, q, limit)| >= |acc| && SubstringPass(acc, index, q, limit)[..|acc|] == acc
    ensures IdsDistinct(acc) ==> IdsDistinct(SubstringPass(acc, index, q, limit))
    ensures forall i | |acc| <= i < |SubstringPass(acc, index, q, limit)| ::
              exists k | 0 <= k < |index| :: Contains(index[k].0, q) && SubstringPass(acc, index, q, limit)[i] in index[k].1
  {
    if |index| > 0 {
      var init := index[..|index| - 1];
      var a := SubstringPass(acc, init, q, limit);
      SubstringPassGrows(acc, init, q, limit);
      var entry := index[|index| - 1];
      if Contains(entry.0, q) && |a| < limit {
        TakeUnseenGrows(a, entry.1, limit);
        var r := SubstringPass(acc, index, q, limit);
        forall i | |acc| <= i < |r|
          ensures exists k | 0 <= k < |index| :: Contains(index[k].0, q) && r[i] in index[k].1
        {
          if i < |a| {
            assert r[i] == a[i];
            var k :| 0 <= k < |init| && Contains(init[k].0, q) && a[i] in init[k].1;
            assert index[k] == init[k];
          } else {
            assert index[|index| - 1] == entry;
          }
        }
      } else {
        forall i | |acc| <= i < |a|
          ensures exists k | 0 <= k < |index| :: Contains(index[k].0, q) && a[i] in index[k].1
        {
          var k :| 0 <= k < |init| && Contains(init[k].0, q) && a[i] in init[k].1;
          assert index[k] == init[k];
        }
      }
    }
  }

  /** No two results of `searchLocations` share an id. */
  lemma SearchIdsDistinct(index: Index, query: string, limit: int, minLength: int)
    ensures IdsDistinct(Search(index, query, limit, minLength))
  {
    var q := NormalizeQuery(query);
    ExactPassIds([], Lookup(index, q));
    SubstringPassGrows(ExactMatches(index, q), index, q, limit);
  }

  /**
   * Exact-key priority: when the normalized query is a key, the key's
   * de-duplicated list starts the result, cut only by the limit; the exact pass
   * itself ignores the limit, so with a list longer than the limit the result is
   * its first `limit` entries.
   */
  lemma SearchExactFirst(index: Index, query: string, limit: int, minLength: int)
    requires Trim(query) != [] && |NormalizeQuery(query)| >= minLength && limit >= 0
    ensures var exact := ExactMatches(index, NormalizeQuery(query));
            var r := Search(index, query, limit, minLength);
            forall i | 0 <= i < |exact| && i < limit :: i < |r| && r[i] == exact[i]
  {
    var q := NormalizeQuery(query);
    var exact := ExactMatches(index, q);
    var all := SubstringPass(exact, index, q, limit);
    var r := Search(index, query, limit, minLength);
    assert r == SliceTo(all, limit) by {
      assert Trim(query) != [] && |q| >= minLength;
    }
    SubstringPassExtends(exact, index, q, limit);
    SliceKeepsPrefix(exact, all, limit);
  }

  /** Cutting a list that starts with `prefix` to a non-negative limit keeps the prefix up to the limit. */
  lemma SliceKeepsPrefix(prefix: seq<Location>, s: seq<Location>, limit: int)
    requires |prefix| <= |s| && s[..|prefix|] == prefix && limit >= 0
    ensures var r := SliceTo(s, limit);
            forall i | 0 <= i < |prefix| && i < limit :: i < |r| && r[i] == prefix[i]
  {
    var r := SliceTo(s, limit);
    forall i | 0 <= i < |prefix| && i < limit ensures i < |r| && r[i] == prefix[i] {
      assert r[i] == s[i] == s[..|prefix|][i];
    }
  }

  /** Position of the first location with `id`, or `|s|`. */
  function FirstPos(s: seq<Location>, id: string): (p: nat)
    ensures p <= |s|
    ensures p < |s| ==> s[p].id == id
    ensures forall j :: 0 <= j < p ==> s[j].id != id
  {
    if |s| == 0 then 0 else if s[0].id == id then 0 else 1 + FirstPos(s[1..], id)
  }

  lemma FirstPosAppend(s: seq<Location>, l: Location, id: string)
    ensures FirstPos(s + [l], id) == if FirstPos(s, id) < |s| then FirstPos(s, id) else if l.id == id then |s| else |s| + 1
  {
    var p := FirstPos(s, id);
    var t := s + [l];
    var q := FirstPos(t, id);
    if p < |s| {
      assert t[p].id == id;
    } else if l.id == id {
      assert t[|s|].id == id;
    } else {
      assert forall j :: 0 <= j < |t| ==> t[j].id != id by {
        forall j | 0 <= j < |t| ensures t[j].id != id {
          if j < |s| {
            assert t[j] == s[j];
          }
        }
      }
    }
  }

  lemma IdsOfFirstPos(s: seq<Location>, id: string)
    ensures id in IdsOf(s) <==> FirstPos(s, id) < |s|
  {
    if id in IdsOf(s) {
      var l :| l in s && l.id == id;
    }
  }

  /** Each entry of `e` is the first location of `locations` with its id. */
  predicate FirstOfEach(e: seq<Location>, locations: seq<Location>) {
    forall i | 0 <= i < |e| :: FirstPos(locations, e[i].id) < |locations| && e[i] == locations[FirstPos(locations, e[i].id)]
  }

  /** The entries of `e` appear in the order of their ids' first positions in `locations`. */
  predicate InFirstPosOrder(e: seq<Location>, locations: seq<Location>) {
    forall i, j | 0 <= i < j < |e| :: FirstPos(locations, e[i].id) < FirstPos(locations, e[j].id)
  }

  /**
   * The exact pass keeps, in list order, the first location of each id of its
   * input: every id of the input appears, each entry is the first location
   * with its id, and entries appear in the order of those first positions.
   */
  lemma {:induction false} ExactPassOrder(locations: seq<Location>)
    ensures var e := ExactPass([], locations);
            IdsOf(e) == IdsOf(locations) && FirstOfEach(e, locations) && InFirstPosOrder(e, locations)
  {
    ExactPassIds([], locations);
    if |locations| > 0 {
      var init := locations[..|locations| - 1];
      var l := locations[|locations| - 1];
      ExactPassOrder(init);
      assert locations == init + [l];
      FirstOfEachStep(init, l);
      InFirstPosOrderStep(init, l);
    }
  }

  /** One step of the exact pass keeps `FirstOfEach`. */
  lemma FirstOfEachStep(init: seq<Location>, l: Location)
    requires var a := ExactPass([], init); IdsOf(a) == IdsOf(init) && FirstOfEach(a, init)
    ensures FirstOfEach(ExactPass([], init + [l]), init + [l])
  {
    var locations := init + [l];
    var a := ExactPass([], init);
    assert locations[..|locations| - 1] == init;
    var e := ExactPass([], locations);
    forall i | 0 <= i < |e|
      ensures FirstPos(locations, e[i].id) < |locations| && e[i] == locations[FirstPos(locations, e[i].id)]
    {
      FirstPosAppend(init, l, e[i].id);
      if i < |a| {
        assert a[i].id in IdsOf(a);
        IdsOfFirstPos(init, a[i].id);
      } else {
        IdsOfFirstPos(init, l.id);
      }
    }
  }

  /** One step of the exact pass keeps `InFirstPosOrder`. */
  lemma InFirstPosOrderStep(init: seq<Location>, l: Location)
    requires var a := ExactPass([], init); IdsOf(a) == IdsOf(init) && InFirstPosOrder(a, init)
    ensures InFirstPosOrder(ExactPass([], init + [l]), init + [l])
  {
    var locations := init + [l];
    var a := ExactPass([], init);
    assert locations[..|locations| - 1] == init;
    var e := ExactPass([], locations);
    forall i, j | 0 <= i < j < |e| ensures FirstPos(locations, e[i].id) < FirstPos(locations, e[j].id) {
      assert a[i].id in IdsOf(a);
      IdsOfFirstPos(init, a[i].id);
      FirstPosAppend(init, l, a[i].id);
      FirstPosAppend(init, l, e[j].id);
      if j < |a| {
        assert a[j].id in IdsOf(a);
        IdsOfFirstPos(init, a[j].id);
      } else {
        IdsOfFirstPos(init, l.id);
      }
    }
  }

  /**
   * Over a sound index, every result's lower-cased path contains the normalized
   * query, and is the record of a listed district.
   */
  lemma SearchMatchesQuery(index: Index, query: string, limit: int, minLength: int,
                           districts: seq<string>, table: map<string, Coord>)
    requires IndexSound(index, districts, table)
    ensures forall l | l in Search(index, query, limit, minLength) ::
              && Contains(Lower(l.fullPath), NormalizeQuery(query))
              && l.id in districts && l == MakeLocation(table, l.id)
  {
    var q := NormalizeQuery(query);
    var exact := ExactMatches(index, q);
    ExactPassExtends([], Lookup(index, q));
    SubstringPassGrows(exact, index, q, limit);
    var all := SubstringPass(exact, index, q, limit);
    forall l | l in all
      ensures Contains(Lower(l.fullPath), q) && l.id in districts && l == MakeLocation(table, l.id)
    {
      var i :| 0 <= i < |all| && all[i] == l;
      if i < |exact| {
        assert l == exact[i];
        var p := KeyPos(index, q);
        var j :| 0 <= j < |index[p].1| && index[p].1[j] == l;
      } else {
        var k :| 0 <= k < |index| && Contains(index[k].0, q) && l in index[k].1;
        var j :| 0 <= j < |index[k].1| && index[k].1[j] == l;
        ContainsTransitive(Lower(l.fullPath), index[k].0, q);
      }
    }
  }

  /**
   * Searching the index built from a district list: at most `limit` results
   * (for a non-negative limit), no id twice, each the record of a listed
   * district whose lower-cased path contains the normalized query.
   */
  lemma SearchDistricts(districts: seq<string>, table: map<string, Coord>, query: string, limit: int, minLength: int)
    ensures var r := Search(BuildIndex(districts, table), query, limit, minLength);
            && (limit >= 0 ==> |r| <= limit)
            && IdsDistinct(r)
            && forall l | l in r :: l.id in districts && l == MakeLocation(table, l.id)
                                    && Contains(Lower(l.id), NormalizeQuery(query))
  {
    var index := BuildIndex(districts, table);
    BuildIndexSound(districts, table);
    SearchMatchesQuery(index, query, limit, minLength, districts, table);
    SearchIdsDistinct(index, query, limit, minLength);
  }

  // ---------------------------------------------------------------------
  // getLocationById
  // ---------------------------------------------------------------------

  /** `districts.find((d) => d === id)`. */
  function FindDistrict(districts: seq<string>, id: string): (r: Option<string>)
    ensures r.Some? <==> id in districts
    ensures r.Some? ==> r.value == id
  {
    if |districts| == 0 then None
    else if districts[0] == id then Some(districts[0])
    else FindDistrict(districts[1..], id)
  }

  /**
   * `getLocationById`: null when no district equals `id`, and also for the
   * empty id, which the falsy check rejects; otherwise the record the index
   * builds for that path.
   */
  function GetLocationById(districts: seq<string>, table: map<string, Coord>, id: string): (r: Option<Location>)
    ensures r.None? <==> id !in districts || id == ""
    ensures r.Some? ==> r.value == MakeLocation(table, id) && r.value.id == id
  {
    var found := FindDistrict(districts, id);
    if found.None? || found.value == "" then None
    else Some(MakeLocation(table, found.value))
  }

  /** A location found by id is the very record the index lists under its lower-cased path. */
  lemma GetLocationByIdInIndex(districts: seq<string>, table: map<string, Coord>, id: string)
    requires GetLocationById(districts, table, id).Some?
    ensures GetLocationById(districts, table, id).value in Lookup(BuildIndex(districts, table), Lower(id))
  {
    var k := Lower(id);
    var loc := MakeLocation(table, id);
    BuildIndexLookup(districts, table, k);
    EntriesContain(districts, table, id);
  }

  /** A listed district's record is among the entries under its lower-cased path. */
  lemma {:induction false} EntriesContain(districts: seq<string>, table: map<string, Coord>, d: string)
    requires d in districts
    ensures MakeLocation(table, d) in EntriesFor(districts, table, Lower(d))
  {
    var n := |districts|;
    var last := districts[n - 1];
    if last == d {
      var keys := KeysOf(d);
      assert keys[|keys| - 1] == Lower(d);
      assert keys == keys[..|keys| - 1] + [Lower(d)];
      assert multiset(keys)[Lower(d)] >= 1;
      var rep := Repeat(MakeLocation(table, d), multiset(keys)[Lower(d)]);
      assert rep[0] == MakeLocation(table, d);
    } else {
      assert d in districts[..n - 1] by {
        var i :| 0 <= i < n && districts[i] == d;
        assert i < n - 1;
        assert districts[..n - 1][i] == d;
      }
      EntriesContain(districts[..n - 1], table, d);
    }
  }

  // ---------------------------------------------------------------------
  // formatLocationName
  // ---------------------------------------------------------------------

  /** `location.fullPath.replace(/-/g, " ")`. */
  function FormatLocationName(location: Location): (r: string)
    ensures |r| == |location.fullPath|
    ensures '-' !in r
    ensures forall i | 0 <= i < |r| && location.fullPath[i] != '-' :: r[i] == location.fullPath[i]
  {
    var s := location.fullPath;
    seq(|s|, i requires 0 <= i < |s| => if s[i] == '-' then ' ' else s[i])
  }

  /** The display name is the path unchanged exactly when the path has no hyphen. */
  lemma FormatIdentity(location: Location)
    ensures FormatLocationName(location) == location.fullPath <==> '-' !in location.fullPath
  {
    var s := location.fullPath;
    var r := FormatLocationName(location);
    if '-' in s {
      var i :| 0 <= i < |s| && s[i] == '-';
      assert r[i] == ' ';
    }
  }

  /** The display name is the path's segments joined with single spaces. */
  lemma FormatJoinsSegments(location: Location)
    ensures FormatLocationName(location) == Join(Split(location.fullPath), ' ')
  {
    ReplaceIsJoin(location.fullPath);
  }

  lemma {:induction false} ReplaceIsJoin(s: string)
    ensures FormatLocationName(Location(s, s, s, Si, None)) == Join(Split(s), ' ')
  {
    var r := FormatLocationName(Location(s, s, s, Si, None));
    if s != [] {
      var t := s[1..];
      ReplaceIsJoin(t);
      var rt := FormatLocationName(Location(t, t, t, Si, None));
      assert r == [if s[0] == '-' then ' ' else s[0]] + rt;
      var rest := Split(t);
      if s[0] == '-' {
        assert ([[]] + rest)[1..] == rest;
      } else {
        assert rest == [rest[0]] + rest[1..];
        JoinConsFirst(s[0], rest[0], rest[1..], ' ');
      }
    }
  }
}
