/**
 * The recent-search list: most recent first, one entry per place, at most
 * `maxHistorySize` entries.
 */
module SearchHistory {
  import opened LocationModel
  import opened Lists

  /** The store's initial `maxHistorySize`. */
  const MaxHistorySize: nat := 10

  /** The key the history is de-duplicated on. */
  function LocationId(l: Location): string {
    l.id
  }

  /**
   * The history after `addToHistory(location)`: the location in front of
   * the other entries with a different id, cut to `max` entries.
   */
  function Push(history: seq<Location>, location: Location, max: nat): (r: seq<Location>)
    ensures |r| <= max
    ensures max >= 1 ==> |r| >= 1 && r[0] == location
    ensures forall i | 1 <= i < |r| :: r[i].id != location.id && r[i] in history
  {
    DropKeyMembers(history, LocationId, location.id);
    Take([location] + DropKey(history, LocationId, location.id), max)
  }

  lemma TakeCons(l: Location, w: seq<Location>, max: nat)
    requires max >= 1
    ensures Take([l] + w, max) == [l] + Take(w, max - 1)
  {
  }

  /** Adding keeps ids unique. */
  lemma PushUnique(history: seq<Location>, location: Location, max: nat)
    requires UniqueKeys(history, LocationId)
    ensures UniqueKeys(Push(history, location, max), LocationId)
  {
    var w := DropKey(history, LocationId, location.id);
    DropKeyUnique(history, LocationId, location.id);
    var r := Push(history, location, max);
    var s := [location] + w;
    assert r == s[..|r|];
    forall i, j | 0 <= i < j < |r| ensures LocationId(r[i]) != LocationId(r[j]) {
      if i > 0 {
        assert r[i] == w[i - 1] && r[j] == w[j - 1];
      }
    }
  }

  /**
   * The other entries keep their relative order: after the head come, in
   * order, the first entries of the old history with another id.
   */
  lemma PushKeepsOrder(history: seq<Location>, location: Location, max: nat)
    ensures var r := Push(history, location, max);
            var rest := DropKey(history, LocationId, location.id);
            |r| >= 1 ==> |r| - 1 <= |rest| && r[1..] == rest[..|r| - 1]
  {
    var rest := DropKey(history, LocationId, location.id);
    var r := Push(history, location, max);
    if |r| >= 1 {
      TakeCons(location, rest, max);
    }
  }

  /**
   * Splitting the old history anywhere, the entries before the split still
   * come first, and only the tail is cut.
   */
  lemma PushOrder(a: seq<Location>, b: seq<Location>, location: Location, max: nat)
    ensures var s := [location] + DropKey(a, LocationId, location.id) + DropKey(b, LocationId, location.id);
            var r := Push(a + b, location, max);
            |r| <= |s| && r == s[..|r|]
  {
    DropKeyConcat(a, b, LocationId, location.id);
    assert [location] + DropKey(a, LocationId, location.id) + DropKey(b, LocationId, location.id)
        == [location] + (DropKey(a, LocationId, location.id) + DropKey(b, LocationId, location.id));
  }

  /** A place not yet in a history with room to spare goes in front of the whole history. */
  lemma PushNew(history: seq<Location>, location: Location, max: nat)
    requires !ExistsKey(history, LocationId, location.id) && |history| < max
    ensures Push(history, location, max) == [location] + history
  {
    DropKeyUnchanged(history, LocationId, location.id);
  }

  /** Adding the same place twice in a row is the same as adding it once. */
  lemma PushTwice(history: seq<Location>, location: Location, max: nat)
    ensures Push(Push(history, location, max), location, max) == Push(history, location, max)
  {
    var once := Push(history, location, max);
    if max >= 1 {
      var w := DropKey(history, LocationId, location.id);
      var rest := Take(w, max - 1);
      TakeCons(location, w, max);
      assert once == [location] + rest;
      DropKeyCons(location, rest, LocationId, location.id);
      assert DropKey(once, LocationId, location.id) == DropKey(rest, LocationId, location.id);
      assert !ExistsKey(rest, LocationId, location.id) by {
        forall i | 0 <= i < |rest| ensures LocationId(rest[i]) != location.id {
          assert rest[i] == w[i];
        }
      }
      DropKeyUnchanged(rest, LocationId, location.id);
      TakeCons(location, rest, max);
    }
  }

  /** The search-history store. */
  class SearchHistoryStore {
    var history: seq<Location>
    var maxHistorySize: nat

    /** Ids are unique and the list is within its bound. */
    ghost predicate Valid()
      reads this
    {
      UniqueKeys(history, LocationId) && |history| <= maxHistorySize
    }

    constructor()
      ensures history == [] && maxHistorySize == MaxHistorySize
      ensures Valid()
    {
      history := [];
      maxHistorySize := MaxHistorySize;
    }

    /** `addToHistory`: drop the place's old entry, put it in front, cut to the bound. */
    method AddToHistory(location: Location)
      modifies this
      ensures history == Push(old(history), location, old(maxHistorySize))
      ensures maxHistorySize == old(maxHistorySize)
      ensures maxHistorySize >= 1 ==> history[0] == location
      ensures old(Valid()) ==> Valid()
    {
      if UniqueKeys(history, LocationId) {
        PushUnique(history, location, maxHistorySize);
      }
      var filtered := DropKey(history, LocationId, location.id);
      history := Take([location] + filtered, maxHistorySize);
    }

    /** `removeFromHistory`: every entry with that id goes, the others stay in order. */
    method RemoveFromHistory(locationId: string)
      modifies this
      ensures history == DropKey(old(history), LocationId, locationId)
      ensures !ExistsKey(history, LocationId, locationId)
      ensures maxHistorySize == old(maxHistorySize)
      ensures old(Valid()) ==> Valid()
    {
      if UniqueKeys(history, LocationId) {
        DropKeyUnique(history, LocationId, locationId);
      }
      history := DropKey(history, LocationId, locationId);
    }

    /** `clearHistory`. */
    method ClearHistory()
      modifies this
      ensures history == [] && maxHistorySize == old(maxHistorySize)
      ensures Valid()
    {
      history := [];
    }
  }
}
