/**
 * The favourites store: a bounded list of saved places with optional
 * aliases, written to storage after every change.
 */
module FavoriteStore {
  import opened Text
  import opened LocationModel
  import opened Lists

  /** `FavoriteEnum.MAX_FAVORITES`: six saved places. */
  const MaxFavorites: nat := 6

  /** A saved place: the location's fields, an optional alias, and the time it was added. */
  datatype Favorite = Favorite(place: Location, alias: Option<string>, addedAt: int)

  /** A favourite's id is its location's id. */
  function FavoriteId(f: Favorite): string {
    f.place.id
  }

  /** The store's invariant: ids unique and no more entries than the bound. */
  ghost predicate WellFormed(favorites: seq<Favorite>, max: nat) {
    UniqueKeys(favorites, FavoriteId) && |favorites| <= max
  }

  /** `favorites.map((f) => f.id === id ? { ...f, alias } : f)`. */
  function WithAlias(favorites: seq<Favorite>, id: string, alias: string): (r: seq<Favorite>)
    ensures |r| == |favorites|
    ensures forall i | 0 <= i < |r| ::
              && r[i].place == favorites[i].place
              && r[i].addedAt == favorites[i].addedAt
              && r[i].alias == if favorites[i].place.id == id then Some(alias) else favorites[i].alias
  {
    seq(|favorites|, i requires 0 <= i < |favorites| =>
      if FavoriteId(favorites[i]) == id then favorites[i].(alias := Some(alias)) else favorites[i])
  }

  /** Renaming an id that is not saved changes nothing. */
  lemma WithAliasUnknown(favorites: seq<Favorite>, id: string, alias: string)
    requires !ExistsKey(favorites, FavoriteId, id)
    ensures WithAlias(favorites, id, alias) == favorites
  {
    var r := WithAlias(favorites, id, alias);
    forall i | 0 <= i < |r| ensures r[i] == favorites[i] {
      assert FavoriteId(favorites[i]) != id;
    }
  }

  /** Renaming keeps the store's invariant. */
  lemma WithAliasWellFormed(favorites: seq<Favorite>, max: nat, id: string, alias: string)
    requires WellFormed(favorites, max)
    ensures WellFormed(WithAlias(favorites, id, alias), max)
  {
    var r := WithAlias(favorites, id, alias);
    forall i, j | 0 <= i < j < |r| ensures FavoriteId(r[i]) != FavoriteId(r[j]) {
      assert FavoriteId(favorites[i]) != FavoriteId(favorites[j]);
    }
  }

  /** Appending a place whose id is not saved, below the bound, keeps the invariant. */
  lemma AppendWellFormed(favorites: seq<Favorite>, max: nat, f: Favorite)
    requires WellFormed(favorites, max)
    requires |favorites| < max && !ExistsKey(favorites, FavoriteId, FavoriteId(f))
    ensures WellFormed(favorites + [f], max)
  {
    var r := favorites + [f];
    forall i, j | 0 <= i < j < |r| ensures FavoriteId(r[i]) != FavoriteId(r[j]) {
      if j == |favorites| {
        assert r[i] == favorites[i];
      } else {
        assert r[i] == favorites[i] && r[j] == favorites[j];
      }
    }
  }

  /** The favourites store. */
  class FavoriteStoreState {
    var favorites: seq<Favorite>
    var maxFavorites: nat
    /** The list this store last wrote to storage, if any. */
    ghost var saved: Option<seq<Favorite>>

    ghost predicate Valid()
      reads this
    {
      WellFormed(favorites, maxFavorites)
    }

    constructor()
      ensures favorites == [] && maxFavorites == MaxFavorites && saved == None
      ensures Valid()
    {
      favorites := [];
      maxFavorites := MaxFavorites;
      saved := None;
    }

    /** `isFavorite`: some saved entry has the id. */
    function IsFavorite(locationId: string): (r: bool)
      reads this
      ensures r <==> locationId in set f | f in favorites :: f.place.id
    {
      ExistsKey(favorites, FavoriteId, locationId)
    }

    /**
     * `loadFavorites`: what storage yields replaces the list, unchecked;
     * nothing stored keeps it. Nothing is written back.
     */
    method LoadFavorites(stored: Option<seq<Favorite>>)
      modifies this
      ensures favorites == if stored.Some? then stored.value else old(favorites)
      ensures maxFavorites == old(maxFavorites) && saved == old(saved)
      ensures stored.Some? ==> (Valid() <==> WellFormed(stored.value, maxFavorites))
      ensures stored.None? ==> (Valid() <==> old(Valid()))
    {
      if stored.Some? {
        favorites := stored.value;
      }
    }

    /**
     * `addFavorite`: refused when the list is full or the id is already
     * saved; otherwise the place is appended, stamped with `now`, and the
     * list is saved.
     */
    method AddFavorite(place: Location, alias: Option<string>, now: int) returns (added: bool)
      modifies this
      ensures maxFavorites == old(maxFavorites)
      ensures added <==> |old(favorites)| < maxFavorites && !old(IsFavorite(place.id))
      ensures added ==> favorites == old(favorites) + [Favorite(place, alias, now)] && saved == Some(favorites)
      ensures !added ==> favorites == old(favorites) && saved == old(saved)
      ensures added ==> IsFavorite(place.id)
      ensures old(Valid()) ==> Valid()
    {
      if |favorites| >= maxFavorites {
        return false;
      }
      if ExistsKey(favorites, FavoriteId, place.id) {
        return false;
      }
      var newFavorite := Favorite(place, alias, now);
      if WellFormed(favorites, maxFavorites) {
        AppendWellFormed(favorites, maxFavorites, newFavorite);
      }
      var updated := favorites + [newFavorite];
      assert updated[|updated| - 1] == newFavorite;
      favorites := updated;
      saved := Some(updated);
      return true;
    }

    /** `removeFavorite`: every entry with the id goes, the rest keep their order; the list is saved. */
    method RemoveFavorite(locationId: string)
      modifies this
      ensures favorites == DropKey(old(favorites), FavoriteId, locationId)
      ensures saved == Some(favorites) && maxFavorites == old(maxFavorites)
      ensures !IsFavorite(locationId)
      ensures old(Valid()) ==> Valid()
    {
      if UniqueKeys(favorites, FavoriteId) {
        DropKeyUnique(favorites, FavoriteId, locationId);
      }
      var updated := DropKey(favorites, FavoriteId, locationId);
      favorites := updated;
      saved := Some(updated);
    }

    /** `updateFavoriteAlias`: matching entries get the alias, nothing else changes; the list is saved. */
    method UpdateFavoriteAlias(locationId: string, alias: string)
      modifies this
      ensures favorites == WithAlias(old(favorites), locationId, alias)
      ensures saved == Some(favorites) && maxFavorites == old(maxFavorites)
      ensures old(Valid()) ==> Valid()
    {
      if WellFormed(favorites, maxFavorites) {
        WithAliasWellFormed(favorites, maxFavorites, locationId, alias);
      }
      var updated := WithAlias(favorites, locationId, alias);
      favorites := updated;
      saved := Some(updated);
    }
  }
}
