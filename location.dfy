/** The location record shared by search, favourites and history. */
module LocationModel {
  import opened Text

  /** Administrative tier: 시 (city), 구 (district), 동 (neighbourhood). */
  datatype Level = Si | Gu | Dong

  /** Latitude and longitude in degrees. */
  datatype Coord = Coord(lat: real, lon: real)

  /**
   * A place. `id` and `fullPath` are both the hyphen-delimited path,
   * `name` its last segment; `coordinates` is absent when no table entry applies.
   */
  datatype Location = Location(
    id: string,
    name: string,
    fullPath: string,
    level: Level,
    coordinates: Option<Coord>)

  /** No two locations share an id. */
  ghost predicate IdsDistinct(locations: seq<Location>) {
    forall i, j | 0 <= i < j < |locations| :: locations[i].id != locations[j].id
  }
}
