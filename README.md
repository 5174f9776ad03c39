# Weather app core, modelled in Dafny

This project models the logic of a Korean weather web application:

- **Place search.** Hyphen-delimited administrative paths such as
  `서울특별시-종로구-청운동` become location records. Each record takes its
  coordinates from a table, falling back to the longest run of leading
  segments. An inverted index maps every lower-cased segment, and the
  lower-cased path, to the records registered under it. Searching runs two
  passes: an exact-key pass, then a substring pass over the keys in insertion
  order. Results are de-duplicated by id and cut to a limit. The module also
  covers lookup by id and the display name.
- **Two keyed stores.**
  - The favourites store: at most six places, unique ids, optional aliases,
    written to storage after each change.
  - The recent-search history: move-to-front, de-duplicated by id, at most
    ten entries.
- **Forecast helpers and small rules.**
  - The forecast client's pure and loop helpers: base time, base date,
    sky/precipitation description, forecast item lookup, hourly list.
  - The first-match keyword tables for activity suggestions and weather
    icons, and the icon colour chain.
  - The temperature colour bands.

Modules, one per file:

- `Text`: the JavaScript string operations used: `includes`, `toLowerCase`,
  `trim`, `split("-")`/`join`, `String(n)`, `padStart`. It also holds the
  first-match scan shared by the keyword tables.
- `LocationModel`: the location record.
- `ActivityData`: the activity table, keywords and lists in declaration order.
- `Lists`: filtering by key and `slice(0, n)`, shared by both stores.
- `LocationCoordinates`, `SearchIndex` and `LocationSearch`: place search.
- `FavoriteStore` and `SearchHistory`: the stores.
  - Each store is a class whose methods replace the list field.
  - Each store has an invariant: ids unique, length within the bound.
  - Every method except `LoadFavorites` proves it keeps that invariant.
    `LoadFavorites` takes a stored list without checking it, so the store is
    valid afterwards exactly when that list is well-formed.
- `WeatherApi`, `ActivityRecommendation`, `WeatherIcons` and `WeatherColors`:
  the forecast helpers and the classification rules.

The loops that build or update a result step by step are methods:
`createSearchIndex` and its loop over a district's keys, the two passes of
`searchLocations`, the fallback loop of `getLocationCoordinates`, the backward
scan of `getBaseTime` and the hourly loop of `parseWeatherData`. Each such
method is proved equal to a recursive specification function over the prefix
it has handled. The early-return keyword scans of `getRecommendedActivities`
and `getWeatherIcon` (`Text.FirstContainedKey`) and `districts.find`
(`LocationSearch.FindDistrict`) are recursive functions. The properties
themselves are lemmas about those functions.

## Model

| member | source | states |
|---|---|---|
| LocationCoordinates.GetLocationCoordinates | shared/lib/locationCoordinates.ts:23-39 | The counting-down loop returns exactly `Coordinates(table, id)`: the exact entry, or the first hit of the prefix loop, or nothing |
| LocationCoordinates.CoordinatesLongestPrefix | shared/lib/locationCoordinates.ts:26-38 | An id that is a key gets its own entry. Otherwise the result is the entry of the longest run of leading segments that is a key. The result is null exactly when no run is a key |
| LocationCoordinates.FallbackLongest | shared/lib/locationCoordinates.ts:30-36 | The fallback loop from i segments down finds the longest prefix key, and finds nothing exactly when none of the prefixes is a key |
| LocationCoordinates.PrefixKeyBoundary | shared/lib/locationCoordinates.ts:30-33 | A prefix key is made of whole segments: it is the whole id, or it is followed in the id by a hyphen. So a partial segment never matches |
| LocationCoordinates.FallbackToCity | shared/lib/locationCoordinates.ts:30-36 | With only the city in the table, a three-level path under that city gets the city's coordinates |
| LocationCoordinates.NoEntryNoCoordinates | shared/lib/locationCoordinates.ts:26-38 | Over any table, a hyphen-free name that is not a key gets null |
| LocationCoordinates.FallbackToDistrict | shared/lib/locationCoordinates.ts:30-36 | A three-level path with no entry of its own gets its district's entry when the district has one |
| LocationCoordinates.ShippedTableExact | shared/lib/locationCoordinates.ts:1-28 | Over the shipped table, 서울특별시, 부산광역시 and 서울특별시-종로구-청운동 get their own coordinates |
| LocationCoordinates.ShippedTableMissing | shared/lib/locationCoordinates.ts:1-38 | Over the shipped table, 존재하지않는장소 gets null |
| LocationCoordinates.ShippedTableFallback | shared/lib/locationCoordinates.ts:1-36 | Over the shipped table, 서울특별시-종로구-신설동 gets the coordinates of 서울특별시-종로구 |
| LocationCoordinates.ShippedFallbackKeys | shared/lib/locationCoordinates.ts:1-21 | The shipped table has no entry for 서울특별시-종로구-신설동 and has one for 서울특별시-종로구 |
| LocationCoordinates.ShippedFallbackPath | shared/lib/locationCoordinates.ts:30-32 | 서울특별시-종로구-신설동 is the hyphen-free segments 서울특별시, 종로구 and 신설동 joined by hyphens |
| LocationCoordinates.EnrichWithCoordinates | shared/lib/locationCoordinates.ts:41-49 | All other fields are kept; `coordinates` is the lookup result, absent when the lookup gives null |
| SearchIndex.MakeLocation | shared/lib/locationSearch.ts:12-23 | A district's record has `id = fullPath = district` and the district's coordinates |
| SearchIndex.MakeLocationName | shared/lib/locationSearch.ts:12-15 | The name is the last segment: it has no hyphen, and it is the whole path or the part after the path's last hyphen |
| SearchIndex.MakeLocationLevel | shared/lib/locationSearch.ts:12-17 | The level is 시, 구 or 동 for a path with zero, one or more hyphens |
| SearchIndex.CreateSearchIndex | shared/lib/locationSearch.ts:8-41 | The nested registration loops build exactly `BuildIndex(districts, table)` |
| SearchIndex.RegisterDistrict | shared/lib/locationSearch.ts:25-37 | The loop over a district's segments, then its full path, registers the record under exactly the district's keys, in order |
| SearchIndex.RegisterLookup | shared/lib/locationSearch.ts:26-30 | One `has`/`set`/`push` step appends the record to its key's list and leaves every other key's list alone |
| SearchIndex.RegisterKeys | shared/lib/locationSearch.ts:27-29 | One step adds a new key last, leaves the keys alone for a known key, and keeps keys distinct |
| SearchIndex.KeysOf | shared/lib/locationSearch.ts:25-33 | A district has one key per segment plus its full path |
| SearchIndex.KeysOfContained | shared/lib/locationSearch.ts:25-37 | Every key of a district occurs in its lower-cased path |
| SearchIndex.RegisterAllLookup | shared/lib/locationSearch.ts:25-31 | Registering a run of keys appends the record to a key's list once per occurrence of that key |
| SearchIndex.RepeatGrows | shared/lib/locationSearch.ts:30 | One more occurrence of a key appends exactly one more copy of the record under it |
| SearchIndex.RegisterAllKeys | shared/lib/locationSearch.ts:25-31 | Registering a run of keys adds the new keys in first-occurrence order and keeps keys distinct |
| SearchIndex.BuildIndexLookup | shared/lib/locationSearch.ts:11-38 | Under each key, the built index lists each district's record once per key of the district equal to it, in district order |
| SearchIndex.BuildIndexKeys | shared/lib/locationSearch.ts:11-38 | The built index's keys are all districts' keys in first-insertion order, none twice |
| SearchIndex.HasKeyIffInKeys | shared/lib/locationSearch.ts:27 | `index.has(key)` holds exactly when the key is among the index keys |
| SearchIndex.RegisterSound | shared/lib/locationSearch.ts:26-30 | Registering a listed district's record under a key its path contains keeps the index sound |
| SearchIndex.RegisterAllSound | shared/lib/locationSearch.ts:25-37 | Registering any prefix of a district's keys keeps the index sound |
| SearchIndex.BuildIndexSound | shared/lib/locationSearch.ts:8-41 | Every record in the built index is a listed district's record, and its key occurs in its lower-cased path |
| LocationSearch.NormalizeQuery | shared/lib/locationSearch.ts:53 | `query.toLowerCase().trim()` is no longer than the query, holds no ASCII capital, and neither starts nor ends with whitespace |
| LocationSearch.Search | shared/lib/locationSearch.ts:45-84 | The value `searchLocations` returns: never longer than a non-negative limit. `SearchLocations` is proved equal to it; `SearchIdsDistinct`, `SearchExactFirst` and `SearchMatchesQuery` state its other properties |
| LocationSearch.SearchLocations | shared/lib/locationSearch.ts:45-84 | The method equals `Search`. A blank query, or one whose normalized form is shorter than the minimum length, gives `[]`. A non-negative limit bounds the length |
| LocationSearch.BlankQueryFindsNothing | shared/lib/locationSearch.ts:49-51 | A query of whitespace only, the empty query included, gives `[]` |
| LocationSearch.ExactLoop | shared/lib/locationSearch.ts:59-70 | The exact-key loop computes `ExactPass` and keeps `seen` equal to the result's ids |
| LocationSearch.TakeLoop | shared/lib/locationSearch.ts:74-79 | The inner substring loop computes `TakeUnseen` and keeps `seen` in step |
| LocationSearch.SubstringLoop | shared/lib/locationSearch.ts:72-81 | The outer loop over the keys in index order computes `SubstringPass` |
| LocationSearch.SliceTo | shared/lib/locationSearch.ts:83 | `slice(0, limit)` gives a prefix; for a non-negative limit its length is `min(limit, length)` |
| LocationSearch.SliceKeepsPrefix | shared/lib/locationSearch.ts:83 | `slice(0, limit)` of a list that starts with a prefix keeps that prefix up to the limit |
| LocationSearch.ExactPassExtends | shared/lib/locationSearch.ts:62-70 | The exact pass extends its start and adds only its input's locations |
| LocationSearch.ExactPassIds | shared/lib/locationSearch.ts:62-70 | The exact pass keeps ids distinct, and its ids are those of its start plus every id of its input |
| LocationSearch.TakeUnseenGrows | shared/lib/locationSearch.ts:74-79 | The inner loop extends its start, keeps ids distinct, adds only its input, and never passes the limit |
| LocationSearch.SubstringPassGrows | shared/lib/locationSearch.ts:72-81 | The substring pass extends its start and keeps ids distinct. Everything it adds is listed under a key containing the query |
| LocationSearch.SubstringPassExtends | shared/lib/locationSearch.ts:72-81 | The substring pass never removes or reorders what the exact pass found |
| LocationSearch.SearchIdsDistinct | shared/lib/locationSearch.ts:60-80 | No two results share an id |
| LocationSearch.SearchExactFirst | shared/lib/locationSearch.ts:62-70 | The de-duplicated list of an exact key starts the result, cut only by the limit |
| LocationSearch.ExactPassOrder | shared/lib/locationSearch.ts:62-70 | The exact pass covers every id of the list, keeps for each id its first location in the list, and orders them by first position |
| LocationSearch.FirstOfEachStep | shared/lib/locationSearch.ts:64-69 | One more iteration keeps the first location of every id |
| LocationSearch.InFirstPosOrderStep | shared/lib/locationSearch.ts:64-69 | One more iteration keeps the result ordered by first position in the list |
| LocationSearch.FirstPosAppend | shared/lib/locationSearch.ts:64-69 | The first position of an id in a list extended by one element |
| LocationSearch.IdsOfFirstPos | shared/lib/locationSearch.ts:65 | An id has been seen exactly when it has a first position |
| LocationSearch.SearchMatchesQuery | shared/lib/locationSearch.ts:72-83 | Over a sound index, every result's lower-cased path contains the normalized query, and every result is a listed district's record |
| LocationSearch.SearchDistricts | shared/lib/locationSearch.ts:43-84 | Over the index built from the districts: at most `limit` results, no id twice, each the record of a listed district whose lower-cased path contains the normalized query |
| LocationSearch.FindDistrict | shared/lib/locationSearch.ts:87 | `find` returns the id exactly when it is listed |
| LocationSearch.GetLocationById | shared/lib/locationSearch.ts:86-102 | The result is null exactly when the id is not listed or is empty. Otherwise it is the district's record with that id |
| LocationSearch.GetLocationByIdInIndex | shared/lib/locationSearch.ts:86-102 | The record found by id is one the index lists under the id's lower-cased path |
| LocationSearch.EntriesContain | shared/lib/locationSearch.ts:33-37 | A listed district's record is among the entries expected under its lower-cased path |
| LocationSearch.FormatLocationName | shared/lib/locationSearch.ts:104-106 | The display name has the path's length and no hyphen, and keeps every other character |
| LocationSearch.FormatIdentity | shared/lib/locationSearch.ts:104-106 | The display name equals the path exactly when the path has no hyphen |
| LocationSearch.FormatJoinsSegments | shared/lib/locationSearch.ts:104-106 | The display name is the path's segments joined by single spaces |
| Lists.DropKey | entities/search/model/store.ts:27 | `filter((x) => x.id !== k)`: never longer, and no entry with key k remains |
| Lists.DropKeyMembers | entities/search/model/store.ts:27 | The result holds exactly the entries of the list with another key |
| Lists.DropKeyCons | entities/search/model/store.ts:20 | Filtering `[x, ...rest]` keeps x exactly when its key differs, then filters the rest |
| Lists.DropKeyConcat | entities/search/model/store.ts:20 | Filtering a concatenation is concatenating the filtered parts, so order is kept |
| Lists.DropKeyUnchanged | entities/favorite/model/store.ts:57 | Filtering changes nothing exactly when no entry has the key (an unknown id is a no-op) |
| Lists.DropKeyUnique | entities/favorite/model/store.ts:57 | Filtering keeps keys unique |
| Lists.Take | entities/search/model/store.ts:21 | `slice(0, n)` is the prefix of length `min(n, length)` |
| SearchHistory.Push | entities/search/model/store.ts:20-22 | The new history fits the bound. With room for one entry, its head is the location. No later entry has the location's id, and every later entry was in the old history |
| SearchHistory.PushUnique | entities/search/model/store.ts:20-21 | Adding keeps ids unique |
| SearchHistory.PushOrder | entities/search/model/store.ts:20-21 | The other entries keep their relative order and are cut only from the tail |
| SearchHistory.PushKeepsOrder | entities/search/model/store.ts:20-21 | After the head come, in order, the first entries of the old history filtered by the location's id |
| SearchHistory.PushNew | entities/search/model/store.ts:20-21 | A new place with room to spare goes in front of the whole history |
| SearchHistory.PushTwice | entities/search/model/store.ts:18-23 | Adding the same place twice in a row equals adding it once |
| SearchHistory.TakeCons | entities/search/model/store.ts:21 | Cutting `[l, ...rest]` to n keeps l and cuts the rest to n - 1 |
| SearchHistory.SearchHistoryStore.constructor | entities/search/model/store.ts:16-17 | The store starts empty with bound 10 and valid |
| SearchHistory.SearchHistoryStore.AddToHistory | entities/search/model/store.ts:18-24 | The new history is `Push` of the old one, and its head is the location. The invariant is kept |
| SearchHistory.SearchHistoryStore.RemoveFromHistory | entities/search/model/store.ts:25-29 | The history becomes the old one filtered by id, with no entry of that id left. The invariant is kept |
| SearchHistory.SearchHistoryStore.ClearHistory | entities/search/model/store.ts:30-32 | The history is empty and valid |
| FavoriteStore.WithAlias | entities/favorite/model/store.ts:64-66 | Same length and order; place and `addedAt` kept; the alias is set on entries with the id and kept on the others |
| FavoriteStore.WithAliasUnknown | entities/favorite/model/store.ts:62-69 | Renaming an id that is not saved changes nothing |
| FavoriteStore.WithAliasWellFormed | entities/favorite/model/store.ts:62-69 | Renaming keeps the invariant |
| FavoriteStore.AppendWellFormed | entities/favorite/model/store.ts:36-49 | Appending a new id below the bound keeps the invariant |
| FavoriteStore.FavoriteStoreState.constructor | entities/favorite/model/store.ts:24-25 | The store starts empty with bound 6, nothing saved, and valid |
| FavoriteStore.FavoriteStoreState.IsFavorite | entities/favorite/model/store.ts:71-73 | True exactly when some saved entry has the id |
| FavoriteStore.FavoriteStoreState.LoadFavorites | entities/favorite/model/store.ts:27-32 | A stored list replaces the favourites unchecked, so the store is valid exactly when that list is. Nothing stored keeps the favourites. Nothing is written |
| FavoriteStore.FavoriteStoreState.AddFavorite | entities/favorite/model/store.ts:34-53 | Succeeds exactly when there is room and the id is not saved. A success appends one entry stamped with `now` and saves the list. A refusal changes nothing and saves nothing. The invariant is kept |
| FavoriteStore.FavoriteStoreState.RemoveFavorite | entities/favorite/model/store.ts:55-60 | The list is filtered by id and saved, the id is no longer a favourite, and the invariant is kept |
| FavoriteStore.FavoriteStoreState.UpdateFavoriteAlias | entities/favorite/model/store.ts:62-69 | The list becomes `WithAlias` of the old one and is saved; the invariant is kept |
| WeatherApi.BaseHourFor | shared/api/weather.ts:159-171 | The base hour is one of the table's hours. Before 02 it is 23. Otherwise it is the largest base hour not after the current hour |
| WeatherApi.GetBaseTime | shared/api/weather.ts:156-174 | The backward loop with `break` returns the two-digit base hour followed by "00": four decimal digits whose first two read back as the base hour |
| WeatherApi.BaseTimeShape | shared/api/weather.ts:173 | An hour below 100, padded and followed by "00", is four digits whose first two read back as the hour |
| WeatherApi.ZerosAfterDigits | shared/api/weather.ts:173 | Appending "00" to digits gives digits |
| WeatherApi.BaseDate | shared/api/weather.ts:148-154 | The year, then the month number and the day padded to two digits; the length is the year's length plus four |
| WeatherApi.BaseDateRoundTrip | shared/api/weather.ts:148-154 | The date is all decimal digits. From the end, it reads back as the year, the month number (index + 1) and the day; a four-digit year gives eight characters |
| WeatherApi.DateFields | shared/api/weather.ts:150-153 | A year followed by two-character month and day fields reads back field by field from the end |
| WeatherApi.FourDigitYear | shared/api/weather.ts:150 | A year from 1000 to 9999 is written with four digits |
| WeatherApi.WeatherDescription | shared/api/weather.ts:228-236 | "비" exactly when pty is 1 to 4. Otherwise sky 1, 3 and 4 give 맑음, 구름많음 and 흐림 (each iff), and anything else gives "알 수 없음" |
| WeatherApi.PrecipitationOverridesSky | shared/api/weather.ts:229-231 | With precipitation, the sky code does not matter |
| WeatherApi.FirstMatch | shared/api/weather.ts:222-224 | `Array.find`: the first item with the category and the padded time, or none |
| WeatherApi.FindItem | shared/api/weather.ts:221-226 | A value is the non-empty value of the first matching item. Null means there is no match, or the first match's value is empty |
| WeatherApi.FindItemAppend | shared/api/weather.ts:221-226 | Items appended after a match never change the answer |
| WeatherApi.FirstMatchAppend | shared/api/weather.ts:222-224 | Once the list has a match, `find`'s answer does not depend on items appended after it |
| WeatherApi.ParseHourly | shared/api/weather.ts:191-200 | The loop over hours 1 to 24 builds exactly `HourlyUpTo(items, parseFloat, 24)`, at most 24 entries |
| WeatherApi.TempHoursBounds | shared/api/weather.ts:192-194 | The hours with a temperature lie in 1..n and strictly increase, so there are at most n |
| WeatherApi.TempHoursComplete | shared/api/weather.ts:193-194 | An hour is listed exactly when `findItem` finds a temperature for it |
| WeatherApi.HourlyLength | shared/api/weather.ts:191-200 | One entry per hour that has a temperature |
| WeatherApi.HourlyEntryAt | shared/api/weather.ts:195-198 | The k-th entry is labelled with the k-th such hour and carries its parsed value |
| WeatherApi.HourLabelShape | shared/api/weather.ts:196 | A label is "HH:00": five characters whose first two read back as the hour |
| ActivityData.ListsNonEmpty | shared/lib/activityRecommendation.ts:7-43 | Every keyword has a list, and no list is empty |
| ActivityRecommendation.RecommendedActivities | shared/lib/activityRecommendation.ts:45-55 | The suggestion list is never empty |
| ActivityRecommendation.ActivitiesFirstMatch | shared/lib/activityRecommendation.ts:45-55 | The result is the list of the first keyword, in table order, that the trimmed description contains; with no such keyword, the 맑음 list |
| ActivityRecommendation.ResolvesTo | shared/lib/activityRecommendation.ts:48-52 | A description containing the i-th keyword, and no earlier keyword's first character, gets the i-th list |
| ActivityRecommendation.RainAndSnowGivesRain | shared/lib/activityRecommendation.ts:24-34 | "비/눈" contains both 비 and 눈 and gets the 비 list: keyword order decides overlaps |
| ActivityRecommendation.RainAndSnowKeys | shared/lib/activityRecommendation.ts:7-43 | "비/눈" contains the 비 and 눈 keywords and no first character of the keywords before 비 |
| ActivityRecommendation.UnknownGivesClear | shared/lib/activityRecommendation.ts:54 | A description with no keyword's first character gets the 맑음 list |
| ActivityRecommendation.ActivitiesForForecast | shared/lib/activityRecommendation.ts:45-55 | Each description the forecast client produces gets its own list; "알 수 없음" gets the default |
| ActivityRecommendation.KeywordGetsOwnList | shared/lib/activityRecommendation.ts:45-52 | Each keyword, as a description, gets its own list |
| ActivityRecommendation.UnknownDescriptionGivesClear | shared/lib/activityRecommendation.ts:54 | "알 수 없음" gets the 맑음 default |
| ActivityRecommendation.UnknownKeyChars | shared/lib/activityRecommendation.ts:48-52 | "알 수 없음" holds no keyword's first character, so no keyword matches |
| WeatherIcons.GetWeatherIcon | shared/lib/weatherIcons.ts:36-46 | `getWeatherIcon`: an icon other than the sun means some table keyword occurs in the trimmed description; the full first-match characterisation is `IconFirstMatch` |
| WeatherIcons.GetWeatherIconColor | shared/lib/weatherIcons.ts:48-71 | `getWeatherIconColor`: the result is one of the chain's classes or the default; `ColorChainIsScan` and `IconColorRange` characterise which |
| WeatherIcons.IconFirstMatch | shared/lib/weatherIcons.ts:36-46 | The icon is that of the first table keyword, in declaration order, that the trimmed description contains; with none, the sun |
| WeatherIcons.IconResolvesTo | shared/lib/weatherIcons.ts:39-45 | A description containing the i-th keyword, and no earlier keyword's first character, gets the i-th icon |
| WeatherIcons.ShadowedEntries | shared/lib/weatherIcons.ts:27-31 | The entries "비/눈" and "눈비" are never the first match, because the earlier key "비" occurs in both |
| Text.ShadowedKey | shared/lib/weatherIcons.ts:39-43 | In a first-match scan, a key that contains an earlier key is never the match |
| WeatherIcons.SnowflakeOnlyWithoutRain | shared/lib/weatherIcons.ts:27-31 | The snowflake is shown only for descriptions containing 눈 and not 비 |
| WeatherIcons.SnowflakeMatch | shared/lib/weatherIcons.ts:11-31 | A snowflake first match other than "눈비" is the 눈 entry, so 눈 occurs and the earlier 비 does not |
| WeatherIcons.RainSnowShowsRain | shared/lib/weatherIcons.ts:27-29 | "비/눈" shows the rain icon |
| WeatherIcons.SnowRainShowsRain | shared/lib/weatherIcons.ts:27-31 | "눈비" shows the rain icon, not the snowflake of its own entry |
| WeatherIcons.ConditionIcon | shared/lib/weatherIcons.ts:11-46 | Each table keyword gets its own icon, except "비/눈" and "눈비", which get the rain icon |
| WeatherIcons.ColorChainIsScan | shared/lib/weatherIcons.ts:48-71 | The colour `if` chain equals a first-match scan over the keywords 맑음, 구름, 흐림, 비, 소나기, 눈, 천둥, 안개 |
| WeatherIcons.ColorChainAt | shared/lib/weatherIcons.ts:48-71 | A trimmed description containing the i-th colour keyword and none before it gets the i-th class; containing none, the default |
| WeatherIcons.IconColorRange | shared/lib/weatherIcons.ts:48-71 | Every description gets one of the seven classes; the default exactly when no colour keyword occurs |
| WeatherIcons.ColorResolvesTo | shared/lib/weatherIcons.ts:51-68 | A description containing the i-th colour keyword, and no earlier keyword's first character, gets the i-th class |
| WeatherIcons.ConditionColor | shared/lib/weatherIcons.ts:48-71 | Each table keyword gets the class of the first colour test it passes |
| WeatherIcons.ConditionColorKeys | shared/lib/weatherIcons.ts:51-68 | Each table keyword contains the colour keyword of its test and no first character of an earlier colour keyword |
| WeatherIcons.IconColorAgree | shared/lib/weatherIcons.ts:11-71 | For every weather condition of the table, the colour is the one that goes with the icon shown |
| WeatherIcons.IconForForecast | shared/lib/weatherIcons.ts:36-46 | Precipitation shows rain. Sky 1 shows the sun. Sky 3 and 4 show the cloud. "알 수 없음" shows the default sun |
| WeatherIcons.ForecastConditionIcon | shared/lib/weatherIcons.ts:36-46 | A description equal to a table keyword shows that keyword's shown icon |
| WeatherIcons.UnknownShowsSun | shared/lib/weatherIcons.ts:45 | "알 수 없음" shows the default sun |
| WeatherIcons.UnknownIconChars | shared/lib/weatherIcons.ts:39-43 | "알 수 없음" holds no icon keyword's first character |
| WeatherColors.TemperatureColor | shared/lib/weatherColors.ts:1-15 | `getTemperatureColor` returns the text class of the temperature's band |
| WeatherColors.TemperatureBgColor | shared/lib/weatherColors.ts:17-31 | `getTemperatureBgColor` returns the background class of the temperature's band |
| WeatherColors.TemperatureBorderColor | shared/lib/weatherColors.ts:33-47 | `getTemperatureBorderColor` returns the border class of the temperature's band |
| WeatherColors.Band | shared/lib/weatherColors.ts:1-15 | The band is one of five: the number of thresholds 0, 10, 20, 30 reached |
| WeatherColors.BandBounds | shared/lib/weatherColors.ts:2-14 | A band is a half-open interval: its lower threshold is inclusive and its upper one exclusive |
| WeatherColors.BandMonotone | shared/lib/weatherColors.ts:1-47 | A warmer temperature is never in a lower band |
| WeatherColors.ReachedMonotone | shared/lib/weatherColors.ts:1-47 | Counting reached thresholds is monotone in the temperature |
| WeatherColors.ColorsByBand | shared/lib/weatherColors.ts:1-47 | Each of the three chains returns its table's class for the temperature's band |
| WeatherColors.TextColorSeparatesBands | shared/lib/weatherColors.ts:1-15 | Two temperatures get the same text class exactly when they are in the same band |
| WeatherColors.BgAndBorderMergeColdBands | shared/lib/weatherColors.ts:17-47 | Background and border classes are equal exactly when the bands are equal with the two bands below 10° merged |
| Text.FirstContainedKey | shared/lib/activityRecommendation.ts:48-52 | The first-match scan: the index of the first key contained, every earlier key not contained, or the table length |
| Text.FirstContainedKeyByFirstChars | shared/lib/weatherIcons.ts:39-43 | A key contained, with no earlier key's first character in the string, is the first match |
| Text.JoinSplit | shared/lib/locationCoordinates.ts:30-32 | Joining the segments of a path with hyphens gives the path back |
| Text.JoinCons | shared/lib/locationSearch.ts:105 | `join` of `[x, ...rest]` is x, then the separator and the join of the rest when there is a rest |
| Text.JoinConsFirst | shared/lib/locationSearch.ts:105 | Joining a list whose first part starts with c starts with c, followed by the join with c removed |
| Text.TrimIdentity | shared/lib/weatherIcons.ts:37 | `trim` leaves a string alone when it neither starts nor ends with whitespace |
| Text.LowerContains | shared/lib/locationSearch.ts:26-33 | Lower-casing keeps containment of a segment in its path |
| Text.TwoDigitsRoundTrip | shared/api/weather.ts:173 | `String(n).padStart(2, "0")` for n below 100 is two decimal digits that read back as n |
| Text.NatToDecimal | shared/api/weather.ts:151-153 | `String(n)` is a non-empty string of decimal digits; one digit below 10, two below 100 |
| Text.DecimalRoundTrip | shared/api/weather.ts:153 | `String(n)` reads back as n |
| Text.DigitsConcat | shared/api/weather.ts:153 | Concatenated digit strings are digit strings |
| Text.TrimEmpty | shared/lib/locationSearch.ts:49 | `trim` gives the empty string exactly when the string is whitespace only |
| Text.TrimShape | shared/lib/locationSearch.ts:53 | `trim` never lengthens a string, and its result neither starts nor ends with whitespace |
| Text.TrimNoCapitals | shared/lib/locationSearch.ts:53 | Trimming a string without capitals leaves none |

## Left out

- Network and I/O: the HTTP call and error translation of the forecast
  client, and the unimplemented lookup by place name. Local storage and its
  JSON wrappers are left out; the favourites store records the last list it
  wrote in a ghost field instead.
- The grid projection (`convertToGrid`) and the mock weather data. They use
  floating-point trigonometry, `Math.random` and the clock.
- The clock and the time zone. `getBaseTime` takes the current hour,
  `getBaseDate` the local year, month index and day, and `addFavorite` the
  current time. Time-zone behaviour is not modelled.
- zustand's `create`/`persist` middleware, React hooks, geolocation and all
  UI components. Each store is a class whose methods replace its list field.
- `parseWeatherData` is modelled only for its hourly loop. Its current, daily
  and description fields are plain `findItem` calls plus `parseFloat`, which
  is an abstract function parameter.
- Floating point: temperatures and coordinates are reals, and NaN is not
  modelled.
- Unicode: `toLowerCase` maps only A–Z; Hangul has no case. A character
  is a Unicode code point. A character outside the Basic Multilingual Plane,
  such as an emoji, counts 1 here but 2 UTF-16 code units in JavaScript, so
  the `MIN_LENGTH` test (shared/lib/locationSearch.ts:55) is modelled
  faithfully only for queries inside that plane. All Hangul and every
  district name lie inside it. `trim` uses the JavaScript whitespace set
  character by character.
- The coordinate table is a finite map. Keys inherited by a JavaScript
  object, such as `toString`, are not found in it.
- The district list (`korea_districts.json`) and the `SearchEnum` constants
  (`MIN_LENGTH`, `RESULT_LIMIT`) are not part of this model. They are
  parameters of the search functions, and the index is a parameter of the
  search.
- `FavoriteEnum` is not part of this model; the bound of 6 is the value the
  store's tests rely on.
- `WeatherIcons.IconColorAgree`: the agreement is stated for the ten table
  keywords only, not for arbitrary descriptions; for example "구름" alone gets
  the gray class but the sun icon.
- `LocationCoordinates.EnrichWithCoordinates`: the source function is generic
  over any record with an `id` and keeps every extra field through its spread;
  the model takes a `Location` only, so extra fields beyond the location
  record are not represented.
- There is no lazy, asynchronous or single-flight index build: the code
  builds the index once, eagerly, when the module loads.

## Code and written description

Where the design description and the code differ, the model follows the code:

- The index is built synchronously from the district list when the module
  loads (shared/lib/locationSearch.ts:43), not lazily on first use, and
  lookup by id is synchronous.
- Lookup by id rejects a found path with a falsy check
  (shared/lib/locationSearch.ts:88). So the empty id gives null even when the
  empty string is a listed district. `LocationSearch.GetLocationById` states
  this case in its contract.
- The design's end-to-end search example expects exactly one place for
  "종로구". In the code, the exact key "종로구" lists every district with that
  segment, such as both "서울특별시-종로구" and "서울특별시-종로구-청운동"
  (shared/lib/locationSearch.ts:25-31), and the search returns all of them
  up to the limit (`LocationSearch.SearchExactFirst`). The model follows the
  code.
- A description such as "눈비" gets the rain icon, not the snowflake its own
  table entry names. The earlier key "비" matches first
  (`WeatherIcons.SnowRainShowsRain`). The colour chain also gives it the rain
  colour, so icon and colour agree.
