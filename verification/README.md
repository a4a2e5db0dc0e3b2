# HurricaneWatch core, modelled in Dafny

HurricaneWatch is a hurricane tracking dashboard. Its server keeps an in-memory store of
hurricanes and of snapshot records from three kinds of sources:

- the National Hurricane Center (NHC): forecast cones, tracks, warnings and the live KML feed of active storms;
- the GFS weather model: temperature, pressure and wind rasters;
- CMEMS ocean products: currents and waves.

It also stores AI forecasts, serves all of this over a small JSON API, and refreshes it on a schedule. The browser
client shows the storms with layer switches, a forecast time slider, a forecast card and a
data-freshness footer.

This project models that core as pure Dafny functions over immutable values:

- **Store.** The store is a value: a hurricane table (the key-to-record map plus the key
  insertion order of a JavaScript `Map`), four record sequences in insertion order, and a
  counter that stands in for the random id supply. Every write returns the new store.
- **Network.** Each fetch is a parameter that maps a URL to `Ok(body)` or `Fail`. The KML
  feed and the AI oracle are handled the same way.
- **Clock.** The clock is an integer parameter in epoch milliseconds, one reading per
  operation. `parseFloat` and the NHC date parser are parameters of the KML parser.
- **JavaScript semantics.** The value semantics the code relies on are written out:
  - falsy `||` defaults, so `0` and `""` are replaced;
  - a stable `Array.prototype.sort`;
  - `String.prototype.trim`, `toLowerCase` and `replace(/\s+/g, '-')`;
  - `encodeURIComponent`/`decodeURIComponent`, including UTF-8 percent escapes;
  - `Date.prototype.toISOString` and `getUTCHours` over the proleptic Gregorian calendar;
  - `padStart`.

Modules follow the program's structure:

| module | what it is |
|---|---|
| `Storage` | the store and its typed queries |
| `Records` | the filter-and-sort used by every "latest" query |
| `NhcService`, `GfsService`, `CmemsService` | the source adapters |
| `KmlParser` | the live feed parser |
| `DataScheduler` | the sweep, the cone refresh and the live import |
| `Routes` | the JSON API |
| `AiPrediction` | the forecast normaliser |
| `Layers`, `TimeControls`, `ControlPanel`, `PredictionPanel`, `Attribution` | the client logic |
| `SaffirSimpson` | the wind-band reference the category functions are checked against |
| `Text`, `Uri`, `Calendar` | the JavaScript library behaviour the code leans on |

## Model

| member | source | states |
|---|---|---|
| Storage.EmptyValid | server/storage.ts:43-48 | The empty store satisfies the store invariant: the table's key order lists each key once, and every record id lies below the id counter. |
| Storage.Put | server/storage.ts:71 | A `Map.set`: the key maps to the new record; a new key goes to the end of the iteration order, an existing key keeps its place; the table invariant is kept. |
| Storage.Values | server/storage.ts:51 | `Array.from(map.values())` yields only stored records and yields every key listed in the order. |
| Storage.GetHurricanes | server/storage.ts:50-52 | Only stored hurricanes; under the table invariant, exactly one per key, in the order the keys were first inserted. |
| Storage.OrderCountsKeys | server/storage.ts:51 | Under the table invariant the iteration order has as many entries as the map has keys. |
| Storage.GetActiveHurricanes | server/storage.ts:54-56 | Exactly the stored hurricanes whose `isActive` is truthy: nothing else, and, when the table invariant holds, none missing. |
| Storage.GetHurricane | server/storage.ts:58-60 | A hurricane is found iff the key is stored, and what is found is a stored hurricane. |
| Storage.GetHurricaneListed | server/storage.ts:50-60 | Under the table invariant a key finds a hurricane iff it is in the iteration order, and the hurricane found is one of those `getHurricanes` lists. |
| Storage.Filter | server/storage.ts:55 | The active filter keeps exactly the active hurricanes of its input. |
| Storage.ActiveFlag | server/storage.ts:69 | An undefined `isActive` defaults to true; an explicit null stays null, which reads as inactive; a boolean is kept. |
| Storage.CreateHurricane | server/storage.ts:62-73 | The record is keyed by the slug of its name, carries every input field, and replaces whatever that key held. No other key and no other collection changes, and the store invariant is kept. |
| Storage.CreateIgnoresExisting | server/storage.ts:62-73 | Creation never merges: the stored record is the same whatever the store held before. |
| Storage.UpdateHurricane | server/storage.ts:75-82 | An unknown id changes nothing and yields nothing. For a known id, every field the patch carries wins and every other field keeps its value. The result is stored under the same key, and no other key changes. |
| Storage.Merge | server/storage.ts:79 | The spread `{ ...existing, ...updates }`: each field the update carries wins, every other field is kept, and `{}` changes nothing. |
| Storage.MergeUnique | server/storage.ts:79 | A hurricane patched field by field from the existing one is the spread, so applying the same update twice is applying it once. |
| Storage.GetWeatherData | server/storage.ts:84-93 | Exactly the weather records passing both optional filters (an empty kind filters nothing), drawn from the store and listed newest first. |
| Storage.GetLatestWeatherData | server/storage.ts:95-100 | None iff no record has that kind. Otherwise it is a record of that kind that no other of the kind postdates, the earliest-inserted among equals. |
| Storage.CreateWeatherData | server/storage.ts:102-115 | Appends exactly one record with every input field and a fresh id, distinct from every stored weather id. Empty URLs become null; the other collections are unchanged. |
| Storage.GetOceanData | server/storage.ts:117-126 | As for weather, over the ocean records. |
| Storage.GetLatestOceanData | server/storage.ts:128-133 | As for weather, over the ocean records. |
| Storage.CreateOceanData | server/storage.ts:135-148 | As for weather: one appended record, a fresh id, empty URLs stored as null, nothing else changed. |
| Storage.GetNhcData | server/storage.ts:150-159 | As for weather, over the NHC snapshots. |
| Storage.GetLatestNhcData | server/storage.ts:161-166 | As for weather, over the NHC snapshots. |
| Storage.CreateNhcData | server/storage.ts:168-178 | One appended snapshot under a fresh id; an empty storm id is stored as null; nothing else changes. |
| Storage.GetHurricanePredictions | server/storage.ts:180-186 | The forecasts of that hurricane, exactly, in insertion order; with no id or an empty id, every forecast. |
| Storage.GetLatestPrediction | server/storage.ts:188-193 | None iff no forecast is in scope. Otherwise it is an in-scope forecast that no other in-scope one postdates, the first inserted among equals. An empty id puts every forecast in scope. |
| Storage.ScopedListing | server/storage.ts:180-193 | The scoped forecast listing is the generic kind filter under the scope's owner key, so the "latest" query reuses the generic proof. |
| Storage.ScopeMatches | server/storage.ts:182-183 | The owner key a scoped query compares matches exactly the forecasts in scope. |
| Storage.CreateHurricanePrediction | server/storage.ts:195-210 | One appended forecast under a fresh id. A falsy landfall probability (0 included) is stored as null, as are empty location, time and analysis strings; nothing else changes. |
| Records.Where | server/storage.ts:86-91 | The kind filter and the timestamp filter keep exactly the records whose key is the given one, each no more often than in the input. |
| Records.InsertDescSorted | server/storage.ts:92 | Inserting into a newest-first list keeps it newest first. |
| Records.SortDesc | server/storage.ts:92 | The newest-first sort is a permutation of its input and is ordered by stamp. |
| Records.InsertDesc | server/storage.ts:92 | Inserting a record adds exactly that one record to the list and drops none. |
| Records.FirstMax | server/storage.ts:95-100 | Reference definition of "latest": none iff no record has the kind. Otherwise it is the index of a record of the kind that none of the kind exceeds, with every earlier one strictly older. |
| Records.LatestIsFirstMax | server/storage.ts:95-100 | The head of the filtered, stably sorted list is exactly the reference latest record, so ties go to the earliest insert. |
| Records.LatestSpec | server/storage.ts:95-100 | The "latest" query stated on the records themselves: none iff no record of the kind, otherwise a record at a position satisfying `LatestAt`. |
| Records.Latest | server/storage.ts:95-100 | Nothing iff no record has the kind; otherwise a record of the kind from the list, no older than any other record of the kind. |
| Records.LatestOther | server/storage.ts:98-99 | A leading record of another kind does not change the latest record. |
| Records.LatestSame | server/storage.ts:98-99 | A leading record of the kind is the latest unless a later one is strictly newer. |
| Records.WhereAll | server/storage.ts:98 | A kind filter every record passes returns the whole list. |
| Records.Listing | server/storage.ts:84-93 | The listing behind every `get…Data` query: exactly the records passing the optional filters, drawn from the store, newest first. |
| SaffirSimpson.Band | server/services/data-scheduler.ts:158-166 | A wind speed falls in one of the seven bands. |
| SaffirSimpson.BandInterval | server/services/data-scheduler.ts:158-166 | The band is the interval that holds the wind: at or above its own threshold and below the next. |
| SaffirSimpson.BandValue | server/services/data-scheduler.ts:159-165 | The band spelled out against the thresholds 157, 130, 111, 96, 74 and 39 mph. |
| SaffirSimpson.ReachedMonotone | server/services/data-scheduler.ts:158-166 | More wind never reaches fewer thresholds. |
| SaffirSimpson.BandMonotone | server/services/data-scheduler.ts:158-166 | More wind never gives a lower band. |
| SaffirSimpson.Rank | server/services/data-scheduler.ts:158-166 | The position of a category name among the band names, or past the end for any other text. |
| SaffirSimpson.RankOfBand | server/services/data-scheduler.ts:159-165 | A band name's rank is its band, because the names are pairwise different. |
| SaffirSimpson.NamesDistinct | server/services/data-scheduler.ts:159-165 | The seven category names are pairwise different. |
| SaffirSimpson.CategoryMonotone | server/services/data-scheduler.ts:158-166 | A higher wind never gets a weaker category. |
| DataScheduler.DetermineCategory | server/services/data-scheduler.ts:158-166 | The category of a wind is its Saffir-Simpson band name. A missing wind compares false everywhere and gets the weakest band. |
| DataScheduler.DetermineCategoryMonotone | server/services/data-scheduler.ts:158-166 | Stronger wind never gets a weaker category, and the cone refresh agrees with the KML parser's `categorizeByWind` on every wind. |
| DataScheduler.LastWith | server/services/data-scheduler.ts:77-104 | The position found holds the key and no later element does; no position means no element holds the key. |
| DataScheduler.LastNamed | server/services/data-scheduler.ts:77-104 | Finds the last insert of a batch whose name slugs to a key, or reports that none does. |
| DataScheduler.UpsertAll | server/services/data-scheduler.ts:77-104 | A batch of `createHurricane` calls keeps the store invariant and touches only the hurricane table. |
| DataScheduler.UpsertLastWins | server/services/data-scheduler.ts:77-104 | After a batch, a key holds the record of the last insert named for it; a key no insert names keeps what it held. |
| DataScheduler.UpsertKeeps | server/services/data-scheduler.ts:77-104 | A batch never removes a hurricane. |
| DataScheduler.MovementNeverUnknown | server/services/data-scheduler.ts:147 | The movement text is a template literal: it is never empty and always ends in " mph", so its `\|\| "Unknown"` fallback is never taken. |
| DataScheduler.Movement | server/services/data-scheduler.ts:147 | The movement text starts with the direction's text and ends with the speed's text followed by " mph". |
| DataScheduler.Coordinate | server/services/data-scheduler.ts:145-146 | `coordinates?.[i] \|\| 0`: the coordinate when present, else 0. |
| DataScheduler.ConeHurricane | server/services/data-scheduler.ts:140-152 | The insert for a named cone feature takes every field from its feature, with falsy defaults. Its last update is `SYNOPTIC` unless that is missing or zero, in which case it is the clock. It is active and due six hours after the clock. |
| DataScheduler.ConeRecords | server/services/data-scheduler.ts:135-139 | The inserts of a feature list are exactly the inserts of its named features. |
| DataScheduler.ProcessNhcData | server/services/data-scheduler.ts:131-156 | A body without features changes nothing. Otherwise only the hurricane table changes and the store invariant is kept; the track data is not read. |
| DataScheduler.ProcessNhcDataStores | server/services/data-scheduler.ts:131-156 | After the refresh every named feature's hurricane is stored, active and due in six hours; a key no feature names is untouched. |
| DataScheduler.FetchLatestHurricaneData | server/services/data-scheduler.ts:116-129 | Succeeds iff some cone endpoint and the track endpoint answer. On success, exactly a cones then a tracks snapshot are appended and the hurricanes are the cone refresh's. On failure no hurricane changes, though a cone snapshot may already have been stored. |
| DataScheduler.ProcessSameHurricanes | server/services/data-scheduler.ts:131-156 | The refresh reads only the hurricane table of the store it runs on. |
| DataScheduler.UpsertSameHurricanes | server/services/data-scheduler.ts:77-104 | A batch of inserts reads only the hurricane table. |
| DataScheduler.KmlHurricane | server/services/data-scheduler.ts:78-103 | The insert for a KML storm carries the storm's fields, and a point feature at its centre holding its name, ATCF id, category and the live-source marks. |
| DataScheduler.KmlRecords | server/services/data-scheduler.ts:77-78 | One insert per parsed storm, in order. |
| DataScheduler.CreateCurrentHurricaneErin | server/services/data-scheduler.ts:58-114 | A failed feed changes nothing. Otherwise the parsed storms are upserted: only the hurricane table changes and the store invariant is kept. |
| DataScheduler.ErinStoresActive | server/services/data-scheduler.ts:58-114 | Every hurricane the live import changes is active and categorised by its own wind. |
| DataScheduler.ErinKeeps | server/services/data-scheduler.ts:58-114 | The live import never removes a hurricane. |
| DataScheduler.NhcGrownTrans | server/services/data-scheduler.ts:30-34 | Growth of the NHC snapshots composes: up to n and then up to m appended snapshots make up to n + m. |
| DataScheduler.ConesStep | server/services/data-scheduler.ts:31 | A settled cone fetch appends at most one snapshot and touches nothing else. |
| DataScheduler.TracksStep | server/services/data-scheduler.ts:32 | A settled track fetch appends at most one snapshot and touches nothing else. |
| DataScheduler.WarningsStep | server/services/data-scheduler.ts:33 | A settled warnings fetch appends at most one snapshot and touches nothing else. |
| DataScheduler.NhcSweep | server/services/data-scheduler.ts:30-34 | The NHC stage appends at most three snapshots, keeps the earlier ones and touches nothing else. |
| DataScheduler.WeatherGrownTrans | server/services/data-scheduler.ts:40-44 | Weather growth composes layer list by layer list. |
| DataScheduler.GfsStep | server/services/data-scheduler.ts:41-43 | A GFS fetch in a sweep appends exactly one weather record of its layer and nothing else. |
| DataScheduler.GfsFold | server/services/data-scheduler.ts:40-44 | Fetching a list of GFS layers appends one record per layer, in list order. |
| DataScheduler.GfsSweep | server/services/data-scheduler.ts:40-44 | The GFS stage appends exactly one temperature, one pressure and one wind record, in that order. |
| DataScheduler.CmemsStep | server/services/data-scheduler.ts:48-49 | A CMEMS fetch in a sweep appends exactly one ocean record of its product and nothing else. |
| DataScheduler.CmemsSweep | server/services/data-scheduler.ts:47-50 | The CMEMS stage appends exactly one currents and one waves record, in that order. |
| DataScheduler.RasterSweep | server/services/data-scheduler.ts:39-50 | The raster stages append one record per GFS and CMEMS layer, in sweep order, and change nothing else. |
| DataScheduler.SweptParts | server/services/data-scheduler.ts:25-56 | The stages compose to a sweep: NHC growth, an import that touches only hurricanes, and the raster growth. |
| DataScheduler.FetchAllData | server/services/data-scheduler.ts:25-56 | A sweep never fails, keeps the store invariant and appends at most three NHC snapshots. It appends exactly one record per raster layer in order and leaves the forecasts alone. |
| DataScheduler.FetchAllDataKeeps | server/services/data-scheduler.ts:25-56 | A sweep never removes a hurricane. |
| KmlParser.TcBlock | server/services/kml-parser.ts:14-17 | There is a block exactly when some `<ExtendedData` opening tag mentions `tc` before its first `>` and a closing tag follows it. The block is the text after the leftmost such opening tag, up to the nearest closing tag after it. |
| KmlParser.TcBlockFrom | server/services/kml-parser.ts:14 | The same, for matches starting at an offset or later: none exactly when no `tc` opening tag from there on has a closing tag after it; else the leftmost one's text up to the nearest closing tag. |
| KmlParser.FoundMatch | server/services/kml-parser.ts:14 | When the first opening tag mentions `tc` and a closing tag follows, that opening starts the leftmost match, and the nearest closing tag ends it. |
| KmlParser.NotTcOpening | server/services/kml-parser.ts:14 | An opening tag that does not mention `tc` before its first `>` starts no match, so the search may resume past it. |
| KmlParser.NoMatchBeyond | server/services/kml-parser.ts:14 | When the first opening tag has no `>` after it, or no closing tag follows its `>`, nothing matches from there on. |
| KmlParser.ExtractValue | server/services/kml-parser.ts:57-60 | None iff no opening tag of the field is followed by its closing tag. Otherwise the value is the trimmed text between the first opening tag and the nearest closing tag after it. |
| KmlParser.Field | server/services/kml-parser.ts:14-28 | A field read from a folder: nothing without a tc block; otherwise nothing iff the block has no opening tag of the field followed by its closing tag, else the trimmed text of the first such pair. |
| KmlParser.ParseFolder | server/services/kml-parser.ts:14-51 | A folder without a tc block yields nothing. A storm it yields is active, categorised by its wind, has a non-zero latitude and longitude, and is due six hours after the clock. |
| KmlParser.NoPair | server/services/kml-parser.ts:58 | When the first opening tag has no closing tag after it, no opening tag has one. |
| KmlParser.IntField | server/services/kml-parser.ts:34-36 | `parseInt(v?.replace(/[^\d]/g, '') \|\| '0')`: a missing field reads as 0, otherwise the value of its digits in order. |
| KmlParser.IntFieldReadsNumber | server/services/kml-parser.ts:34-36 | A number written between digit-free text (`"105 mph"`) reads back as itself. |
| KmlParser.FloatField | server/services/kml-parser.ts:22-23 | A missing or empty coordinate reads as 0 without parsing; otherwise it is what `parseFloat` makes of it. |
| KmlParser.TypePrefix | server/services/kml-parser.ts:32 | "HU" gives "Hurricane", "TS" gives "Tropical Storm", and any other or missing type gives "Tropical Depression", in both directions. |
| KmlParser.DisplayName | server/services/kml-parser.ts:32 | The display name is the type prefix, a space and the storm name, and the storm name can be read back from its end. |
| KmlParser.CategorizeByWind | server/services/kml-parser.ts:62-70 | The category of a wind is its Saffir-Simpson band name. |
| KmlParser.ParseFolderSpec | server/services/kml-parser.ts:10-51 | A folder yields no storm iff it has no tc block, its name is falsy, or its latitude or longitude is falsy. Otherwise the storm is active, named by type and name, and carries the wind and pressure digits read as integers, categorised by that wind. |
| KmlParser.CollectMembers | server/services/kml-parser.ts:10-52 | The loop keeps exactly the records its body produces: an item is collected iff some element produces it. |
| KmlParser.CollectAppend | server/services/kml-parser.ts:10-52 | The loop appends in input order: collecting a concatenation concatenates the collections. |
| KmlParser.ParseNhcActiveData | server/services/kml-parser.ts:3-55 | At most one storm per folder, each active and categorised by its own wind. |
| KmlParser.ParseAppend | server/services/kml-parser.ts:10-52 | Storms come out in document order: parsing a concatenation of folders concatenates the results. |
| KmlParser.ParseMembers | server/services/kml-parser.ts:10-52 | A storm is in the result iff some folder yields it. |
| NhcService.FirstSuccess | server/services/nhc-service.ts:19-50 | The first endpoint from a position whose fetch succeeds, with its body; none iff every one fails. |
| NhcService.FetchStormCones | server/services/nhc-service.ts:11-53 | Fails iff every cone endpoint fails, and then with the fixed error and nothing stored. Otherwise the first answering endpoint's body is stored once as a cones snapshot and returned. |
| NhcService.ConesStopAtFirstSuccess | server/services/nhc-service.ts:19-50 | Endpoints after the first success are never consulted. |
| NhcService.SameFirstSuccess | server/services/nhc-service.ts:19-50 | Two networks that agree up to the first success pick the same endpoint and body. |
| NhcService.FetchOne | server/services/nhc-service.ts:55-79 | A single-endpoint fetch fails iff the endpoint fails, with nothing stored. On success its body is stored once under its kind and returned. |
| NhcService.FetchStormTracks | server/services/nhc-service.ts:55-79 | As above for the track endpoint and the `tracks` kind. |
| NhcService.FetchWarnings | server/services/nhc-service.ts:81-105 | As above for the warnings endpoint and the `warnings` kind. |
| NhcService.FetchKmlData | server/services/nhc-service.ts:107-120 | Succeeds iff the feed answers, with its text; it writes nothing. |
| GfsService.TilerBase | server/services/gfs-service.ts:6 | The `TITILER_URL` setting unless it is unset or empty, else the local default. |
| GfsService.FormatGfsDate | server/services/gfs-service.ts:43-45 | For years 0 to 9999, the eight digits `YYYYMMDD` of the UTC date. Beyond that range the six-digit signed year crowds out the day: a `+` is kept and a `-` is dropped as a dash. |
| GfsService.FormatGfsDateSpec | server/services/gfs-service.ts:44 | The same, stated on a calendar date and its ISO rendering. |
| GfsService.FourDigitYear | server/services/gfs-service.ts:44 | `YYYY-MM-DD`, cut to ten characters and stripped of dashes, is `YYYYMMDD`. |
| GfsService.SignedYear | server/services/gfs-service.ts:44 | `±YYYYYY-MM-DD`, cut to ten characters and stripped of dashes, is the year and month with only a `+` kept. |
| GfsService.DateStringNamesDay | server/services/gfs-service.ts:43-45 | Reading the date string of an instant back gives that instant's UTC date. |
| GfsService.GetGfsHour | server/services/gfs-service.ts:47-50 | The model cycle is "00", "06", "12" or "18", the latest at or before the UTC hour. |
| GfsService.CycleText | server/services/gfs-service.ts:49 | Each cycle hour pads to its two-digit text. |
| GfsService.TileUrl | server/services/gfs-service.ts:19 | The tile template starts with the tiler path, and its query value decodes back to the COG URL. |
| GfsService.GribUrl | server/services/gfs-service.ts:15 | The GRIB URL carries the date right after the bucket's `gfs.` prefix and the cycle hour right after it, and names the analysis file (`f000`). |
| GfsService.GribUrlInjective | server/services/gfs-service.ts:15 | Dates and cycle hours of fixed widths name distinct files: two GRIB URLs agree exactly when their dates and hours do. |
| GfsService.CogUrl | server/services/gfs-service.ts:52-61 | The COG URL is the tiler's `/sample-<layer>.tif`: the layer is read back between the prefix and the suffix. |
| GfsService.CogUrlInjective | server/services/gfs-service.ts:52-61 | On one tiler, two layers never share a COG URL. |
| GfsService.FetchGfsData | server/services/gfs-service.ts:8-41 | Appends and returns exactly one weather record of the layer, stamped with the requested instant (the clock when none is given), covering the globe. The record points at the cycle's GRIB file, the layer's COG and the tile template, and nothing else changes. |
| GfsService.FetchTemperature | server/services/gfs-service.ts:63-65 | One temperature record appended and returned, stamped as requested. |
| GfsService.FetchPressure | server/services/gfs-service.ts:67-69 | One pressure record appended and returned, stamped as requested. |
| GfsService.FetchWind | server/services/gfs-service.ts:71-73 | One wind record appended and returned, stamped as requested. |
| CmemsService.BoundsOr | server/services/cmems-service.ts:19 | Any given bounds array is kept, even an empty one; only a missing one becomes the globe. |
| CmemsService.FetchProduct | server/services/cmems-service.ts:9-65 | Appends and returns exactly one ocean record of the product, stamped as requested. It carries the product's dataset URL and metadata and no COG or tile URL; nothing else changes. |
| CmemsService.FetchCurrents | server/services/cmems-service.ts:9-36 | One currents record appended, pointing at the physics dataset. |
| CmemsService.FetchWaves | server/services/cmems-service.ts:38-65 | One waves record appended, pointing at the waves dataset. |
| CmemsService.ReadCredentials | server/services/cmems-service.ts:5-6 | Each credential is its environment setting, or empty when unset. |
| CmemsService.Authenticate | server/services/cmems-service.ts:67-71 | Authenticated iff both the user name and the password are non-empty. |
| Routes.ListHurricanes | server/routes.ts:19-26 | The JSON list of the active hurricanes, none missing when the table invariant holds. |
| Routes.GetHurricane | server/routes.ts:28-38 | The stored hurricane iff the key is stored, else 404 "Hurricane not found". |
| Routes.GetNhcLayer | server/routes.ts:41-82 | The latest snapshot of the layer is served as it is. Without one, one fetch is made: its body is served and stored, or a failed fetch gives a 500 with the layer's message and leaves the store unchanged. |
| Routes.FetchLayer | server/routes.ts:46-74 | The fetch a layer route falls back on: a failure leaves the store unchanged; a success stores exactly one snapshot of that layer holding the served body. |
| Routes.FreshIsFetched | server/routes.ts:46-48 | When no snapshot of a kind existed, the latest one after a fetch is the fetched one. |
| Routes.GetWeather | server/routes.ts:85-108 | The latest record of the layer. Without one, a GFS layer is fetched and the new record served; an unknown layer is served as empty and nothing is stored. |
| Routes.FreshWeather | server/routes.ts:100-101 | With no earlier record of the layer, the latest one after a fetch is the new one. |
| Routes.GetOcean | server/routes.ts:111-131 | As for weather, with the two CMEMS layers. |
| Routes.FreshOcean | server/routes.ts:123-124 | With no earlier record of the product, the latest one after a fetch is the new one. |
| Routes.Refresh | server/routes.ts:134-141 | Succeeds with the fixed message iff the hurricane refresh does, else 500; the store is the refresh's in both cases. |
| Routes.Status | server/routes.ts:144-184 | The active count and the stamps of the latest cones, pressure and currents records. The fixed demo-mode states, with CMEMS read as configured iff a user name is set. |
| Routes.StatusIgnoresPassword | server/routes.ts:164 | With a user name and no password, the status reports CMEMS configured while the adapter's own check refuses the credentials. |
| AiPrediction.Normalise | server/services/ai-prediction-service.ts:83-105 | Missing arrays become empty and present ones pass unchanged. Falsy confidences (0 included) become 0.7, a falsy probability becomes 0 and a falsy analysis gets the fixed text. The forecast is stamped with the clock. |
| AiPrediction.NormaliseSpell | server/services/ai-prediction-service.ts:83-105 | A reply that spells out a forecast without default-looking values normalises back to that forecast. |
| AiPrediction.ZeroConfidenceIsDefault | server/services/ai-prediction-service.ts:103 | An explicit zero confidence is indistinguishable from a missing one. |
| AiPrediction.GenerateHurricanePrediction | server/services/ai-prediction-service.ts:50-110 | A failed call or unparsable reply gives the fixed error and no partial forecast; a parsed reply is normalised. |
| AiPrediction.AnalyzeIntensification | server/services/ai-prediction-service.ts:180-223 | Any failure gives the fixed technical-error verdict. Otherwise each falsy member takes its default; the verdict never has an empty or zero member. |
| AiPrediction.FailureIsRecognisable | server/services/ai-prediction-service.ts:209-221 | A parsed reply never equals the failure verdict unless the oracle wrote the failure reasoning itself. |
| AiPrediction.BuildWeatherContext | server/services/ai-prediction-service.ts:166-175 | The context does not depend on any data: fixed Atlantic-season values. |
| Layers.Toggle | client/src/pages/hurricane-tracker.tsx:58-63 | The key reads as the negation of what it read (a missing key becomes on), and every other key is kept. |
| Layers.ToggleTwice | client/src/pages/hurricane-tracker.tsx:58-63 | Toggling twice reads back every switch as before. The map itself comes back, unless the key was missing, in which case it now holds false. |
| Layers.ActiveCount | client/src/components/overlay-controls.tsx:79-81 | The number of switches that are on: at most the number of keys, and 0 iff none is on. |
| Layers.ToggleCount | client/src/components/overlay-controls.tsx:79-81 | A toggle moves the active count by exactly one, in the direction of the switch. |
| Layers.ToggleEach | client/src/components/overlay-controls.tsx:72-76 | Toggling each listed id in turn flips every listed switch (ids distinct) and keeps the others. |
| Layers.ToggleAll | client/src/components/overlay-controls.tsx:67-77 | As written: the flag flips, but every listed layer is flipped instead of set to the flag. |
| Layers.ToggleAllTwice | client/src/components/overlay-controls.tsx:67-77 | Two presses restore the flag and every switch reading. |
| Layers.ToggleAllDisagrees | client/src/components/overlay-controls.tsx:67-77 | With the flag set and some listed layer off, a press clears the flag yet turns that layer on. |
| Layers.InitialDisagrees | client/src/pages/hurricane-tracker.tsx:20-29 | The page's first state meets that condition: warnings off and cones on while the flag is set. |
| Layers.ShowAll | client/src/components/overlay-controls.tsx:67-77 | As intended: the flag flips and every listed layer reads as the new flag; other switches are kept. |
| Layers.ShowAllTwice | client/src/components/overlay-controls.tsx:67-77 | Two intended presses restore the flag and leave every listed layer matching it. |
| Layers.Guarded | client/src/components/overlay-controls.tsx:180-199 | The guarded loop reads the switches as they were when the button was pressed. It flips each listed switch that differed from the target there and keeps the rest. |
| Layers.SetEach | client/src/components/overlay-controls.tsx:180-199 | Afterwards each listed switch reads the target, a switch already at the target is untouched, and unlisted switches are kept. |
| Layers.CleanView | client/src/components/overlay-controls.tsx:180-185 | Every raster layer reads off; layers already off and every other switch are untouched. |
| Layers.CleanViewIdempotent | client/src/components/overlay-controls.tsx:180-185 | Cleaning a clean view changes nothing. |
| Layers.SetEachIdempotent | client/src/components/overlay-controls.tsx:180-199 | Setting the same switches to the same value twice is setting them once. |
| Layers.Essentials | client/src/components/overlay-controls.tsx:194-199 | Cones and AI predictions read on; every other switch is kept, so nothing is hidden. |
| Layers.ToggleOverlays | client/src/components/mobile-layer-toggle.tsx:17-44 | The flag flips and each of the six overlays reads as the new flag; other switches are kept. |
| Layers.CountOn | client/src/components/mobile-layer-toggle.tsx:55 | How many listed switches are on: all of them when all are on, none when all are off. |
| Layers.OverlayCount | client/src/components/mobile-layer-toggle.tsx:46-56 | The overlay badge counts at most six. |
| Layers.ToggleOverlaysCount | client/src/components/mobile-layer-toggle.tsx:17-56 | After the mobile toggle the badge reads six or none, matching the flag. |
| TimeControls.Clamp | client/src/components/time-controls.tsx:23 | The step is kept inside 0..48, unchanged when already inside. |
| TimeControls.TimeOfStep | client/src/pages/hurricane-tracker.tsx:65-71 | A step sets the shown time that many three-hour steps after a day before the clock. |
| TimeControls.StepAsWritten | client/src/components/time-controls.tsx:19-24 | As written: inside the range, the step whose three-hour window holds the shown time, floored. |
| TimeControls.FloorSteps | client/src/components/time-controls.tsx:22-23 | Flooring to hours and then to steps is flooring to steps. |
| TimeControls.StepAsWrittenSameInstant | client/src/components/time-controls.tsx:19-24 | Read back at the very instant it was set, a step is itself. |
| TimeControls.StepAsWrittenLags | client/src/components/time-controls.tsx:19-24 | Read back at any later instant within three hours, a positive step reads as one less. |
| TimeControls.NextAsWritten | client/src/components/time-controls.tsx:33-38 | "Next" moves one step up from the step read, and does nothing at the last step. |
| TimeControls.PreviousAsWritten | client/src/components/time-controls.tsx:26-31 | "Previous" moves one step down from the step read, and does nothing at step 0. |
| TimeControls.NextStuck | client/src/components/time-controls.tsx:19-38 | After "next" sets a step, "next" pressed any moment later sets the same step again, and "previous" lands two steps down. |
| TimeControls.NextStuckFromOpening | client/src/components/time-controls.tsx:19-38 | From the page's first state, where the shown time is the clock (step 8), the first "next" within three hours sets step 8, and a second "next" within three hours of it sets 8 again: "next" never advances. |
| TimeControls.Step | client/src/components/time-controls.tsx:19-24 | Corrected: inside the range, the step nearest the shown time. |
| TimeControls.StepRoundTrip | client/src/components/time-controls.tsx:19-24 | Corrected: a step read back within an hour and a half of being set is itself. |
| TimeControls.Next | client/src/components/time-controls.tsx:33-38 | "Next" over the corrected step. |
| TimeControls.Previous | client/src/components/time-controls.tsx:26-31 | "Previous" over the corrected step. |
| TimeControls.NextPreviousMoveOne | client/src/components/time-controls.tsx:26-38 | With the corrected step, "next" and "previous" move exactly one step, stop at the ends, and undo each other. |
| TimeControls.Tick | client/src/pages/hurricane-tracker.tsx:49 | A playback tick advances the shown time by three hours. |
| TimeControls.TickAdvancesStep | client/src/pages/hurricane-tracker.tsx:47-50 | At a fixed clock a tick moves the slider exactly one step, under both readings. |
| TimeControls.PlayPause | client/src/pages/hurricane-tracker.tsx:73-75 | The play button flips the playing state. |
| TimeControls.ForecastOffset | client/src/components/time-controls.tsx:52-61 | An hour or more ahead is "+Nh forecast" with N whole hours floored. More than three hours behind is "Nh ago". Anything between is "Current". |
| TimeControls.HourBounds | client/src/components/time-controls.tsx:54-57 | The floored hour count crosses 0 and -3 exactly at one hour ahead and three hours behind. |
| ControlPanel.Shade | client/src/components/control-panel.tsx:20-34 | The position of a colour on the weak-to-strong scale. |
| ControlPanel.CategoryColor | client/src/components/control-panel.tsx:20-26 | Every category text gets one of the five colours. |
| ControlPanel.CategoryColorOfBand | client/src/components/control-panel.tsx:20-26 | Each Saffir-Simpson name gets its band's colour: Categories 4 and 5 share the strongest, as do 2 and 3. |
| ControlPanel.HurricaneBand | client/src/components/control-panel.tsx:21-23 | The five hurricane names get their band's colour. |
| ControlPanel.TropicalColor | client/src/components/control-panel.tsx:24-25 | A name without a capital C matches no "Category" pattern, so only the tropical-storm test can colour it. |
| ControlPanel.OwnDigit | client/src/components/control-panel.tsx:21-23 | A hurricane name contains its own "Category d" pattern. |
| ControlPanel.OtherDigit | client/src/components/control-panel.tsx:21-23 | A hurricane name contains no other digit's pattern. |
| ControlPanel.HurricaneColor | client/src/components/control-panel.tsx:21-23 | The colour of each hurricane category name. |
| ControlPanel.WindSpeedColor | client/src/components/control-panel.tsx:28-34 | The wind colour is the colour of the category the scheduler gives that wind. |
| ControlPanel.WindSpeedColorMonotone | client/src/components/control-panel.tsx:28-34 | More wind never gets a weaker colour. |
| ControlPanel.WindShade | client/src/components/control-panel.tsx:28-34 | The shade of a wind, read off the thresholds 130, 96, 74 and 39 mph. |
| ControlPanel.StormList | client/src/components/control-panel.tsx:45-61 | The badge counts the storms handed in. The list shows loading iff loading, the empty message iff loading is over with no storm, and otherwise the storms. |
| PredictionPanel.ConfidenceColor | client/src/components/ai-prediction-panel.tsx:85-89 | Every confidence gets green, yellow or red. |
| PredictionPanel.ConfidenceColorMonotone | client/src/components/ai-prediction-panel.tsx:85-89 | A higher confidence never gets a lower colour. |
| PredictionPanel.RiskVariant | client/src/components/ai-prediction-panel.tsx:91-95 | Every probability gets one of the three badge variants. |
| PredictionPanel.RiskLabel | client/src/components/ai-prediction-panel.tsx:156-157 | Every probability gets one of the three labels. |
| PredictionPanel.LabelMatchesVariant | client/src/components/ai-prediction-panel.tsx:91-95 | The label and the badge variant always agree, in both directions. |
| PredictionPanel.ShownRisk | client/src/components/ai-prediction-panel.tsx:149-157 | The probability the card reads, 0 when none is stored. |
| PredictionPanel.StoredZeroShowsLow | client/src/components/ai-prediction-panel.tsx:149-157 | A forecast created with a zero or missing probability is stored without one and shows 0 and "Low". |
| PredictionPanel.TrackPointsOfReply | client/src/components/ai-prediction-panel.tsx:163 | For a normalised forecast, the shown point count is the reply's coordinate count, or 0 without one. |
| PredictionPanel.TrackPoints | client/src/components/ai-prediction-panel.tsx:163 | The shown count is 0 exactly when the forecast path has no points. |
| PredictionPanel.LandfallView | client/src/components/ai-prediction-panel.tsx:179-198 | The landfall block shows iff the location is non-empty; its time line shows iff the time is non-empty too. |
| PredictionPanel.StoredLandfallView | client/src/components/ai-prediction-panel.tsx:179-198 | For a stored forecast, the block shows iff a non-empty location was handed to the store. |
| Attribution.StatusColor | client/src/components/data-attribution.tsx:22-31 | Gray iff there is no stamp. Otherwise green under an hour old, yellow under three hours, red from three hours on. |
| Attribution.StatusColorMonotone | client/src/components/data-attribution.tsx:22-31 | An older update never gets a fresher colour, and a future stamp is green. |
| Attribution.UpdateTimeText | client/src/components/data-attribution.tsx:12-20 | "Loading..." without a stamp, otherwise the locale rendering. |
| Attribution.StatusText | client/src/components/data-attribution.tsx:58 | The server's status when truthy, else "Initializing...". |
| Attribution.FooterBeforeFirstCones | client/src/components/data-attribution.tsx:39-58 | Before any cone snapshot is stored, the hurricane line is gray "Loading..." and the status line shows the demo status. |
| Fixtures.ErinSlug | server/services/mock-data.ts:7 | The demo storm is stored under the key "hurricane-erin". |
| Fixtures.SlugOfTwoWords | server/storage.ts:63 | Two space-free words joined by one space collapse to the words joined by a dash. |
| Fixtures.ErinCategory | server/services/mock-data.ts:8-13 | The demo wind of 130 mph gives the reported "Category 4 Hurricane", drawn in the strongest colour. |
| Text.DropSpaces | server/services/kml-parser.ts:59 | Removes exactly the leading whitespace run. |
| Text.CollapseSpaces | server/storage.ts:63 | Collapsing whitespace runs never lengthens the text, and gives empty text only for empty text. |
| Text.CollapseSpacesChars | server/storage.ts:63 | A collapsed string holds no whitespace, only dashes and characters of the input. |
| Text.CollapseNoSpace | server/storage.ts:63 | Text without whitespace is left as it is. |
| Text.CollapseWordRun | server/storage.ts:63 | A whitespace run between a word and more text becomes exactly one dash. |
| Text.CollapseWordPrefix | server/storage.ts:63 | Text without whitespace passes through unchanged in front of whatever follows it. |
| Text.DropRun | server/services/kml-parser.ts:59 | Dropping leading whitespace removes exactly the whitespace run. |
| Text.SlugIdempotent | server/storage.ts:63 | A slug is its own slug: hurricane keys are stable under re-slugging. |
| Text.Slug | server/storage.ts:63 | A hurricane key is no longer than the name and is empty only for an empty name. |
| Text.SlugIsKey | server/storage.ts:63 | A hurricane key holds no whitespace and no capital letter. |
| Text.ToLower | server/storage.ts:63 | Lower-casing keeps the length, leaves no capital letter, and changes only capitals, each to its small letter. |
| Text.ToLowerIdempotent | server/storage.ts:63 | Lower-casing twice is lower-casing once. |
| Text.TrimEnd | server/services/kml-parser.ts:59 | Removes exactly the trailing whitespace run. |
| Text.Trim | server/services/kml-parser.ts:59 | `trim()`: the slice of the input left once both whitespace runs are removed. |
| Text.TrimSlice | server/services/kml-parser.ts:59 | Trimming the front and then the back leaves a slice with only whitespace around it. |
| Text.Digits | server/services/kml-parser.ts:34-36 | The digits of a string, in order. |
| Text.DigitsAppend | server/services/kml-parser.ts:34-36 | Filtering digits distributes over concatenation. |
| Text.DigitsOfDigits | server/services/kml-parser.ts:34-36 | Filtering the digits of a digit string changes nothing. |
| Text.NatToString | server/services/gfs-service.ts:49 | A number's decimal text: digits only, with no leading zero. |
| Text.DecimalRoundTrip | server/services/gfs-service.ts:49 | Reading back a rendered number gives the number. |
| Text.NatToStringLength | server/services/gfs-service.ts:49 | A number below 10^w renders in at most w digits. |
| Text.PadZeros | server/services/gfs-service.ts:49 | `padStart(w, '0')`: zeros are prepended up to width w. |
| Text.ZeroPad | server/services/gfs-service.ts:49 | A padded number reads back as the number, has at least width w, and exactly w when the number fits. |
| Text.LeadingZeros | server/services/gfs-service.ts:49 | Leading zeros do not change a decimal value. |
| Text.IndexOf | server/services/kml-parser.ts:58 | The first occurrence of a pattern at or after an offset, or none when there is none. |
| Text.NotContainsByChar | client/src/components/control-panel.tsx:21-24 | A pattern holding a character the text lacks cannot occur in it. |
| Uri.Encode | server/services/gfs-service.ts:19 | `encodeURIComponent` writes only unreserved characters, `%` and hex digits, so it never splits a query value. |
| Uri.Utf8Shape | server/services/gfs-service.ts:19 | The UTF-8 form of a non-ASCII character: a lead byte announcing the length, then continuation bytes, spelling the value in the shortest form. |
| Uri.DecodeEncode | server/services/gfs-service.ts:19 | Decoding an encoded string gives the string back. |
| Uri.DecodeOneEncoded | server/services/gfs-service.ts:19 | The first character of an encoding is read back from it, whatever follows. |
| Uri.PercentBytes | server/services/gfs-service.ts:19 | Percent-written bytes are read back, whatever follows them. |
| Calendar.DaysBeforeMonotone | server/services/gfs-service.ts:44 | The months of a year follow each other without overlap. |
| Calendar.YearStep | server/services/gfs-service.ts:44 | Each year starts where the previous one ends. |
| Calendar.MonthOf | server/services/gfs-service.ts:44 | A day offset within a year becomes a valid date of that year at that offset. |
| Calendar.CivilFrom | server/services/gfs-service.ts:44 | A day offset from a year's start becomes the valid date with that day number. |
| Calendar.DateOf | server/services/gfs-service.ts:44 | Every day number is the day number of a valid date. |
| Calendar.DayNumberInjective | server/services/gfs-service.ts:44 | Different valid dates have different day numbers. |
| Calendar.DateOfDayNumber | server/services/gfs-service.ts:44 | Day numbers and valid dates convert back and forth without loss. |
| Calendar.UtcDate | server/services/gfs-service.ts:44 | The UTC date of a time value is the date of its floored day number, with a year of at most six digits. |
| Calendar.UtcHours | server/services/gfs-service.ts:48 | `getUTCHours()` is in 0..23 and is the hour of the day that holds the instant. |
| Calendar.IsoYear | server/services/gfs-service.ts:44 | The ISO year field: four digits for years 0 to 9999, otherwise a sign and six digits, reading back as the year. |
| Calendar.DropDashes | server/services/gfs-service.ts:44 | `replace(/-/g, '')` leaves no dash. |
| Calendar.DropDashesAppend | server/services/gfs-service.ts:44 | Dropping dashes distributes over concatenation. |

## Left out

- Timers: `start()` and the 30-minute `setInterval` of the scheduler are left out. A sweep is one call of `FetchAllData`.
- Concurrency: `Promise.allSettled` is modelled as running its fetches one after another. In the code the three NHC fetches run at once, so their records are appended in the order the responses arrive. The model appends them in the listed order, but the sweep's contract (`DataScheduler.Swept`) bounds only how many NHC records are appended, so it holds for any arrival order. The GFS and CMEMS fetches also run at once, but none of them waits on I/O before it stores, and the in-memory store appends as soon as it is called, so their records do follow the listed order.
- Logging: `console` output is not modelled.
- Error text: the HTTP status inside an error message is not modelled; a failure is `Fail`.
- The clock: every `new Date()` and `Date.now()` within one operation reads one instant, passed as a parameter. Timestamps are integers in epoch milliseconds, not `Date` objects or ISO strings.
- Random ids: `randomUUID()` is modelled as a counter in the store. Ids are therefore fresh, but they are numbers, not UUID strings.
- Invalid dates: `Invalid Date`, `NaN` and floating-point rounding are not modelled. JSON numbers are Dafny reals.
- Feature geometry: a feature's `coordinates` are one flat list of numbers, the shape of a GeoJSON Point. The cone features are polygons, whose coordinates are nested rings; for those, `coordinates?.[0]` and `coordinates?.[1]` in the code are arrays, not numbers, and that case is not modelled.
- `SYNOPTIC` is held as the instant it denotes, in milliseconds, or as missing. An empty string is modelled as missing, which it is for `||`; a string that does not parse as a date is not modelled.
- Daylight saving: the local-time shift of `setHours` on the tracker page is not modelled.
- `null` and `undefined`: they are merged into one absent value, except for the `isActive` input, which keeps all three states.
- Locale formatting: `toLocaleTimeString` and `toLocaleDateString` are not modelled. The rendering is a parameter of `Attribution.UpdateTimeText`.
- The `Math.round` percentages on the forecast card are not modelled.
- `KmlParser.ParseNhcActiveData` takes the feed already split into `<Folder>` bodies. The folder regular expression and `parseDateTime` (a parameter) are not modelled.
- Whitespace: only ASCII whitespace counts as whitespace for `trim` and `\s`. Case folding covers ASCII letters only. Strings hold Unicode scalar values, so lone UTF-16 surrogates are not modelled.
- Prompt texts: the prompts sent to the AI model are not modelled, and neither is the model itself. Its reply is a parameter: a parsed object, or `Fail` when the call fails or the reply does not parse.
- Rendering: the map rendering, the React hooks and queries, the storm details modal and the data source status card are left out. The client logic they call is modelled.
- The AI forecast aliases `createAIPrediction` and `getAIPredictions` are not modelled separately. They forward to `createHurricanePrediction` and `getHurricanePredictions` with the same argument.
- `deleteHurricane` does not exist in the source. The loop over existing hurricanes in the live import has an empty body and is omitted.
- Storage.GetActiveHurricanes: completeness (every active hurricane is listed) holds only when the table invariant holds. An arbitrary table value may list keys out of step with the map.
- Storage.UpdateHurricane: like the spread in the source, a patch may overwrite the `id` field while the record stays under its old key.
- Storage.GetLatestWeatherData: when two records of a kind have equal timestamps, the earliest inserted wins. This follows the code's stable descending sort. The same holds for the other "latest" queries.
- Routes.Status: CMEMS counts as configured on the user name alone, as the code does, even though the adapter's own check needs both credentials. See `Routes.StatusIgnoresPassword`.

## Findings

| source | as written | input that shows it | evidently intended | confidence | as-written member | corrected member |
|---|---|---|---|---|---|---|
| client/src/components/time-controls.tsx:19-38 | `getCurrentTimeStep` floors the time since a day ago, measured against a fresh clock reading. A step set at clock t then reads back one less at any later clock within three hours. | Open the page (shown time = clock, step 8) and press "next" a millisecond later: the slider reads step 7, so "next" sets 8. Every later "next" within three hours reads 7 again and sets 8 again, so "next" never advances; "previous" from a set step 9 lands on 7. | The step nearest the shown time, so "next" and "previous" move exactly one step and undo each other. | not executed | TimeControls.NextStuck, TimeControls.NextStuckFromOpening | TimeControls.NextPreviousMoveOne |
| client/src/components/overlay-controls.tsx:67-77 | "Toggle all" negates its flag but calls the toggle callback on every layer, flipping each switch instead of setting it to the flag. | The page's first state: flag set, warnings off, cones on. One press clears the flag, turns warnings on and cones off. | Every listed layer set to the new flag. | not executed | Layers.ToggleAllDisagrees | Layers.ShowAllTwice |
