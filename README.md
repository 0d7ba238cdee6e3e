# volcanoes — a Dafny model of the catalogue and the GVP cache manager

This project models the core of the `volcanoes` Python package in Dafny and proves properties of it.
The package reads the Smithsonian Global Volcanism Program (GVP) catalogue and queries it. It also
downloads GVP datasets through the WFS web service, keeps them in a cache directory, and exports them.

The model covers:

- **Records.** `Volcano` (`volcanoes/core/volcano.py`) and `Eruption` (`volcanoes/core/eruption.py`)
  are field maps that `_process_data` cleans when a record is built:
  - an `unnamed` volcano is renamed `Unnamed-<number>`;
  - numeric fields are converted with `int()`/`float()`;
  - a failed conversion becomes `None`;
  - an empty string is left in place.

  The accessors, `get_elevation`, `origin` and `distance_to` read the map.
- **Collections.** `VolcanoSet` (`volcanoes/core/volcano_set.py` and the legacy copy
  `core/volcano_set.py`) and `EruptionSet` (`volcanoes/core/eruption_set.py`) provide:
  - `len`, indexing and slicing, with a step;
  - the text, elevation and distance filters, and the stable sort by distance;
  - the coordinate lists;
  - `get_volcano_numbers` (`sorted(set(...))`);
  - `summary_stats`.
- **The catalogue facade `GVP`** (`volcanoes/core/gvp.py`):
  - loading the CSV row by row, where a row whose record fails to build is skipped;
  - `filter_volcanoes`, with its order of steps: text filters, id, elevation loop, radius, then sort;
  - `get_volcano_by_id`, `get_countries`, `get_volcano_types` and `stats`.
- **The cache manager `GVPDownloader`** (`volcanoes/core/gvp_downloader.py`):
  - cache and sidecar paths, and the WFS download URL;
  - the repair of `(< ` into `(&lt; `;
  - `download`, with its cache-hit rule, its sidecar metadata and its failure modes;
  - `export_to_csv`, `export_to_geojson` and the CSV-to-GeoJSON conversion;
  - `get_cache_info` and `clear_cache`.

  The cache directory is a map from path to bytes held in a field of the `GVPDownloader` class. A
  ghost counter records the requests sent.
- **The zoom table** of `volcanoes/utils/plotting.py`: `get_zoom_level_basic` and the clamp branches of
  `get_zoom_level_interpolated`.

Python exceptions are `Result` errors. Some come from the data:

- A numeric field left as `''` is a string. Comparing it or doing arithmetic on it is a `TypeError`.
- A text field holding `None` has no `.lower()`, which is an `AttributeError`.

Some things are parameters of the operations that use them:

- Python's `int()`, `float()` and `str()` on floats are a `NumberSyntax`.
- The haversine distance is a `DistanceFn`.
- The HTTP response is an `Option<Bytes>` (`None` for a failed request).
- `datetime.now()` is an `Instant`.
- `csv.DictReader` is a reader from bytes to rows.
- `json.dump`/`json.load` are a `Codec`. `RoundTrips(codec, j)` says that loading what was dumped for the
  document `j` gives `j` back.

## Model

| member | source | states |
|---|---|---|
| Volcanoes.NumericFieldsDistinct | volcanoes/core/volcano.py:20 | the five numeric fields are distinct and none is the name |
| Volcanoes.Renamed | volcanoes/core/volcano.py:15-17 | a name that strips and lower-cases to `unnamed` becomes `Unnamed-<VolcanoNumber>`, and any other name is kept. A non-string name raises AttributeError; renaming without a `VolcanoNumber` raises KeyError |
| Volcanoes.RenamedNameIsNamed | volcanoes/core/volcano.py:16-17 | a generated `Unnamed-…` name never reads as `unnamed` again |
| Volcanoes.RenamedOnlyName | volcanoes/core/volcano.py:16-17 | the rename keeps every key and every field other than the name |
| Volcanoes.Processed | volcanoes/core/volcano.py:13-29 | processing fails exactly when the rename fails, with the rename's error |
| Volcanoes.ProcessedFields | volcanoes/core/volcano.py:19-29 | no key is added or removed. Fields outside the numeric list keep their values. A present numeric field that is not `''` becomes its `int`/`float` or `None`, and `''` stays `''` |
| Volcanoes.CoercedAfterRename | volcanoes/core/volcano.py:15-29 | converting after a name-only rename reads the numeric fields of the original map |
| Volcanoes.ProcessedIdempotent | volcanoes/core/volcano.py:13-29 | processing an already processed record changes nothing |
| Volcanoes.NewVolcano | volcanoes/core/volcano.py:8-11 | the constructor returns the record of the processed map, or the error `_process_data` raises |
| Volcanoes.Volcano.GetElevation | volcanoes/core/volcano.py:86-97 | `None` for a missing elevation. Units `m` give the stored value and `ft`/`feet` give it times 3.28084, both case-insensitive. Any other unit raises ValueError |
| Volcanoes.Volcano.Origin | volcanoes/core/volcano.py:109-112 | `(lat, lon, get_elevation())` |
| Volcanoes.Volcano.DistanceTo | volcanoes/core/volcano.py:160-165 | `+inf` when either coordinate is `None`; otherwise the distance function applied to the two points. The call raises TypeError exactly when both coordinates are present and one is not a number |
| Volcanoes.AccessorDefaults | volcanoes/core/volcano.py:31-152 | `id` is `volcano_number`. Numeric accessors default to `None` and text accessors to `''`. Present fields are read unchanged |
| Volcanoes.GetElevationCaseInsensitive | volcanoes/core/volcano.py:91-95 | the units argument is compared after `lower()` |
| Volcanoes.FeetFromMetres | volcanoes/core/volcano.py:91-94 | the feet elevation is the metre elevation times 3.28084 |
| Values.Truncate | volcanoes/core/volcano.py:24-25 | `int()` of a float truncates toward zero |
| Values.ToInt | volcanoes/core/volcano.py:24-29 | `int(v)` with ValueError and TypeError caught: an int or `None`. Ints are unchanged, a float is truncated toward zero, and a string is an int exactly when it parses, namely the parsed int |
| Values.ToFloat | volcanoes/core/volcano.py:26-29 | `float(v)` with ValueError and TypeError caught: a float or `None`. Ints widen, floats are unchanged, and a string is a float exactly when it parses, namely the parsed float |
| Values.Get | volcanoes/core/volcano.py:16 | `d.get(key, default)` |
| Values.LowerOf | volcanoes/core/volcano_set.py:34 | `.lower()` succeeds exactly on strings, and otherwise raises AttributeError |
| Values.Coerced | volcanoes/core/volcano.py:20-29 | the conversion loop keeps the keys and converts exactly the listed fields that are present and not `''` |
| Values.CoerceFields | volcanoes/core/volcano.py:21-29 | the loop overwriting entries one field at a time ends in `Coerced` |
| Values.CoercedShaped | volcanoes/core/volcano.py:21-29 | after conversion a listed field holds a value of its kind, `None`, or `''` |
| Values.CoercedIdempotent | volcanoes/core/volcano.py:21-29 | converting twice is converting once |
| Eruptions.NumericFieldsDistinct | volcanoes/core/eruption.py:19-20 | the eight numeric fields are distinct |
| Eruptions.NewEruption | volcanoes/core/eruption.py:10-13 | the constructor returns the record of the converted map; it never raises |
| Eruptions.ProcessedFields | volcanoes/core/eruption.py:15-29 | keys are kept, other fields unchanged, listed fields converted or left as `''`, and processing is idempotent |
| Eruptions.Eruption.GetField | volcanoes/core/eruption.py:46-48 | `get_field(name, default)` is the stored value or the default |
| Eruptions.Eruption.GetItem | volcanoes/core/eruption.py:50-52 | `eruption[key]` is `get_field(key)`, so an absent key gives `None` and does not raise |
| Eruptions.IdIsVolcanoNumber | volcanoes/core/eruption.py:31-44 | `id` is `volcano_number` is `eruption['VolcanoNumber']`, and both numbers default to `None` |
| Aggregates.Max | volcanoes/core/volcano_set.py:215 | `max` of a non-empty list is an element that bounds every element from above |
| Aggregates.Min | volcanoes/core/volcano_set.py:216 | `min` of a non-empty list is an element that bounds every element from below |
| Aggregates.MeanBetween | volcanoes/core/volcano_set.py:214 | the average lies between the minimum and the maximum |
| Aggregates.MeanBounds | volcanoes/core/volcano_set.py:214 | the average of numbers that lie within two bounds lies within them too |
| VolcanoSets.FilterText | volcanoes/core/volcano_set.py:32-40 | a text comprehension raises AttributeError exactly when some record's field is not a string, and otherwise keeps the records that pass, in order |
| VolcanoSets.KnownValues | volcanoes/core/volcano_set.py:61-68 | `[read(v) for v in vs if read(v) is not None]` holds no `None`, only values read from the records, and every known value |
| VolcanoSets.KnownValuesAppend | volcanoes/core/volcano_set.py:61-68 | the list keeps record order and multiplicity: it distributes over concatenation, and one record gives its value, or nothing when the value is `None` |
| VolcanoSets.AsNumber | volcanoes/core/volcano_set.py:214-216 | `sum`/`max`/`min` accept a value exactly when it is a number, and otherwise raise TypeError |
| VolcanoSets.ElevationNumbersSpec | volcanoes/core/volcano_set.py:206 | the known elevations convert exactly when none is `''`, and then they are the numbers of the known elevations |
| VolcanoSets.Summary | volcanoes/core/volcano_set.py:204-216 | `summary_stats` raises TypeError exactly when a known elevation is not a number (a `''` left by loading), and the total is the length |
| VolcanoSets.SummaryProperties | core/volcano_set.py:127-139 | the total equals `len`. The counts of countries and types are at most the total. Average, max and min are `None` exactly when no elevation is known, and otherwise the average lies between min and max, which bound every known elevation |
| VolcanoSets.ElevationRange | volcanoes/core/volcano_set.py:42-49 | raises TypeError exactly when an elevation is `''`; otherwise it keeps, in order, the records with a known elevation inside the inclusive bounds |
| VolcanoSets.VolcanoSet.At | volcanoes/core/volcano_set.py:17-21 | an int index succeeds exactly in `-len..len-1`, counting negatives from the end, and otherwise raises IndexError |
| VolcanoSets.VolcanoSet.Slice | volcanoes/core/volcano_set.py:17-20 | `s[start:stop:step]` is a new set holding exactly the list slice of the records, a zero step raises ValueError, without a step it is the contiguous run between the normalised bounds, and `[:]` is the whole set |
| VolcanoSets.VolcanoSet.FilterByCountry | volcanoes/core/volcano_set.py:32-35 | keeps, in order, the records whose lower-cased country equals the lower-cased argument; a non-string country raises AttributeError |
| VolcanoSets.VolcanoSet.FilterByType | volcanoes/core/volcano_set.py:37-40 | keeps, in order, the records whose lower-cased type contains the lower-cased argument; a non-string type raises AttributeError |
| VolcanoSets.VolcanoSet.FilterByElevationRange | volcanoes/core/volcano_set.py:42-49 | the appending loop returns exactly `ElevationRange` |
| VolcanoSets.VolcanoSet.SortByDistance | volcanoes/core/volcano_set.py:51-54 | raises exactly when some distance raises. Otherwise the result is a permutation, non-decreasing by distance, and stable: records at equal distance keep their order |
| VolcanoSets.VolcanoSet.WithinRadius | volcanoes/core/volcano_set.py:56-59 | raises exactly when some distance raises; otherwise it keeps, in order, the records at distance at most the radius |
| VolcanoSets.VolcanoSet.GetLats | volcanoes/core/volcano_set.py:61-62 | every known latitude and nothing else, with no `None` |
| VolcanoSets.VolcanoSet.GetLons | volcanoes/core/volcano_set.py:64-65 | every known longitude and nothing else, with no `None` |
| VolcanoSets.VolcanoSet.GetElevs | volcanoes/core/volcano_set.py:67-68 | every known elevation and nothing else, with no `None` |
| VolcanoSets.CoordinateListsInOrder | volcanoes/core/volcano_set.py:61-68 | `get_lats`, `get_lons` and `get_elevs` list one value per record with that value known, in record order: each distributes over concatenation, and one record gives its value or nothing |
| VolcanoSets.UnlocatedLast | core/volcano_set.py:51-54 | after sorting by distance, every record without coordinates comes after every record with them |
| VolcanoSets.WithinRadiusExcludesUnlocated | core/volcano_set.py:56-59 | a record without coordinates is never within a finite radius |
| VolcanoSets.CountryMembership | core/volcano_set.py:32-35 | a record is in `filter_by_country` exactly when it is in the set and its country equals the argument ignoring case |
| VolcanoSets.TypeMembership | core/volcano_set.py:37-40 | a record is in `filter_by_type` exactly when it is in the set and its type contains the argument ignoring case |
| VolcanoSets.ElevationMembership | core/volcano_set.py:42-49 | a record is in the elevation filter exactly when it is in the set and its elevation is known and within the inclusive bounds |
| VolcanoSets.IndexingAgrees | core/volcano_set.py:13-21 | `s[i]` and `s[i - len]` are the i-th record, `s[i:i+1]` holds just it, `s[:i]` and `s[i:]` are the prefix and the suffix, `s[::-1]` lists the records backwards, and `s[len]` raises IndexError |
| EruptionSets.KnownNumbers | volcanoes/core/eruption_set.py:41 | the known volcano numbers are exactly the non-`None` numbers of the eruptions |
| EruptionSets.KnownInts | volcanoes/core/eruption_set.py:41 | the int volcano numbers are exactly those of the eruptions |
| EruptionSets.EruptionSet.At | volcanoes/core/eruption_set.py:19-23 | an int index succeeds exactly in `-len..len-1`, and otherwise raises IndexError |
| EruptionSets.EruptionSet.Slice | volcanoes/core/eruption_set.py:19-22 | `s[start:stop:step]` is a new set holding exactly the list slice of the eruptions, a zero step raises ValueError, without a step it is the contiguous run between the normalised bounds, and `[:]` is the whole set |
| EruptionSets.EruptionSet.FilterByVolcanoNumber | volcanoes/core/eruption_set.py:34-37 | the result holds exactly the eruptions whose volcano number equals `n` numerically |
| EruptionSets.FilterByVolcanoNumberInOrder | volcanoes/core/eruption_set.py:34-37 | the filter keeps eruption order and multiplicity: it distributes over concatenation, and one eruption is kept exactly when its number equals `n` |
| EruptionSets.EruptionSet.SummaryStats | volcanoes/core/eruption_set.py:58-65 | the total is `len`, and the distinct known numbers are at most the total and none exactly when every number is `None` |
| EruptionSets.VolcanoNumbersRaise | volcanoes/core/eruption_set.py:39-42 | `sorted` raises TypeError exactly when a `''` number meets an int number |
| EruptionSets.LoadedNumber | volcanoes/core/eruption.py:21-29 | a constructed eruption's number is an int, `''` or `None` |
| EruptionSets.VolcanoNumbersContent | volcanoes/core/eruption_set.py:39-42 | without a raise, the list holds exactly the known volcano numbers |
| EruptionSets.VolcanoNumbersAscending | volcanoes/core/eruption_set.py:42 | the listed numbers are strictly ascending, so each appears once |
| EruptionSets.UniqueMatchesNumbers | volcanoes/core/eruption_set.py:58-65 | `unique_volcanoes` is the length of `get_volcano_numbers()` |
| EruptionSets.FilterPartition | volcanoes/core/eruption_set.py:34-37 | the filter is non-empty exactly for numbers that occur, is disjoint for different numbers, and is idempotent |
| EruptionSets.IndexingAgrees | volcanoes/core/eruption_set.py:15-23 | `s[i]` and `s[i - len]` are the i-th eruption, `s[i:i+1]` holds just it, `s[:i]` and `s[i:]` are the prefix and the suffix, `s[::-1]` lists the eruptions backwards, and `s[len]` raises IndexError |
| Catalogue.CleanRow | volcanoes/core/gvp.py:58-59 | the cleaned row's keys are exactly the stripped column names, and its values are strings or `None` |
| Catalogue.CleanRowLastWins | volcanoes/core/gvp.py:58-59 | a key holds the stripped value of the last cell whose name strips to it |
| Catalogue.LoadRows | volcanoes/core/gvp.py:56-65 | loading keeps at most one record per row |
| Catalogue.LoadRowsAppend | volcanoes/core/gvp.py:56-65 | loading keeps file order: the rows of `a + b` load as those of `a` followed by those of `b` |
| Catalogue.LoadRowsFlat | volcanoes/core/gvp.py:56-65 | loading concatenates, in file order, what each row contributes |
| Catalogue.LoadRowsOne | volcanoes/core/gvp.py:56-65 | one row loads as its record, or as nothing when building it raises |
| Catalogue.CleanRowLoaded | volcanoes/core/gvp.py:58-60 | every record built from a cleaned row has a string name, text fields that are strings or `None`, and converted numeric fields |
| Catalogue.LoadRowsLoaded | volcanoes/core/gvp.py:56-65 | every loaded record is in that loaded shape |
| Catalogue.LoadRowsFrom | volcanoes/core/gvp.py:56-60 | every loaded record is the record of some row |
| Catalogue.LoadRowsComplete | volcanoes/core/gvp.py:56-65 | a row whose record builds is never lost |
| Catalogue.LoadRowsAll | volcanoes/core/gvp.py:56-65 | when no row raises, every row becomes a record |
| Queries.TextStep | volcanoes/core/gvp.py:116-133 | a given text criterion keeps exactly the records whose field contains it ignoring case, and raises AttributeError on a non-string field; an empty or absent criterion keeps all. Without a raise the result is the input filtered by that test, so order and multiplicity are kept |
| Queries.IdStep | volcanoes/core/gvp.py:124-126 | keeps exactly the records whose id equals the argument numerically, as the input filtered by that test, so in order and as often as in the input |
| Queries.ElevationStep | volcanoes/core/gvp.py:136-146 | with a bound given, it keeps exactly the records with a known elevation inside the given bounds and raises TypeError on `''`. Without a raise the result is the input filtered by the bounds, in order |
| Queries.DistanceStepSpec | volcanoes/core/gvp.py:152-155 | without both coordinates the input is returned unchanged. With both: the radius filter when a radius is given, then a sort non-decreasing by distance, so the result has the same multiset as the input filtered by the radius; the step raises exactly when a distance does |
| Queries.QuerySpec | volcanoes/core/gvp.py:86-157 | a query returns a sub-multiset of the catalogue holding exactly the records that meet every given criterion, sorted by distance when both coordinates are given |
| Queries.QueryOrder | volcanoes/core/gvp.py:112-157 | without both coordinates a query is the catalogue filtered by all criteria together, in catalogue order and with its multiplicities; with both it has the same multiset as that filter |
| Queries.QueryNoCriteria | volcanoes/core/gvp.py:113 | with no criterion the whole catalogue comes back unchanged |
| Queries.QueryById | volcanoes/core/gvp.py:124-126 | a query by id alone never raises and keeps the records with that id in catalogue order |
| Queries.QueryTotal | volcanoes/core/gvp.py:116-155 | on well-formed records (string text fields, numeric or `None` elevations and coordinates) no query raises |
| Gvp.TruthyTexts | volcanoes/core/gvp.py:166 | the truthy field values are exactly the non-empty strings read from the records |
| Gvp.TextLessIsStrictTotal | volcanoes/core/gvp.py:167 | string `<` is a strict total order |
| Gvp.SortedTexts | volcanoes/core/gvp.py:164-167 | `sorted(set(...))` is strictly ascending and holds exactly the non-empty values |
| Gvp.LoadedTexts | volcanoes/core/gvp.py:58-60 | loaded records have text fields that are strings or `None`, so `sorted` compares strings only |
| Gvp.ElevationLoop | volcanoes/core/gvp.py:136-146 | the `new_filtered` loop computes `ElevationStep` |
| Gvp.ReadRows | volcanoes/core/gvp.py:47-65 | the row loop of `_load_data` computes `LoadRows` |
| Gvp.GVP.constructor | volcanoes/core/gvp.py:12-41 | the given path or the packaged one, then the catalogue as loaded from the file |
| Gvp.GVP.LoadData | volcanoes/core/gvp.py:43-79 | the catalogue becomes the loaded rows; a missing or unreadable file leaves it empty |
| Gvp.GVP.FilterVolcanoes | volcanoes/core/gvp.py:86-157 | the step-by-step pipeline returns exactly `Query` |
| Gvp.GVP.GetVolcanoById | volcanoes/core/gvp.py:159-162 | `None` exactly when no record has that id, and otherwise the first record with it |
| Gvp.GVP.GetCountries | volcanoes/core/gvp.py:164-167 | distinct non-empty countries in ascending order |
| Gvp.GVP.GetVolcanoTypes | volcanoes/core/gvp.py:169-172 | distinct non-empty volcano types in ascending order |
| Gvp.GVP.Stats | volcanoes/core/gvp.py:174-181 | the total is the catalogue size, the counts are those of the two lists, and the source is the CSV path |
| Gvp.ByIdIsFirstOfQuery | volcanoes/core/gvp.py:159-162 | `get_volcano_by_id` is the first element of `filter_volcanoes(id=…)` |
| Gvp.CountriesFromLoaded | volcanoes/core/gvp.py:164-172 | every record of a loaded catalogue has string or `None` country and type |
| Text.StripSpec | volcanoes/core/gvp.py:58-59 | `strip()` returns a contiguous run of the text with no whitespace at either end; everything before and after that run is whitespace, and all-whitespace text gives nothing |
| Text.Lower | volcanoes/core/gvp.py:120-133 | `lower()` keeps the length, leaves no ASCII capital, maps each ASCII capital to its small letter and keeps every other character |
| Ordering.SortBy | volcanoes/core/volcano_set.py:53 | Python's `sorted` with a key returns a permutation of the list, non-decreasing by the key |
| Ordering.SortStable | volcanoes/core/volcano_set.py:53 | `sorted` with a key is stable: the records sharing a key keep their order |
| Ordering.SortedDistinct | volcanoes/core/eruption_set.py:42 | `sorted(set(xs))` is strictly ascending with the same members |
| Seqs.Index | volcanoes/core/eruption_set.py:21-23 | list indexing with negative indices, and IndexError outside the range |
| Seqs.SliceBound | volcanoes/core/eruption_set.py:21-22 | a slice bound: `None` gives the default, a negative bound counts from the end, and an out-of-range bound is clamped to `0..len` for a positive step and to `-1..len-1` for a negative one |
| Seqs.Walk | volcanoes/core/eruption_set.py:21-22 | the j-th element taken is `s[start + j*step]`, every index taken lies before the stop in the step's direction, and the next one does not |
| Seqs.Slice | volcanoes/core/eruption_set.py:21-22 | list slicing: a zero step raises ValueError; otherwise the j-th element is `s[a + j*step]` from the normalised start `a`, for exactly those j whose index lies before the normalised stop |
| Seqs.SliceUnitStep | volcanoes/core/eruption_set.py:21-22 | without a step, or with step 1, a slice is the contiguous run `s[a..b]` between the normalised bounds, empty when they cross |
| Seqs.SliceWhole | volcanoes/core/eruption_set.py:21-22 | `s[:]` is the whole list |
| Seqs.SliceReverses | volcanoes/core/eruption_set.py:21-22 | `s[::-1]` has the same length as `s` and lists its elements backwards |
| Repair.Replace | volcanoes/core/gvp_downloader.py:116 | the replacement never shortens the body and keeps its first byte |
| Repair.ReplaceRemovesPattern | volcanoes/core/gvp_downloader.py:115-116 | after `replace(b'(< ', b'(&lt; ')` no `(< ` remains |
| Repair.RepairRemovesPattern | volcanoes/core/gvp_downloader.py:114-118 | a repaired body never contains `(< ` |
| Repair.ReplaceWithoutPattern | volcanoes/core/gvp_downloader.py:115-116 | a body without `(< ` is returned unchanged |
| Repair.RepairIdempotent | volcanoes/core/gvp_downloader.py:114-118 | repairing twice is repairing once |
| Repair.ReplaceLength | volcanoes/core/gvp_downloader.py:115-116 | the length is unchanged exactly when there was nothing to replace |
| Json.Member | volcanoes/core/gvp_downloader.py:325-326 | a key read from a loaded object is present exactly when some member has it, and holds that member's value |
| Json.Subscript | volcanoes/core/gvp_downloader.py:180 | `metadata[key]` succeeds exactly on an object with that key; a missing key raises KeyError and a non-object raises TypeError |
| Json.SetValue | volcanoes/core/gvp_downloader.py:283-287 | assigning a key keeps the length and the key at every position |
| Json.SetValueMember | volcanoes/core/gvp_downloader.py:283-287 | after assignment the key reads the new value and every other key is unchanged |
| Json.PutSpec | volcanoes/core/gvp_downloader.py:283-287 | `d[key] = value` makes the key read `value`, leaves other keys alone, and appends a new key at the end |
| Downloader.TypeNameInjective | volcanoes/core/gvp_downloader.py:24-29 | different datasets are different WFS layers |
| Downloader.DataIsNotMetadata | volcanoes/core/gvp_downloader.py:46-67 | no dataset's data file is any dataset's metadata file |
| Downloader.CachePathsDistinct | volcanoes/core/gvp_downloader.py:56 | different relative dataset names get different data and metadata files |
| Downloader.DownloadUrl | volcanoes/core/gvp_downloader.py:69-97 | an unknown dataset raises with the list of available names; a known one gets its GetFeature URL |
| Downloader.DownloadUrlInjective | volcanoes/core/gvp_downloader.py:82-95 | different datasets get different URLs |
| Downloader.FetchData | volcanoes/core/gvp_downloader.py:99-120 | a failed request raises a download error naming the URL; a body is returned repaired, so it holds no `(< `, and unchanged when it had none |
| Downloader.SavedMetadata | volcanoes/core/gvp_downloader.py:122-140 | saving adds exactly the metadata file |
| Downloader.LoadMetadata | volcanoes/core/gvp_downloader.py:142-159 | no sidecar, or one that is not valid JSON, reads as `None`; a valid one reads as its document; it raises a decode error of the sidecar exactly when the sidecar is not text |
| Downloader.DownloadUnknown | volcanoes/core/gvp_downloader.py:171-172 | an unknown dataset raises before anything is read or written |
| Downloader.DownloadFetches | volcanoes/core/gvp_downloader.py:176-186 | a request is sent exactly for a known dataset with a forced refresh, no data file, or a sidecar that is absent, malformed or falsy |
| Downloader.CorruptMetadataRefetches | volcanoes/core/gvp_downloader.py:155-159 | a sidecar that is not valid JSON is a cache miss, not an error |
| Downloader.DownloadResult | volcanoes/core/gvp_downloader.py:174-196 | a successful download returns the data file's path, and that file is in the cache |
| Downloader.DownloadWritesOnlyOnFetch | volcanoes/core/gvp_downloader.py:161-196 | the cache changes only when a request was sent and answered |
| Downloader.FetchWrites | volcanoes/core/gvp_downloader.py:186-193 | a successful fetch writes the repaired body, then a sidecar with the dataset, the time and the size written |
| Downloader.MetadataReadsBack | volcanoes/core/gvp_downloader.py:139-157 | the sidecar written is the sidecar read back, when the codec reads that one document back |
| Downloader.MetadataFields | volcanoes/core/gvp_downloader.py:130-136 | the sidecar is truthy, and its `download_time` and `file_size` are the time and the size |
| Downloader.FailedFetchChangesNothing | volcanoes/core/gvp_downloader.py:108-120 | a failed request leaves the cache unchanged and raises the download error |
| Downloader.DownloadIsolated | volcanoes/core/gvp_downloader.py:189-193 | downloading one dataset leaves every other dataset's files untouched |
| Downloader.SecondDownloadIsCached | volcanoes/core/gvp_downloader.py:176-181 | after a successful download, an unforced download of the same dataset returns the cached path without a request, when the codec reads back the sidecar written |
| Downloader.FetchedIsCached | volcanoes/core/gvp_downloader.py:177-193 | after a fetch, the data file exists and the sidecar reads back, so the cache serves the dataset |
| Downloader.ForcedDownloadFetches | volcanoes/core/gvp_downloader.py:177 | a forced refresh always sends a request |
| Downloader.Targets | volcanoes/core/gvp_downloader.py:312-315 | a non-empty name selects itself, and otherwise every dataset |
| Downloader.Entry | volcanoes/core/gvp_downloader.py:318-333 | a sidecar that cannot be decoded raises; without a data file or a truthy sidecar the entry is not cached; otherwise it is cached with the sidecar's `download_time` and `file_size`, and a missing one raises KeyError. Every entry names the data file |
| Downloader.CacheInfoRaises | volcanoes/core/gvp_downloader.py:317-335 | `get_cache_info` raises exactly when some requested entry raises |
| Downloader.CacheInfoKeys | volcanoes/core/gvp_downloader.py:317-335 | the report has exactly one entry per requested name |
| Downloader.CacheInfoEntries | volcanoes/core/gvp_downloader.py:322-333 | each reported entry is the one computed for its name |
| Downloader.DownloadedIsCached | volcanoes/core/gvp_downloader.py:322-328 | after a fetch the dataset reports cached, with the recorded time and size |
| Downloader.ClearedSpec | volcanoes/core/gvp_downloader.py:348-357 | clearing removes exactly the data and metadata files of the selected names and keeps every other file |
| Downloader.ClearIdempotent | volcanoes/core/gvp_downloader.py:352-357 | clearing twice is clearing once |
| Downloader.ClearedIsNotCached | volcanoes/core/gvp_downloader.py:337-357 | after clearing, every cleared dataset reports not cached |
| Downloader.GVPDownloader.constructor | volcanoes/core/gvp_downloader.py:31-44 | the given directory, or `.volcanoes_cache` in the working directory |
| Downloader.GVPDownloader.SaveMetadata | volcanoes/core/gvp_downloader.py:122-140 | writes the sidecar with the data file's size, or 0 when there is no data file |
| Downloader.GVPDownloader.Download | volcanoes/core/gvp_downloader.py:161-196 | result and new cache are `DownloadOutcome`, and the request counter grows exactly when a request is sent |
| Downloader.GVPDownloader.ExportToCsv | volcanoes/core/gvp_downloader.py:198-219 | after the download, a non-empty output path gets a copy and is returned; copying onto the data file itself raises SameFileError; otherwise the data file is returned |
| Downloader.GVPDownloader.ExportToGeoJson | volcanoes/core/gvp_downloader.py:221-244 | after the download, the data file is read and converted; the collection is written to the output path, by default `<cache>/<dataset>.geojson`. Every error leaves the cache as the download left it |
| Downloader.GVPDownloader.GetCacheInfo | volcanoes/core/gvp_downloader.py:303-335 | returns `CacheInfo` of the selected names and changes nothing |
| Downloader.GVPDownloader.ClearCache | volcanoes/core/gvp_downloader.py:337-357 | the cache becomes `Cleared` of the selected names |
| Downloader.CollectCacheInfo | volcanoes/core/gvp_downloader.py:317-333 | the loop filling `info` computes `CacheInfo` |
| Downloader.RemoveCached | volcanoes/core/gvp_downloader.py:348-357 | the unlinking loop computes `Cleared` |
| GeoJson.Cell | volcanoes/core/gvp_downloader.py:261-262 | `row.get(key)` is present exactly when the row has that column, and holds that column's cell |
| GeoJson.FloatOf | volcanoes/core/gvp_downloader.py:260-265 | `float(None)` raises TypeError, which escapes; text that does not parse is the ValueError that skips the row |
| GeoJson.Coordinate | volcanoes/core/gvp_downloader.py:261-262 | the capitalised column wins over the lower-case one, and a row with neither is at 0 |
| GeoJson.Convert | volcanoes/core/gvp_downloader.py:280-287 | text with `.` becomes a float if it parses and other text an int if it parses; otherwise the raw value is kept |
| GeoJson.RowProperties | volcanoes/core/gvp_downloader.py:277-287 | the property loop computes `Properties` |
| GeoJson.PropertiesSpec | volcanoes/core/gvp_downloader.py:278-287 | a property is present exactly for a non-coordinate column, holding the converted value of its last cell |
| GeoJson.PropertiesExcludeCoordinates | volcanoes/core/gvp_downloader.py:279 | no property is named `latitude`, `longitude`, `lat` or `lon`, in any case |
| GeoJson.FeatureMembers | volcanoes/core/gvp_downloader.py:268-275 | a feature is of type `Feature`, its geometry is a `Point` at `[lon, lat]`, and it carries its properties |
| GeoJson.RowFeatureSpec | volcanoes/core/gvp_downloader.py:258-289 | a row is skipped when a coordinate fails to parse; a coordinate read that raises, or surplus cells on a located row, raise; a row yields a feature exactly when both coordinates parse and there are no surplus cells, and it is then a Point at `[longitude, latitude]` |
| GeoJson.MissingColumnsAreZero | volcanoes/core/gvp_downloader.py:261-262 | a row without coordinate columns is placed at `[0, 0]` |
| GeoJson.Features | volcanoes/core/gvp_downloader.py:253-289 | at most one feature per row |
| GeoJson.BuildFeatures | volcanoes/core/gvp_downloader.py:253-289 | the row loop appending to `features` computes `Features` |
| GeoJson.FeaturesCount | volcanoes/core/gvp_downloader.py:258-289 | without a raise there is exactly one feature per located row |
| GeoJson.FeaturesInOrder | volcanoes/core/gvp_downloader.py:256-289 | without a raise the features are those of the located rows, in file order, each the feature its row yields |
| GeoJson.Collection | volcanoes/core/gvp_downloader.py:291-295 | the document written is of type `FeatureCollection` and holds the features |
| Plotting.TableOrdered | volcanoes/utils/plotting.py:17-42 | fifteen keys, strictly increasing, with strictly decreasing zooms in 4..18 |
| Plotting.Nearest | volcanoes/utils/plotting.py:56 | `min` by distance gives a nearest key, and the first of equally near keys |
| Plotting.ZoomLevelBasic | volcanoes/utils/plotting.py:45-57 | the zoom is in 4..18 |
| Plotting.ZoomLevelBasicNearest | volcanoes/utils/plotting.py:56-57 | the zoom is that of the nearest key, with ties going to the smaller key |
| Plotting.ZoomLevelBasicAtKey | volcanoes/utils/plotting.py:17-57 | an extent equal to a key gets that key's zoom |
| Plotting.ZoomLevelBasicMonotone | volcanoes/utils/plotting.py:45-57 | a larger extent never gets a closer zoom |
| Plotting.ZoomLevelClamped | volcanoes/utils/plotting.py:73-80 | 18 at or below 0.1 km and 4 at or above 10000 km; the interior is not decided here |
| Plotting.ClampAgreesWithBasic | volcanoes/utils/plotting.py:45-80 | where the clamp decides, it agrees with the basic lookup |

## Left out

- The haversine formula (`_haversine_distance`) is floating-point trigonometry. The distance is a
  parameter, and nothing is assumed about it.
- Floats are real numbers. Rounding, `nan` and `inf` as field values are not modelled. `float()`,
  `int()` and `str()` on strings are parameters.
- The network, the timeout, `raise_for_status` and the request library: the response is a parameter.
  `datetime.now()` is a parameter.
- `json.dump`/`json.load`, `csv.DictReader` with its BOM handling, and text decoding are parameters.
  The JSON text, its indentation and key escaping are not modelled.
- `Downloader.CacheInfo`: `get_cache_info` returns a dict whose keys follow the order in which
  the datasets are listed. The model's `map` has no key order, so only the keys and the entry of
  each are stated.
- `_load_metadata` also returns `None` on an `IOError`, for example a sidecar that is a directory. The
  cache directory here holds only files, so this case does not arise.
- Paths are strings:
  - `Join` concatenates with `/` and lets an absolute name replace the directory, so `Join("", x)` is
    `/x` where `pathlib` gives `x`;
  - `pathlib`'s normalisation (`..`, repeated or trailing slashes, symlinks) is not modelled;
  - `SameFileError` is decided by path equality;
  - `shutil.copy2` into a directory and its metadata copy are not modelled.
- `mkdir` of the cache directory is not modelled, and directories are not modelled.
- The default CSV path resolution through `importlib`/package directories is not modelled. The
  packaged path is a parameter of `GVP`'s constructor.
- Console output (`print`, `__str__`, `__repr__`, `_wrap_text`), the plotting UI and
  `eruption_history` have no logic that the model needs.
- The interior of `get_zoom_level_interpolated` is left out: `np.interp` and float rounding.
  `Plotting.ZoomLevelClamped` returns `None` there.
- core/volcano.py is not part of this model. The legacy `core/volcano_set.py` calls
  `v.elevation()` as a method. The model reads it as the stored elevation in metres, which is what
  `get_elevation()` returns. The legacy file has no `get_lats`, `get_lons` or `get_elevs`; its
  other members repeat the code of `volcanoes/core/volcano_set.py` and are modelled by the same
  members.
- `VolcanoSets.VolcanoSet.FilterByCountry`: `lower()` folds only the ASCII letters (`Text.Lower`), not
  Python's full Unicode case mapping, so names differing only in non-ASCII case are not matched.
- `VolcanoSets.VolcanoSet.FilterByType`: the same ASCII-only case fold.
- `VolcanoSets.CountryMembership`: "ignoring case" means ignoring ASCII case only.
- `VolcanoSets.TypeMembership`: "ignoring case" means ignoring ASCII case only.
- `Queries.TextStep`: the text criteria ignore ASCII case only.
- `Queries.QuerySpec`: the text criteria ignore ASCII case only.
- `Queries.QueryOrder`: the text criteria ignore ASCII case only.
- `Text.Lower`: Python's `str.lower()` on non-ASCII letters (for example `É`) and its length-changing
  mappings are not modelled.
- Some functions state nothing of their own and are specified by the lemmas about them:
  - `Downloader.CachePath` and `Downloader.MetadataPath` by `DataIsNotMetadata` and `CachePathsDistinct`;
  - `Downloader.DownloadOutcome` and `Downloader.CacheHit` by the `Download…` and `…IsCached` lemmas;
  - `Downloader.CacheInfo` by `CacheInfoRaises`, `CacheInfoKeys` and `CacheInfoEntries`;
  - `Downloader.Cleared` by `ClearedSpec` and `ClearIdempotent`;
  - `Queries.Query` by `QuerySpec` and `QueryOrder`, and `Queries.DistanceStep` by `DistanceStepSpec`;
  - `GeoJson.RowFeature` by `RowFeatureSpec`, and `GeoJson.Properties` by `PropertiesSpec`;
  - `EruptionSets.EruptionSet.GetVolcanoNumbers` by the `VolcanoNumbers…` lemmas.
- `VolcanoSets.VolcanoSet.SummaryStats` states nothing of its own: its properties are stated on
  `VolcanoSets.Summary` and `VolcanoSets.SummaryProperties`.
- `EruptionSets.EruptionSet.GetVolcanoNumbers` is defined only for eruptions built by the constructor
  (`Valid`). Python's ordering of arbitrary mixed values is not modelled.
- `Gvp.GVP.GetCountries`, `Gvp.GVP.GetVolcanoTypes` and `Gvp.GVP.Stats` require the catalogue to be as loading leaves
  it (`Valid`), where every country and type is a string or `None`, so `sorted` compares strings only.
- `Downloader.GVPDownloader.ExportToGeoJson` treats a data file that cannot be decoded as text as a
  decode error. It does not model a CSV error raised part-way through reading.
