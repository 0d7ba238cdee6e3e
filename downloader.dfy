/** The GVP web-services cache manager, `GVPDownloader` (volcanoes/core/gvp_downloader.py).
    The cache directory is a map from path to file contents; the HTTP response, the clock and
    the CSV reader are parameters, and JSON is read and written through a `Json.Codec`. */
module Downloader {
  import opened Wrappers
  import opened Errors
  import Seqs
  import opened Repair
  import opened Json
  import opened Catalogue
  import Values
  import GeoJson

  /** The WFS endpoint of the Global Volcanism Program. */
  const BaseUrl: string := "https://webservices.volcano.si.edu/geoserver/GVP-VOTW/ows"

  /** The keys of `DATASETS`, in declaration order. */
  const DatasetNames: seq<string> :=
    ["holocene_volcanoes", "holocene_eruptions", "pleistocene_volcanoes", "pleistocene_eruptions"]

  /** The WFS layer behind each dataset key. */
  function TypeName(dataset: string): (r: string)
    requires dataset in DatasetNames
  {
    if dataset == "holocene_volcanoes" then "GVP-VOTW:Smithsonian_VOTW_Holocene_Volcanoes"
    else if dataset == "holocene_eruptions" then "GVP-VOTW:Smithsonian_VOTW_Holocene_Eruptions"
    else if dataset == "pleistocene_volcanoes" then "GVP-VOTW:Smithsonian_VOTW_Pleistocene_Volcanoes"
    else "GVP-VOTW:Smithsonian_VOTW_Pleistocene_Eruptions"
  }

  /** Different datasets are different layers. */
  lemma TypeNameInjective(a: string, b: string)
    requires a in DatasetNames && b in DatasetNames
    ensures TypeName(a) == TypeName(b) <==> a == b
  {
  }

  /** A moment as `datetime.now()` reports it: its ISO text and its POSIX timestamp. */
  datatype Instant = Instant(iso: string, timestamp: real)

  /** `Path(dir) / name` (and `os.path.join`): an absolute name replaces the directory. */
  function Join(dir: string, name: string): string {
    if |name| > 0 && name[0] == '/' then name else dir + "/" + name
  }

  /** A joined path ends with the name. */
  lemma JoinSuffix(dir: string, name: string)
    ensures |Join(dir, name)| >= |name| && Join(dir, name)[|Join(dir, name)| - |name|..] == name
  {
  }

  /** `_get_cache_path`: `<cache_dir>/<dataset>.<format>`. */
  function CachePath(dir: string, dataset: string, format: string): string {
    Join(dir, dataset + "." + format)
  }

  /** `_get_metadata_path`: `<cache_dir>/<dataset>.meta.json`. */
  function MetadataPath(dir: string, dataset: string): string {
    Join(dir, dataset + ".meta.json")
  }

  /** The data file of a dataset is never the metadata file of any dataset. */
  lemma DataIsNotMetadata(dir: string, a: string, b: string)
    ensures CachePath(dir, a, "csv") != MetadataPath(dir, b)
  {
    var p, q := CachePath(dir, a, "csv"), MetadataPath(dir, b);
    JoinSuffix(dir, a + "." + "csv");
    JoinSuffix(dir, b + ".meta.json");
    assert p[|p| - |a + ".csv"|..] == a + ".csv";
    assert q[|q| - |b + ".meta.json"|..] == b + ".meta.json";
    assert p[|p| - 1] == 'v' && q[|q| - 1] == 'n';
  }

  /** Relative names joined to one directory are equal only when the names are. */
  lemma JoinInjective(dir: string, x: string, y: string)
    requires Relative(x) && Relative(y)
    ensures Join(dir, x) == Join(dir, y) ==> x == y
  {
    if Join(dir, x) == Join(dir, y) {
      assert x == Join(dir, x)[|dir| + 1..];
    }
  }

  /** Dropping the same suffix from equal texts leaves equal texts. */
  lemma SuffixCancel(x: string, y: string, s: string)
    requires x + s == y + s
    ensures x == y
  {
    assert x == (x + s)[..|x|];
  }

  /** A name that `Join` keeps under the directory. */
  predicate Relative(name: string) {
    !(|name| > 0 && name[0] == '/')
  }

  /** Different relative names are cached in different files. */
  lemma CachePathsDistinct(dir: string, a: string, b: string)
    requires Relative(a) && Relative(b) && a != b
    ensures CachePath(dir, a, "csv") != CachePath(dir, b, "csv")
    ensures MetadataPath(dir, a) != MetadataPath(dir, b)
  {
    var x, y := a + "." + "csv", b + "." + "csv";
    assert Relative(x) && Relative(y) by { if |a| == 0 { assert x[0] == '.'; } if |b| == 0 { assert y[0] == '.'; } }
    JoinInjective(dir, x, y);
    if x == y { SuffixCancel(a + ".", b + ".", "csv"); SuffixCancel(a, b, "."); }
    var u, v := a + ".meta.json", b + ".meta.json";
    assert Relative(u) && Relative(v) by { if |a| == 0 { assert u[0] == '.'; } if |b| == 0 { assert v[0] == '.'; } }
    JoinInjective(dir, u, v);
    if u == v { SuffixCancel(a, b, ".meta.json"); }
  }

  /** The query parameters before the layer name. */
  const LayerQuery: string := "?service=WFS&version=1.0.0&request=GetFeature&typeName="

  /** The last query parameter. */
  function FormatQuery(format: string): string {
    "&outputFormat=" + if format == "geojson" then "geojson" else "csv"
  }

  /** `_get_download_url`: a WFS GetFeature request for the dataset's layer. Any format other
      than `geojson` asks for CSV. */
  function DownloadUrl(dataset: string, format: string): (r: Result<string, Error>)
    ensures r.Ok? <==> dataset in DatasetNames
    ensures r.Err? ==> r.error == UnknownDataset(dataset, DatasetNames)
  {
    if dataset !in DatasetNames then Err(UnknownDataset(dataset, DatasetNames))
    else Ok(BaseUrl + LayerQuery + TypeName(dataset) + FormatQuery(format))
  }

  /** Equal texts that agree around a middle part agree in the middle. */
  lemma MiddleCancel(p: string, x: string, y: string, q: string)
    requires p + x + q == p + y + q
    ensures x == y
  {
    assert |x| == |y|;
    assert x == (p + x + q)[|p|..|p| + |x|];
  }

  /** The URL asks the endpoint for exactly one layer: different datasets get different URLs. */
  lemma DownloadUrlInjective(a: string, b: string, format: string)
    requires DownloadUrl(a, format).Ok? && DownloadUrl(b, format).Ok?
    ensures DownloadUrl(a, format) == DownloadUrl(b, format) ==> a == b
  {
    if DownloadUrl(a, format) == DownloadUrl(b, format) {
      MiddleCancel(BaseUrl + LayerQuery, TypeName(a), TypeName(b), FormatQuery(format));
      TypeNameInjective(a, b);
    }
  }

  /** `_download_data`: a failed request is a RuntimeError; the body is repaired before use. */
  function FetchData(url: string, response: Option<Bytes>): (r: Result<Bytes, Error>)
    ensures r.Err? <==> response.None?
    ensures r.Err? ==> r.error == DownloadFailed(url)
    ensures r.Ok? ==> !Seqs.Contains(r.value, Pattern)
    ensures r.Ok? && !Seqs.Contains(response.value, Pattern) ==> r.value == response.value
  {
    match response
    case None => Err(DownloadFailed(url))
    case Some(raw) => RepairRemovesPattern(raw); Ok(Repair.Repair(raw))
  }

  /** The document `_save_metadata` writes. */
  function Metadata(dataset: string, now: Instant, path: string, size: int): Json {
    JObj([("dataset", JStr(dataset)),
          ("download_time", JStr(now.iso)),
          ("download_timestamp", JNum(now.timestamp)),
          ("file_path", JStr(path)),
          ("file_size", JInt(size))])
  }

  /** `_save_metadata`'s effect: the sidecar records the size of the data file, 0 if absent. */
  function SavedMetadata(files: map<string, Bytes>, dir: string, codec: Codec, dataset: string, now: Instant, path: string)
    : (r: map<string, Bytes>)
    ensures r.Keys == files.Keys + {MetadataPath(dir, dataset)}
  {
    files[MetadataPath(dir, dataset) := codec.encode(Metadata(dataset, now, path, if path in files then |files[path]| else 0))]
  }

  /** `_load_metadata`: no sidecar, or one that is not valid JSON, reads as `None`; a sidecar that
      is not text raises. */
  function LoadMetadata(files: map<string, Bytes>, dir: string, codec: Codec, dataset: string): (r: Result<Option<Json>, Error>)
    ensures MetadataPath(dir, dataset) !in files ==> r == Ok(None)
    ensures MetadataPath(dir, dataset) in files && codec.decode(files[MetadataPath(dir, dataset)]).Parsed? ==>
      r == Ok(Some(codec.decode(files[MetadataPath(dir, dataset)]).value))
    ensures MetadataPath(dir, dataset) in files && codec.decode(files[MetadataPath(dir, dataset)]).Malformed? ==>
      r == Ok(None)
    ensures r.Err? <==> MetadataPath(dir, dataset) in files && codec.decode(files[MetadataPath(dir, dataset)]).Undecodable?
    ensures r.Err? ==> r.error == DecodeError(MetadataPath(dir, dataset))
  {
    var path := MetadataPath(dir, dataset);
    if path !in files then Ok(None)
    else match codec.decode(files[path])
      case Parsed(j) => Ok(Some(j))
      case Malformed => Ok(None)
      case Undecodable => Err(DecodeError(path))
  }

  /** What `download` returns without fetching: `Some` of the result when the data file exists,
      no refresh is forced and the sidecar is truthy (reading its `download_time` for the message,
      which raises when it is missing); `None` when it must fetch. */
  function CacheHit(files: map<string, Bytes>, dir: string, codec: Codec, dataset: string, force: bool)
    : (r: Option<Result<string, Error>>)
  {
    if force || CachePath(dir, dataset, "csv") !in files then None
    else match LoadMetadata(files, dir, codec, dataset)
      case Err(e) => Some(Err(e))
      case Ok(meta) =>
        if meta.Some? && Truthy(meta.value) then
          match Subscript(meta.value, "download_time")
          case Ok(_) => Some(Ok(CachePath(dir, dataset, "csv")))
          case Err(e) => Some(Err(e))
        else None
  }

  /** The result of a `download` call, the cache directory after it, and whether it went to the
      network. */
  datatype Outcome = Outcome(result: Result<string, Error>, files: map<string, Bytes>, fetched: bool)

  /** `download`. */
  function DownloadOutcome(files: map<string, Bytes>, dir: string, codec: Codec, dataset: string, force: bool,
                           response: Option<Bytes>, now: Instant): Outcome
  {
    if dataset !in DatasetNames then Outcome(Err(UnknownDataset(dataset, DatasetNames)), files, false)
    else match CacheHit(files, dir, codec, dataset, force)
      case Some(result) => Outcome(result, files, false)
      case None =>
        var path := CachePath(dir, dataset, "csv");
        match FetchData(DownloadUrl(dataset, "csv").value, response)
        case Err(e) => Outcome(Err(e), files, true)
        case Ok(data) => Outcome(Ok(path), SavedMetadata(files[path := data], dir, codec, dataset, now, path), true)
  }

  /** An unknown dataset raises before anything is read or written. */
  lemma DownloadUnknown(files: map<string, Bytes>, dir: string, codec: Codec, dataset: string, force: bool,
                        response: Option<Bytes>, now: Instant)
    requires dataset !in DatasetNames
    ensures DownloadOutcome(files, dir, codec, dataset, force, response, now)
      == Outcome(Err(UnknownDataset(dataset, DatasetNames)), files, false)
  {
  }

  /** `download` goes to the network exactly when the dataset is known and the cache cannot serve
      it: a forced refresh, no data file, or a sidecar that is absent, unreadable as JSON or falsy. */
  lemma DownloadFetches(files: map<string, Bytes>, dir: string, codec: Codec, dataset: string, force: bool,
                        response: Option<Bytes>, now: Instant)
    ensures DownloadOutcome(files, dir, codec, dataset, force, response, now).fetched <==>
      (dataset in DatasetNames &&
       (force || CachePath(dir, dataset, "csv") !in files ||
        (LoadMetadata(files, dir, codec, dataset).Ok? &&
         (LoadMetadata(files, dir, codec, dataset).value.None? || !Truthy(LoadMetadata(files, dir, codec, dataset).value.value)))))
  {
  }

  /** A sidecar that is not valid JSON is a cache miss, not an error. */
  lemma CorruptMetadataRefetches(files: map<string, Bytes>, dir: string, codec: Codec, dataset: string,
                                 response: Option<Bytes>, now: Instant)
    requires dataset in DatasetNames
    requires MetadataPath(dir, dataset) in files && codec.decode(files[MetadataPath(dir, dataset)]) == Malformed
    ensures DownloadOutcome(files, dir, codec, dataset, false, response, now).fetched
  {
  }

  /** A successful call returns the dataset's data file, which is then in the cache. */
  lemma DownloadResult(files: map<string, Bytes>, dir: string, codec: Codec, dataset: string, force: bool,
                       response: Option<Bytes>, now: Instant)
    requires DownloadOutcome(files, dir, codec, dataset, force, response, now).result.Ok?
    ensures DownloadOutcome(files, dir, codec, dataset, force, response, now).result.value == CachePath(dir, dataset, "csv")
    ensures CachePath(dir, dataset, "csv") in DownloadOutcome(files, dir, codec, dataset, force, response, now).files
  {
    var path := CachePath(dir, dataset, "csv");
    if CacheHit(files, dir, codec, dataset, force).None? {
      var data := FetchData(DownloadUrl(dataset, "csv").value, response).value;
      assert path in files[path := data];
    }
  }

  /** Only a fetch that succeeds writes to the cache. */
  lemma DownloadWritesOnlyOnFetch(files: map<string, Bytes>, dir: string, codec: Codec, dataset: string, force: bool,
                                  response: Option<Bytes>, now: Instant)
    ensures DownloadOutcome(files, dir, codec, dataset, force, response, now).files != files ==>
      DownloadOutcome(files, dir, codec, dataset, force, response, now).fetched && response.Some?
  {
  }

  /** A fetch that succeeds writes the repaired body to the data file, and a sidecar that records
      the download time and the size of what was written. */
  lemma FetchWrites(files: map<string, Bytes>, dir: string, codec: Codec, dataset: string, force: bool,
                    response: Option<Bytes>, now: Instant)
    requires DownloadOutcome(files, dir, codec, dataset, force, response, now).fetched && response.Some?
    ensures var path := CachePath(dir, dataset, "csv");
      var data := Repair.Repair(response.value);
      DownloadOutcome(files, dir, codec, dataset, force, response, now).files
        == files[path := data][MetadataPath(dir, dataset) := codec.encode(Metadata(dataset, now, path, |data|))]
  {
    var path := CachePath(dir, dataset, "csv");
    var data := Repair.Repair(response.value);
    assert FetchData(DownloadUrl(dataset, "csv").value, response) == Ok(data);
    var written := files[path := data];
    assert path in written && written[path] == data;
  }

  /** `_load_metadata` reads back the sidecar `_save_metadata` wrote, when the codec reads that
      document back. */
  lemma MetadataReadsBack(files: map<string, Bytes>, dir: string, codec: Codec, dataset: string, now: Instant,
                          path: string, size: int)
    requires RoundTrips(codec, Metadata(dataset, now, path, size))
    ensures LoadMetadata(files[MetadataPath(dir, dataset) := codec.encode(Metadata(dataset, now, path, size))], dir, codec, dataset)
      == Ok(Some(Metadata(dataset, now, path, size)))
  {
    var m := Metadata(dataset, now, path, size);
    assert codec.decode(codec.encode(m)) == Parsed(m);
  }

  /** The sidecar's fields as `metadata[key]` reads them. */
  lemma MetadataFields(dataset: string, now: Instant, path: string, size: int)
    ensures Truthy(Metadata(dataset, now, path, size))
    ensures Subscript(Metadata(dataset, now, path, size), "download_time") == Ok(JStr(now.iso))
    ensures Subscript(Metadata(dataset, now, path, size), "file_size") == Ok(JInt(size))
  {
    var ms := Metadata(dataset, now, path, size).members;
    assert ms[..4][..3][..2][..1] == ms[..1];
    assert ms[..4][..3][..2] == ms[..2];
    assert ms[..4][..3] == ms[..3];
    assert Member(ms[..2], "download_time") == Some(JStr(now.iso));
    assert Member(ms[..3], "download_time") == Some(JStr(now.iso));
    assert Member(ms[..4], "download_time") == Some(JStr(now.iso));
  }

  /** A failed request leaves the cache as it was. */
  lemma FailedFetchChangesNothing(files: map<string, Bytes>, dir: string, codec: Codec, dataset: string, force: bool,
                                  now: Instant)
    ensures DownloadOutcome(files, dir, codec, dataset, force, None, now).files == files
    ensures dataset in DatasetNames && DownloadOutcome(files, dir, codec, dataset, force, None, now).fetched ==>
      DownloadOutcome(files, dir, codec, dataset, force, None, now).result == Err(DownloadFailed(DownloadUrl(dataset, "csv").value))
  {
  }

  /** Downloading one dataset leaves every other dataset's files untouched. */
  lemma DownloadIsolated(files: map<string, Bytes>, dir: string, codec: Codec, dataset: string, force: bool,
                         response: Option<Bytes>, now: Instant, other: string)
    requires dataset in DatasetNames && other in DatasetNames && dataset != other
    ensures var o := DownloadOutcome(files, dir, codec, dataset, force, response, now);
      forall p :: p in {CachePath(dir, other, "csv"), MetadataPath(dir, other)} ==>
        (p in o.files <==> p in files) && (p in files ==> o.files[p] == files[p])
  {
    CachePathsDistinct(dir, dataset, other);
    DataIsNotMetadata(dir, dataset, other);
    DataIsNotMetadata(dir, other, dataset);
    DownloadWritesOnlyOnFetch(files, dir, codec, dataset, force, response, now);
    if DownloadOutcome(files, dir, codec, dataset, force, response, now).files != files {
      FetchWrites(files, dir, codec, dataset, force, response, now);
    }
  }

  /** Once a download has succeeded, an unforced download of the same dataset is served from the
      cache, without a request, as long as the codec reads back the sidecar it wrote. */
  lemma SecondDownloadIsCached(files: map<string, Bytes>, dir: string, codec: Codec, dataset: string, force: bool,
                               response: Option<Bytes>, now: Instant, response2: Option<Bytes>, now2: Instant)
    requires response.Some? ==>
      RoundTrips(codec, Metadata(dataset, now, CachePath(dir, dataset, "csv"), |Repair.Repair(response.value)|))
    requires DownloadOutcome(files, dir, codec, dataset, force, response, now).result.Ok?
    ensures var o := DownloadOutcome(files, dir, codec, dataset, force, response, now);
      DownloadOutcome(o.files, dir, codec, dataset, false, response2, now2)
        == Outcome(Ok(CachePath(dir, dataset, "csv")), o.files, false)
  {
    var o := DownloadOutcome(files, dir, codec, dataset, force, response, now);
    if o.fetched {
      FetchedIsCached(files, dir, codec, dataset, force, response, now);
    }
  }

  /** After a successful fetch the cache can serve the dataset. */
  lemma FetchedIsCached(files: map<string, Bytes>, dir: string, codec: Codec, dataset: string, force: bool,
                        response: Option<Bytes>, now: Instant)
    requires response.Some? ==>
      RoundTrips(codec, Metadata(dataset, now, CachePath(dir, dataset, "csv"), |Repair.Repair(response.value)|))
    requires DownloadOutcome(files, dir, codec, dataset, force, response, now).result.Ok?
    requires DownloadOutcome(files, dir, codec, dataset, force, response, now).fetched
    ensures var o := DownloadOutcome(files, dir, codec, dataset, force, response, now);
      var path := CachePath(dir, dataset, "csv");
      var m := Metadata(dataset, now, path, |Repair.Repair(response.value)|);
      && path in o.files
      && LoadMetadata(o.files, dir, codec, dataset) == Ok(Some(m))
      && CacheHit(o.files, dir, codec, dataset, false) == Some(Ok(path))
  {
    var path := CachePath(dir, dataset, "csv");
    var data := Repair.Repair(response.value);
    DataIsNotMetadata(dir, dataset, dataset);
    FetchWrites(files, dir, codec, dataset, force, response, now);
    MetadataReadsBack(files[path := data], dir, codec, dataset, now, path, |data|);
    MetadataFields(dataset, now, path, |data|);
  }

  /** A forced download always goes to the network for a known dataset. */
  lemma ForcedDownloadFetches(files: map<string, Bytes>, dir: string, codec: Codec, dataset: string,
                              response: Option<Bytes>, now: Instant)
    requires dataset in DatasetNames
    ensures DownloadOutcome(files, dir, codec, dataset, true, response, now).fetched
  {
  }

  /** `if dataset:` in `get_cache_info` and `clear_cache`: a non-empty name selects that name
      (checked against nothing), otherwise every dataset. */
  function Targets(dataset: Option<string>): (r: seq<string>)
    ensures dataset.Some? && dataset.value != "" ==> r == [dataset.value]
    ensures !(dataset.Some? && dataset.value != "") ==> r == DatasetNames
  {
    if dataset.Some? && dataset.value != "" then [dataset.value] else DatasetNames
  }

  /** One entry of `get_cache_info`. */
  datatype CacheEntry =
    | Cached(downloadTime: Json, fileSize: Json, filePath: string)
    | NotCached(filePath: string)

  /** The entry for one dataset: cached when its data file exists and its sidecar is truthy, and
      then the sidecar's `download_time` and `file_size` are read (a missing one raises). The
      sidecar is loaded first, so one that is not text raises even without a data file. */
  function Entry(files: map<string, Bytes>, dir: string, codec: Codec, dataset: string): (r: Result<CacheEntry, Error>)
    ensures r.Ok? ==> r.value.filePath == CachePath(dir, dataset, "csv")
    ensures r.Ok? && r.value.Cached? ==> CachePath(dir, dataset, "csv") in files
    ensures LoadMetadata(files, dir, codec, dataset).Err? ==> r == Err(LoadMetadata(files, dir, codec, dataset).error)
    ensures var meta := LoadMetadata(files, dir, codec, dataset);
      meta.Ok? && !(CachePath(dir, dataset, "csv") in files && meta.value.Some? && Truthy(meta.value.value)) ==>
        r == Ok(NotCached(CachePath(dir, dataset, "csv")))
    ensures var meta := LoadMetadata(files, dir, codec, dataset);
      meta.Ok? && CachePath(dir, dataset, "csv") in files && meta.value.Some? && Truthy(meta.value.value) ==>
        var time := Subscript(meta.value.value, "download_time");
        var size := Subscript(meta.value.value, "file_size");
        r == if time.Err? then Err(time.error)
             else if size.Err? then Err(size.error)
             else Ok(Cached(time.value, size.value, CachePath(dir, dataset, "csv")))
  {
    var meta :- LoadMetadata(files, dir, codec, dataset);
    var path := CachePath(dir, dataset, "csv");
    if path in files && meta.Some? && Truthy(meta.value) then
      var time :- Subscript(meta.value, "download_time");
      var size :- Subscript(meta.value, "file_size");
      Ok(Cached(time, size, path))
    else Ok(NotCached(path))
  }

  /** `get_cache_info` over a list of names; the first exception escapes. */
  function CacheInfo(files: map<string, Bytes>, dir: string, codec: Codec, targets: seq<string>)
    : (r: Result<map<string, CacheEntry>, Error>)
  {
    if targets == [] then Ok(map[])
    else
      var info :- CacheInfo(files, dir, codec, targets[..|targets| - 1]);
      var entry :- Entry(files, dir, codec, targets[|targets| - 1]);
      Ok(info[targets[|targets| - 1] := entry])
  }

  /** `get_cache_info` raises exactly when the entry of some requested name does. */
  lemma {:induction false} CacheInfoRaises(files: map<string, Bytes>, dir: string, codec: Codec, targets: seq<string>)
    ensures CacheInfo(files, dir, codec, targets).Ok? <==>
      forall ds :: ds in targets ==> Entry(files, dir, codec, ds).Ok?
  {
    if targets != [] {
      var init := targets[..|targets| - 1];
      CacheInfoRaises(files, dir, codec, init);
      assert targets == init + [targets[|targets| - 1]];
    }
  }

  /** The report has one entry per requested name. */
  lemma {:induction false} CacheInfoKeys(files: map<string, Bytes>, dir: string, codec: Codec, targets: seq<string>)
    requires CacheInfo(files, dir, codec, targets).Ok?
    ensures forall ds :: ds in CacheInfo(files, dir, codec, targets).value <==> ds in targets
  {
    if targets != [] {
      var init := targets[..|targets| - 1];
      var last := targets[|targets| - 1];
      CacheInfoKeys(files, dir, codec, init);
      assert targets == init + [last];
    }
  }

  /** Each entry of the report is the one `Entry` computes for its name. */
  lemma {:induction false} CacheInfoEntries(files: map<string, Bytes>, dir: string, codec: Codec, targets: seq<string>, ds: string)
    requires CacheInfo(files, dir, codec, targets).Ok? && ds in CacheInfo(files, dir, codec, targets).value
    ensures Entry(files, dir, codec, ds) == Ok(CacheInfo(files, dir, codec, targets).value[ds])
  {
    var init := targets[..|targets| - 1];
    var last := targets[|targets| - 1];
    if ds != last {
      CacheInfoEntries(files, dir, codec, init, ds);
    }
  }

  /** A successful download makes its dataset show as cached, with the time and size it recorded. */
  lemma DownloadedIsCached(files: map<string, Bytes>, dir: string, codec: Codec, dataset: string, force: bool,
                           response: Option<Bytes>, now: Instant)
    requires response.Some? ==>
      RoundTrips(codec, Metadata(dataset, now, CachePath(dir, dataset, "csv"), |Repair.Repair(response.value)|))
    requires DownloadOutcome(files, dir, codec, dataset, force, response, now).result.Ok?
    requires DownloadOutcome(files, dir, codec, dataset, force, response, now).fetched
    ensures Entry(DownloadOutcome(files, dir, codec, dataset, force, response, now).files, dir, codec, dataset)
      == Ok(Cached(JStr(now.iso), JInt(|Repair.Repair(response.value)|), CachePath(dir, dataset, "csv")))
  {
    var o := DownloadOutcome(files, dir, codec, dataset, force, response, now);
    var path := CachePath(dir, dataset, "csv");
    var m := Metadata(dataset, now, path, |Repair.Repair(response.value)|);
    FetchedIsCached(files, dir, codec, dataset, force, response, now);
    MetadataFields(dataset, now, path, |Repair.Repair(response.value)|);
    assert LoadMetadata(o.files, dir, codec, dataset) == Ok(Some(m));
    assert path in o.files && Truthy(m);
  }

  /** The paths `clear_cache` removes for the given names. */
  predicate Owned(dir: string, targets: seq<string>, p: string) {
    exists ds :: ds in targets && (p == CachePath(dir, ds, "csv") || p == MetadataPath(dir, ds))
  }

  /** The cache directory after `clear_cache`: each name's data file and sidecar removed in turn. */
  function Cleared(files: map<string, Bytes>, dir: string, targets: seq<string>): map<string, Bytes> {
    if targets == [] then files
    else
      var last := targets[|targets| - 1];
      Cleared(files, dir, targets[..|targets| - 1]) - {CachePath(dir, last, "csv"), MetadataPath(dir, last)}
  }

  /** Clearing removes exactly the data files and sidecars of the given names and keeps every other
      file as it was. */
  lemma {:induction false} ClearedSpec(files: map<string, Bytes>, dir: string, targets: seq<string>, p: string)
    ensures p in Cleared(files, dir, targets) <==> p in files && !Owned(dir, targets, p)
    ensures p in Cleared(files, dir, targets) ==> Cleared(files, dir, targets)[p] == files[p]
  {
    if targets != [] {
      var i := |targets| - 1;
      ClearedSpec(files, dir, targets[..i], p);
      assert targets[..i + 1] == targets;
      OwnedStep(dir, targets, i, p);
    }
  }

  /** Clearing twice is clearing once. */
  lemma ClearIdempotent(files: map<string, Bytes>, dir: string, targets: seq<string>)
    ensures Cleared(Cleared(files, dir, targets), dir, targets) == Cleared(files, dir, targets)
  {
    var once := Cleared(files, dir, targets);
    forall p
      ensures p in Cleared(once, dir, targets) <==> p in once
      ensures p in once ==> Cleared(once, dir, targets)[p] == once[p]
    {
      ClearedSpec(once, dir, targets, p);
      ClearedSpec(files, dir, targets, p);
    }
  }

  /** After clearing, every cleared dataset reports as not cached, whatever its sidecar said. */
  lemma ClearedIsNotCached(files: map<string, Bytes>, dir: string, codec: Codec, targets: seq<string>, ds: string)
    requires ds in targets
    ensures Entry(Cleared(files, dir, targets), dir, codec, ds) == Ok(NotCached(CachePath(dir, ds, "csv")))
  {
    ClearedSpec(files, dir, targets, MetadataPath(dir, ds));
    ClearedSpec(files, dir, targets, CachePath(dir, ds, "csv"));
  }

  /** The cache manager: a cache directory, the files in it, and the JSON codec. */
  class GVPDownloader {
    const cacheDir: string
    const codec: Codec
    /** Every file the downloader can see, by full path. */
    var files: map<string, Bytes>
    /** How many requests have been sent. */
    ghost var fetches: nat

    /** `__init__`: without a directory, `.volcanoes_cache` under the working directory. */
    constructor (cacheDir: Option<string>, cwd: string, files: map<string, Bytes>, codec: Codec)
      ensures this.cacheDir == if cacheDir.Some? then cacheDir.value else Join(cwd, ".volcanoes_cache")
      ensures this.files == files && this.codec == codec && fetches == 0
    {
      this.cacheDir := if cacheDir.Some? then cacheDir.value else Join(cwd, ".volcanoes_cache");
      this.codec := codec;
      this.files := files;
      fetches := 0;
    }

    /** `_save_metadata`. */
    method SaveMetadata(dataset: string, now: Instant, path: string)
      modifies this
      ensures files == SavedMetadata(old(files), cacheDir, codec, dataset, now, path)
      ensures fetches == old(fetches)
    {
      var size := if path in files then |files[path]| else 0;
      files := files[MetadataPath(cacheDir, dataset) := codec.encode(Metadata(dataset, now, path, size))];
    }

    /** `download`: `response` is what the endpoint would answer (`None` for a failed request),
        `now` the clock reading after it. */
    method Download(dataset: string, force: bool, response: Option<Bytes>, now: Instant) returns (r: Result<string, Error>)
      modifies this
      ensures var o := DownloadOutcome(old(files), cacheDir, codec, dataset, force, response, now);
        r == o.result && files == o.files && fetches == old(fetches) + if o.fetched then 1 else 0
    {
      if dataset !in DatasetNames {
        return Err(UnknownDataset(dataset, DatasetNames));
      }
      var cachePath := CachePath(cacheDir, dataset, "csv");
      if !force && cachePath in files {
        var metadata := LoadMetadata(files, cacheDir, codec, dataset);
        if metadata.Err? {
          return Err(metadata.error);
        }
        if metadata.value.Some? && Truthy(metadata.value.value) {
          var time := Subscript(metadata.value.value, "download_time");
          if time.Err? {
            return Err(time.error);
          }
          return Ok(cachePath);
        }
      }
      var url := DownloadUrl(dataset, "csv");
      fetches := fetches + 1;
      var data := FetchData(url.value, response);
      if data.Err? {
        return Err(data.error);
      }
      files := files[cachePath := data.value];
      SaveMetadata(dataset, now, cachePath);
      return Ok(cachePath);
    }

    /** `export_to_csv`: download, then copy to a non-empty output path (copying a file onto itself
        raises `SameFileError`) and return it, or return the data file. */
    method ExportToCsv(dataset: string, output: Option<string>, force: bool, response: Option<Bytes>, now: Instant)
      returns (r: Result<string, Error>)
      modifies this
      ensures var o := DownloadOutcome(old(files), cacheDir, codec, dataset, force, response, now);
        if o.result.Err? || output.None? || output.value == "" then r == o.result && files == o.files
        else if output.value == o.result.value then r == Err(SameFile(output.value)) && files == o.files
        else r == Ok(output.value) && files == o.files[output.value := o.files[o.result.value]]
    {
      ghost var before := files;
      var cachePath := Download(dataset, force, response, now);
      if cachePath.Err? || output.None? || output.value == "" {
        return cachePath;
      }
      DownloadResult(before, cacheDir, codec, dataset, force, response, now);
      if output.value == cachePath.value {
        return Err(SameFile(output.value));
      }
      files := files[output.value := files[cachePath.value]];
      return Ok(output.value);
    }

    /** `export_to_geojson`: download, read the data file as CSV (`reader` is `csv.DictReader`;
        `None` for a file that is not UTF-8 text), convert it, and write the collection to the
        output path, by default `<cache_dir>/<dataset>.geojson`. */
    method ExportToGeoJson(dataset: string, output: Option<string>, force: bool, response: Option<Bytes>, now: Instant,
                           reader: Bytes -> Option<seq<CsvRow>>, syntax: Values.NumberSyntax)
      returns (r: Result<string, Error>)
      modifies this
      ensures var o := DownloadOutcome(old(files), cacheDir, codec, dataset, force, response, now);
        var out := if output.None? then CachePath(cacheDir, dataset, "geojson") else output.value;
        if o.result.Err? then r == o.result && files == o.files
        else if reader(o.files[o.result.value]).None? then r == Err(DecodeError(o.result.value)) && files == o.files
        else match GeoJson.Features(reader(o.files[o.result.value]).value, syntax)
          case Err(e) => r == Err(e) && files == o.files
          case Ok(features) => r == Ok(out) && files == o.files[out := codec.encode(GeoJson.Collection(features))]
    {
      ghost var before := files;
      var out := if output.None? then CachePath(cacheDir, dataset, "geojson") else output.value;
      var csvPath := Download(dataset, force, response, now);
      if csvPath.Err? {
        return csvPath;
      }
      DownloadResult(before, cacheDir, codec, dataset, force, response, now);
      var rows := reader(files[csvPath.value]);
      if rows.None? {
        return Err(DecodeError(csvPath.value));
      }
      var features := GeoJson.BuildFeatures(rows.value, syntax);
      if features.Err? {
        return Err(features.error);
      }
      files := files[out := codec.encode(GeoJson.Collection(features.value))];
      return Ok(out);
    }

    /** `get_cache_info`. */
    method GetCacheInfo(dataset: Option<string>) returns (r: Result<map<string, CacheEntry>, Error>)
      ensures r == CacheInfo(files, cacheDir, codec, Targets(dataset))
    {
      r := CollectCacheInfo(files, cacheDir, codec, Targets(dataset));
    }

    /** `clear_cache`: removes the data file and the sidecar of every selected name. */
    method ClearCache(dataset: Option<string>)
      modifies this
      ensures files == Cleared(old(files), cacheDir, Targets(dataset))
      ensures fetches == old(fetches)
    {
      files := RemoveCached(files, cacheDir, Targets(dataset));
    }
  }

  /** The loop of `get_cache_info`. */
  method CollectCacheInfo(files: map<string, Bytes>, dir: string, codec: Codec, targets: seq<string>)
    returns (r: Result<map<string, CacheEntry>, Error>)
    ensures r == CacheInfo(files, dir, codec, targets)
  {
    var info: map<string, CacheEntry> := map[];
    var i := 0;
    while i < |targets|
      invariant 0 <= i <= |targets|
      invariant CacheInfo(files, dir, codec, targets[..i]) == Ok(info)
    {
      assert targets[..i + 1][..i] == targets[..i] && targets[..i + 1][i] == targets[i];
      var entry := Entry(files, dir, codec, targets[i]);
      if entry.Err? {
        assert CacheInfo(files, dir, codec, targets[..i + 1]) == Err(entry.error);
        CacheInfoErrPersists(files, dir, codec, targets, i + 1);
        assert targets[..|targets|] == targets;
        return Err(entry.error);
      }
      info := info[targets[i] := entry.value];
      assert CacheInfo(files, dir, codec, targets[..i + 1]) == Ok(info);
      i := i + 1;
    }
    assert targets[..i] == targets;
    return Ok(info);
  }

  /** The loop of `clear_cache`, unlinking each existing file. */
  method RemoveCached(files: map<string, Bytes>, dir: string, targets: seq<string>) returns (r: map<string, Bytes>)
    ensures r == Cleared(files, dir, targets)
  {
    r := files;
    var i := 0;
    while i < |targets|
      invariant 0 <= i <= |targets|
      invariant r == Cleared(files, dir, targets[..i])
    {
      var cachePath := CachePath(dir, targets[i], "csv");
      var metadataPath := MetadataPath(dir, targets[i]);
      ghost var before := r;
      if cachePath in r {
        r := r - {cachePath};
      }
      if metadataPath in r {
        r := r - {metadataPath};
      }
      assert r == before - {cachePath, metadataPath};
      assert targets[..i + 1][..i] == targets[..i] && targets[..i + 1][i] == targets[i];
      i := i + 1;
    }
    assert targets[..i] == targets;
  }

  /** Once `get_cache_info` has raised, no later name changes the outcome. */
  lemma {:induction false} CacheInfoErrPersists(files: map<string, Bytes>, dir: string, codec: Codec, targets: seq<string>, i: nat)
    requires i <= |targets| && CacheInfo(files, dir, codec, targets[..i]).Err?
    ensures CacheInfo(files, dir, codec, targets) == CacheInfo(files, dir, codec, targets[..i])
    decreases |targets| - i
  {
    if i < |targets| {
      assert targets[..i + 1][..i] == targets[..i];
      CacheInfoErrPersists(files, dir, codec, targets, i + 1);
    } else {
      assert targets[..i] == targets;
    }
  }

  /** A path is owned by one more name when it was owned before or is one of that name's files. */
  lemma OwnedStep(dir: string, targets: seq<string>, i: nat, p: string)
    requires i < |targets|
    ensures Owned(dir, targets[..i + 1], p) <==>
      Owned(dir, targets[..i], p) || p == CachePath(dir, targets[i], "csv") || p == MetadataPath(dir, targets[i])
  {
    var next := targets[..i + 1];
    assert next == targets[..i] + [targets[i]];
    if Owned(dir, targets[..i], p) {
      var ds :| ds in targets[..i] && (p == CachePath(dir, ds, "csv") || p == MetadataPath(dir, ds));
      assert ds in next;
    }
    if p == CachePath(dir, targets[i], "csv") || p == MetadataPath(dir, targets[i]) {
      assert targets[i] in next;
    }
  }
}
