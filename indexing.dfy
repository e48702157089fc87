/**
 * `IndexingTask`: walk a directory tree, keep the geodata files, then read
 * each file's metadata from the sqlite cache or from the OGR/GDAL readers.
 */
module Indexing {
  import opened Wrappers
  import opened PyStr
  import opened Gazetteer
  import Trigrams

  const VectorExtensions: seq<string> := [".shp", ".gpkg", ".fgb"]
  const RasterExtensions: seq<string> := [".tif"]
  const TargetExtensions: seq<string> := VectorExtensions + RasterExtensions

  /** The `FindType` codes stored in the cache's geometry_type column. */
  const FindRaster := 1
  const FindVectorPoint := 2
  const FindVectorLine := 3
  const FindVectorPolygon := 4

  /** The first 8 bytes of the SHA-1 of the path, the cache's primary key. */
  type Hash = seq<bv8>

  /** A row of the `files` table: the four bbox columns and geometry_type (NULL is None). */
  datatype CacheRow = CacheRow(bbox: BBox, geometryType: Option<int>)

  type Cache = map<Hash, CacheRow>

  /** One entry of `files`: the dictionary built for each indexed file. */
  datatype FileRecord = FileRecord(
    path: string,
    lastAccessed: int,
    lastModified: int,
    fileType: Option<string>,
    geometryType: Option<string>,
    bbox: Option<BBox>)

  /** `int(st_atime)` and `int(st_mtime)` of `os.stat`. */
  datatype Stat = Stat(atime: int, mtime: int)

  /** How the extent of a vector layer was obtained. */
  datatype Extent =
    | ExtentFailed                                          // an exception while reading the extent
    | NoCrs(minx: real, maxx: real, miny: real, maxy: real)  // `GetExtent()`, kept in its own order
    | NoTransform                                           // no transformation to EPSG:4326
    | TransformFailed                                       // reprojecting a corner raised
    | Transformed(box: BBox)                                // the reprojected corners

  /** What OGR reports for a vector file. */
  datatype VectorRead =
    | VectorUnopenable                                      // `ogr.Open` returned None
    | VectorRaising                                         // an exception outside the extent's `try`,
                                                            // such as a data source without layer 0
    | VectorOpened(geometryName: string, extent: Extent)    // `GeometryTypeToName` of layer 0

  /** How a georeferenced raster's corners were reprojected. */
  datatype RasterCrs = RasterNoCrs | RasterTransformFailed | RasterTransformed(box: BBox)

  /** What GDAL reports for a raster file. */
  datatype RasterRead =
    | RasterUnopenable
    | RasterRaising                                         // an exception outside the reprojection's `try`,
                                                            // such as `ImportFromWkt` failing
    | NoGeoTransform
    | Georeferenced(originX: real, pixelWidth: real, originY: real, pixelHeight: real,
                    width: nat, height: nat, crs: RasterCrs)

  /** One `(root, dirs, files)` triple of `os.walk(dir_path)`, without the dirs. */
  datatype WalkEntry = WalkEntry(root: string, filenames: seq<string>)

  /**
   * The collaborators of `run` that are not modelled: `os.stat` (None when it
   * raises), whether `file_path.encode()` succeeds (it raises
   * UnicodeEncodeError for a name `os.walk` decoded with surrogate escapes),
   * `hash_file_path` for a path that encodes, and what OGR and GDAL report
   * for a file.
   */
  datatype Env = Env(
    stat: string -> Option<Stat>,
    encodes: string -> bool,
    hashPath: string -> Hash,
    readVector: string -> VectorRead,
    readRaster: string -> RasterRead)

  // ---------------------------------------------------------------- walk

  /** Some component of `root.split(os.sep)` starts with ".". */
  predicate HiddenRoot(root: string) {
    SomePartStartsWith(Split(root, '/'), '.')
  }

  /** The walk keeps a file name with a target extension that does not start with ".". */
  predicate Indexable(file: string) {
    EndsWithAny(file, TargetExtensions) && !StartsWith(file, ".")
  }

  predicate AllTargets(paths: seq<string>) {
    forall k :: 0 <= k < |paths| ==> EndsWithAny(paths[k], TargetExtensions)
  }

  /** The paths one walk entry contributes to `files_to_index`, in order. */
  function RootPaths(root: string, filenames: seq<string>): (r: seq<string>)
  {
    if filenames == [] then []
    else
      var init := RootPaths(root, filenames[..|filenames| - 1]);
      var file := filenames[|filenames| - 1];
      if Indexable(file) then init + [PathJoin(root, file)]
      else init
  }

  /** Joining a root to a target file name keeps its extension. */
  lemma JoinKeepsExtension(root: string, file: string)
    requires EndsWithAny(file, TargetExtensions)
    ensures EndsWithAny(PathJoin(root, file), TargetExtensions)
  {
    var i :| 0 <= i < |TargetExtensions| && EndsWith(file, TargetExtensions[i]);
    EndsWithTransitive(PathJoin(root, file), file, TargetExtensions[i]);
  }

  /** What one walk entry adds to `files_to_index`: nothing under a hidden root. */
  function EntryPaths(e: WalkEntry): (r: seq<string>)
  {
    if HiddenRoot(e.root) then [] else RootPaths(e.root, e.filenames)
  }

  /** `files_to_index` after the whole walk. */
  function Candidates(walk: seq<WalkEntry>): (r: seq<string>)
  {
    if walk == [] then [] else Candidates(walk[..|walk| - 1]) + EntryPaths(walk[|walk| - 1])
  }

  /** Every candidate path ends with a target extension. */
  lemma {:induction false} CandidatesAreTargets(walk: seq<WalkEntry>)
    ensures AllTargets(Candidates(walk))
  {
    if walk != [] {
      CandidatesAreTargets(walk[..|walk| - 1]);
      var e := walk[|walk| - 1];
      if !HiddenRoot(e.root) {
        RootPathsAreTargets(e.root, e.filenames);
      }
    }
  }

  lemma {:induction false} RootPathsAreTargets(root: string, filenames: seq<string>)
    ensures AllTargets(RootPaths(root, filenames))
  {
    if filenames != [] {
      RootPathsAreTargets(root, filenames[..|filenames| - 1]);
      var file := filenames[|filenames| - 1];
      if Indexable(file) {
        JoinKeepsExtension(root, file);
      }
    }
  }

  /** `p` is the join of the entry's root with one of its indexable file names. */
  ghost predicate FromEntry(e: WalkEntry, p: string) {
    exists j :: 0 <= j < |e.filenames| && Indexable(e.filenames[j]) && p == PathJoin(e.root, e.filenames[j])
  }

  lemma {:induction false} RootPathsMembership(root: string, filenames: seq<string>, p: string)
    ensures p in RootPaths(root, filenames) <==> FromEntry(WalkEntry(root, filenames), p)
  {
    if filenames != [] {
      RootPathsMembership(root, filenames[..|filenames| - 1], p);
    }
  }

  /**
   * An entry contributes a path exactly when its root has no hidden
   * component and it lists an indexable file name that joins to the path.
   */
  lemma EntryPathsMembership(e: WalkEntry, p: string)
    ensures p in EntryPaths(e) <==> !HiddenRoot(e.root) && FromEntry(e, p)
  {
    RootPathsMembership(e.root, e.filenames, p);
  }

  /** A path is a candidate exactly when some walk entry contributes it. */
  lemma CandidatesMembership(walk: seq<WalkEntry>, p: string)
    ensures p in Candidates(walk) <==> exists i :: 0 <= i < |walk| && p in EntryPaths(walk[i])
  {
    if p in Candidates(walk) {
      var i := EntryOfCandidate(walk, p);
    }
    if exists i :: 0 <= i < |walk| && p in EntryPaths(walk[i]) {
      var i :| 0 <= i < |walk| && p in EntryPaths(walk[i]);
      CandidateOfEntry(walk, p, i);
    }
  }

  /** The entry a candidate comes from. */
  lemma {:induction false} EntryOfCandidate(walk: seq<WalkEntry>, p: string) returns (i: nat)
    requires p in Candidates(walk)
    ensures i < |walk| && p in EntryPaths(walk[i])
  {
    var init := walk[..|walk| - 1];
    if p in Candidates(init) {
      i := EntryOfCandidate(init, p);
      assert walk[i] == init[i];
    } else {
      i := |walk| - 1;
    }
  }

  /** What an entry contributes is a candidate. */
  lemma {:induction false} CandidateOfEntry(walk: seq<WalkEntry>, p: string, i: nat)
    requires i < |walk| && p in EntryPaths(walk[i])
    ensures p in Candidates(walk)
  {
    var init := walk[..|walk| - 1];
    if i < |init| {
      assert init[i] == walk[i];
      CandidateOfEntry(init, p, i);
    }
  }

  // ---------------------------------------------------------------- cache codes

  /** The geometry_type value written for a freshly read file. */
  function EncodeType(fileType: string, geometryType: Option<string>): Option<int> {
    if fileType == "raster" then Some(FindRaster)
    else if geometryType == Some("Point") then Some(FindVectorPoint)
    else if geometryType == Some("Line String") then Some(FindVectorLine)
    else if geometryType == Some("Polygon") then Some(FindVectorPolygon)
    else None
  }

  /** The `type` and `geometry_type` reported for a cache hit. */
  datatype Decoded = Decoded(fileType: Option<string>, geometryType: Option<string>)

  /** Reading a cached code back; None when `FindType(code)` raises ValueError. */
  function DecodeType(code: Option<int>): Option<Decoded> {
    match code
    case None => Some(Decoded(None, None))
    case Some(v) =>
      if v == FindRaster then Some(Decoded(Some("raster"), None))
      else if v == FindVectorPoint then Some(Decoded(Some("vector"), Some("point")))
      else if v == FindVectorLine then Some(Decoded(Some("vector"), Some("line")))
      else if v == FindVectorPolygon then Some(Decoded(Some("vector"), Some("polygon")))
      else None
  }

  /**
   * A code the indexer wrote always reads back. The file type survives the
   * cache exactly for rasters and for the three named vector geometries; a
   * vector geometry name never survives it, since hits report the lower-case
   * short names and fresh reads the OGR names.
   */
  lemma CacheCodeRoundTrip(fileType: string, geometryType: Option<string>)
    requires fileType == "raster" ==> geometryType == None
    ensures DecodeType(EncodeType(fileType, geometryType)).Some?
    ensures DecodeType(EncodeType(fileType, geometryType)).value.fileType == Some(fileType) <==>
              fileType == "raster" ||
              (fileType == "vector" &&
               (geometryType == Some("Point") || geometryType == Some("Line String") || geometryType == Some("Polygon")))
    ensures fileType == "raster" ==> DecodeType(EncodeType(fileType, geometryType)).value.geometryType == geometryType
    ensures fileType != "raster" && geometryType.Some? ==>
              DecodeType(EncodeType(fileType, geometryType)).value.geometryType != geometryType
  {
  }

  // ---------------------------------------------------------------- one file

  /** The metadata of a freshly read file. */
  datatype Extracted = Extracted(fileType: string, geometryType: Option<string>, bbox: Option<BBox>)

  /**
   * What reading a file that missed the cache gives: skipped by `continue`,
   * an exception that leaves the file loop, or the file's metadata.
   */
  datatype Reading = Skipped | Raising | Read(value: Extracted)

  /**
   * The OGR branch: the file is skipped when OGR cannot open it or no
   * transformation exists; otherwise it is a vector with OGR's geometry name,
   * whose bbox is the reprojected corners, the `GetExtent()` tuple as it
   * stands when the layer has no valid CRS, and None when reading the extent
   * or reprojecting failed.
   */
  function VectorMetadata(v: VectorRead): (r: Reading)
    ensures r.Skipped? <==> v.VectorUnopenable? || (v.VectorOpened? && v.extent.NoTransform?)
    ensures r.Raising? <==> v.VectorRaising?
    ensures r.Read? ==> v.VectorOpened? && r.value.fileType == "vector" && r.value.geometryType == Some(v.geometryName)
    ensures r.Read? && v.extent.Transformed? ==> r.value.bbox == Some(v.extent.box)
    ensures r.Read? && v.extent.NoCrs? ==>
      r.value.bbox == Some(BBox(v.extent.minx, v.extent.maxx, v.extent.miny, v.extent.maxy))
    ensures r.Read? && (v.extent.ExtentFailed? || v.extent.TransformFailed?) ==> r.value.bbox.None?
  {
    match v
    case VectorUnopenable => Skipped
    case VectorRaising => Raising
    case VectorOpened(name, extent) =>
      match extent
      case NoTransform => Skipped
      case ExtentFailed => Read(Extracted("vector", Some(name), None))
      case TransformFailed => Read(Extracted("vector", Some(name), None))
      case NoCrs(minx, maxx, miny, maxy) => Read(Extracted("vector", Some(name), Some(BBox(minx, maxx, miny, maxy))))
      case Transformed(box) => Read(Extracted("vector", Some(name), Some(box)))
  }

  /** The corners spanned by a geotransform: origin, pixel sizes and raster size. */
  function GeoBounds(g: RasterRead): BBox
    requires g.Georeferenced?
  {
    var maxx := g.originX + (g.width as real) * g.pixelWidth;
    var miny := g.originY + (g.height as real) * g.pixelHeight;
    BBox(g.originX, miny, maxx, g.originY)
  }

  /** For a north-up raster (positive pixel width, negative pixel height) the corners are ordered. */
  lemma NorthUpBoundsOrdered(g: RasterRead)
    requires g.Georeferenced? && g.pixelWidth > 0.0 && g.pixelHeight < 0.0
    ensures GeoBounds(g).minx <= GeoBounds(g).maxx && GeoBounds(g).miny <= GeoBounds(g).maxy
  {
    var w := g.width as real;
    var h := g.height as real;
    assert w * g.pixelWidth >= 0.0;
    assert h * g.pixelHeight <= 0.0;
  }

  /** The GDAL branch: the raster's bbox, or None. */
  function RasterBounds(g: RasterRead): (r: Option<BBox>)
    ensures g.Georeferenced? && g.crs.RasterNoCrs? ==> r == Some(GeoBounds(g))
    ensures g.Georeferenced? && g.crs.RasterTransformed? ==> r == Some(g.crs.box)
    ensures !g.Georeferenced? || g.crs.RasterTransformFailed? ==> r.None?
  {
    match g
    case RasterUnopenable => None
    case RasterRaising => None
    case NoGeoTransform => None
    case Georeferenced(_, _, _, _, _, _, crs) =>
      match crs
      case RasterNoCrs => Some(GeoBounds(g))
      case RasterTransformFailed => None
      case RasterTransformed(box) => Some(box)
  }

  /** A target path's basename ends with a vector or a raster extension. */
  lemma BasenameKeepsExtension(path: string)
    requires EndsWithAny(path, TargetExtensions)
    ensures EndsWithAny(Basename(path), VectorExtensions) || EndsWithAny(Basename(path), RasterExtensions)
  {
    var i :| 0 <= i < |TargetExtensions| && EndsWith(path, TargetExtensions[i]);
    var ext := TargetExtensions[i];
    assert forall k :: 0 <= k < |ext| ==> ext[k] != '/';
    BasenameEndsWith(path, ext);
    if i < 3 {
      assert VectorExtensions[i] == ext;
    } else {
      assert RasterExtensions[0] == ext;
    }
  }

  /** The GDAL branch: a raster without geometry type, unless something outside its `try` raised. */
  function RasterMetadata(g: RasterRead): (r: Reading)
    ensures r.Raising? <==> g.RasterRaising?
    ensures r.Read? ==> r.value == Extracted("raster", None, RasterBounds(g))
    ensures !r.Skipped?
  {
    if g.RasterRaising? then Raising else Read(Extracted("raster", None, RasterBounds(g)))
  }

  /**
   * Reading a file that missed the cache, dispatched on its basename's
   * extension: vector extensions first, then raster ones.
   */
  function ReadMetadata(env: Env, path: string): (r: Reading)
    ensures EndsWithAny(Basename(path), VectorExtensions) ==> r == VectorMetadata(env.readVector(path))
    ensures !EndsWithAny(Basename(path), VectorExtensions) && EndsWithAny(Basename(path), RasterExtensions) ==>
      r == RasterMetadata(env.readRaster(path))
    ensures r.Read? && r.value.fileType == "raster" ==> r.value.geometryType.None?
  {
    var filename := Basename(path);
    if EndsWithAny(filename, VectorExtensions) then
      VectorMetadata(env.readVector(path))
    else if EndsWithAny(filename, RasterExtensions) then
      RasterMetadata(env.readRaster(path))
    else
      Skipped
  }

  /**
   * Every walk candidate goes to the OGR branch or to the GDAL branch; the
   * fallthrough of `ReadMetadata` never arises for one.
   */
  lemma CandidatesAreDispatched(env: Env, path: string)
    requires EndsWithAny(path, TargetExtensions)
    ensures ReadMetadata(env, path) == VectorMetadata(env.readVector(path)) ||
            ReadMetadata(env, path) == RasterMetadata(env.readRaster(path))
  {
    BasenameKeepsExtension(path);
  }

  /** The outcome of one file: its record (None when skipped), the cache, whether a reader ran. */
  datatype Step = Step(record: Option<FileRecord>, cache: Cache, extracted: bool)

  /**
   * One iteration of the file loop; None when it raises. It raises exactly
   * after a failing `os.stat`, or, with sqlite on, a path that does not
   * encode, or a cache hit whose code does not decode, or a miss whose reader
   * raises. It records only its own path, never changes a row the cache
   * already holds, adds at most the row under the path's hash, and skips the
   * reader only on a cache hit.
   */
  function ProcessFile(env: Env, useSqlite: bool, cache: Cache, path: string): (r: Option<Step>)
    ensures var h := env.hashPath(path);
      r.None? <==>
        || env.stat(path).None?
        || (useSqlite && !env.encodes(path))
        || (useSqlite && h in cache && DecodeType(cache[h].geometryType).None?)
        || (!(useSqlite && h in cache) && ReadMetadata(env, path).Raising?)
    ensures r.Some? && r.value.record.Some? ==> r.value.record.value.path == path
    ensures r.Some? ==> forall h :: h in cache ==> h in r.value.cache && r.value.cache[h] == cache[h]
    ensures r.Some? ==> r.value.cache.Keys <= cache.Keys + {env.hashPath(path)}
    ensures r.Some? && !useSqlite ==> r.value.cache == cache
    ensures r.Some? && !r.value.extracted ==> useSqlite && env.hashPath(path) in cache
  {
    match env.stat(path)
    case None => None
    case Some(st) =>
      var h := env.hashPath(path);
      if useSqlite && !env.encodes(path) then None
      else if useSqlite && h in cache then
        match DecodeType(cache[h].geometryType)
        case None => None
        case Some(d) =>
          Some(Step(Some(FileRecord(path, st.atime, st.mtime, d.fileType, d.geometryType, Some(cache[h].bbox))),
                    cache, false))
      else
        match ReadMetadata(env, path)
        case Raising => None
        case Skipped => Some(Step(None, cache, true))
        case Read(m) =>
          var written :=
            if useSqlite && m.bbox.Some? then cache[h := CacheRow(m.bbox.value, EncodeType(m.fileType, m.geometryType))]
            else cache;
          Some(Step(Some(FileRecord(path, st.atime, st.mtime, Some(m.fileType), m.geometryType, m.bbox)),
                    written, true))
  }

  /**
   * One file: a failing `os.stat` raises, and so does, with sqlite on, a
   * path that does not encode for `hash_file_path`. A cache hit yields the record
   * with the stat times, the decoded type and the cached bbox, leaves the
   * cache as it is and calls no reader; an undecodable code raises. A miss
   * calls the reader: a skipped file yields no record; a read file yields the
   * record of its metadata, and with sqlite on and a bbox found, the row for
   * it is written under the path's hash.
   */
  lemma ProcessFileOutcome(env: Env, useSqlite: bool, cache: Cache, path: string)
    ensures env.stat(path).None? ==> ProcessFile(env, useSqlite, cache, path).None?
    ensures useSqlite && !env.encodes(path) ==> ProcessFile(env, useSqlite, cache, path).None?
    ensures var o := ProcessFile(env, useSqlite, cache, path);
      var h := env.hashPath(path);
      env.stat(path).Some? && useSqlite && env.encodes(path) && h in cache ==>
        var st := env.stat(path).value;
        var d := DecodeType(cache[h].geometryType);
        (o.None? <==> d.None?) &&
        (o.Some? ==> o.value == Step(Some(FileRecord(path, st.atime, st.mtime, d.value.fileType, d.value.geometryType,
                                                     Some(cache[h].bbox))), cache, false))
    ensures var o := ProcessFile(env, useSqlite, cache, path);
      var h := env.hashPath(path);
      env.stat(path).Some? && (useSqlite ==> env.encodes(path)) && !(useSqlite && h in cache) ==>
        var st := env.stat(path).value;
        var rd := ReadMetadata(env, path);
        (o.None? <==> rd.Raising?) &&
        (rd.Skipped? ==> o == Some(Step(None, cache, true))) &&
        (rd.Read? ==>
           var m := rd.value;
           o == Some(Step(Some(FileRecord(path, st.atime, st.mtime, Some(m.fileType), m.geometryType, m.bbox)),
                          if useSqlite && m.bbox.Some? then cache[h := CacheRow(m.bbox.value, EncodeType(m.fileType, m.geometryType))]
                          else cache,
                          true)))
  {
  }

  // ---------------------------------------------------------------- the file loop

  /** Floor division of naturals by repeated subtraction. */
  function Quotient(a: nat, d: nat): nat
    requires d > 0
    decreases a
  {
    if a < d then 0 else 1 + Quotient(a - d, d)
  }

  /** `Quotient` is floor division: the quotient times `d` lies within `d` below `a`. */
  lemma {:induction false} QuotientIsFloor(a: nat, d: nat)
    requires d > 0
    ensures Quotient(a, d) * d <= a < Quotient(a, d) * d + d
    decreases a
  {
    if a >= d {
      QuotientIsFloor(a - d, d);
      assert Quotient(a, d) * d == Quotient(a - d, d) * d + d;
    }
  }

  lemma {:induction false} QuotientMonotone(a: nat, b: nat, d: nat)
    requires a <= b && d > 0
    ensures Quotient(a, d) <= Quotient(b, d)
    decreases a
  {
    if a >= d {
      QuotientMonotone(a - d, b - d, d);
    }
  }

  lemma {:induction false} QuotientOfMultiple(m: nat, d: nat)
    requires d > 0
    ensures Quotient(m * d, d) == m
    decreases m
  {
    if m > 0 {
      assert m * d - d == (m - 1) * d;
      QuotientOfMultiple(m - 1, d);
    }
  }

  lemma {:induction false} QuotientBelow(a: nat, d: nat, m: nat)
    requires d > 0 && a < m * d
    ensures Quotient(a, d) < m
    decreases a
  {
    if a >= d {
      assert a - d < (m - 1) * d;
      QuotientBelow(a - d, d, m - 1);
    }
  }

  /** `int(100 * processed / total)`: the floor of the percentage. */
  function Percent(processed: nat, total: nat): int
    requires total > 0
  {
    Quotient(100 * processed, total)
  }

  /** The progress percentage grows with the count and reaches 100 exactly at the end. */
  lemma PercentBounds(j: nat, k: nat, total: nat)
    requires j <= k <= total && total > 0
    ensures 0 <= Percent(j, total) <= Percent(k, total) <= 100
    ensures Percent(k, total) == 100 <==> k == total
  {
    QuotientMonotone(100 * j, 100 * k, total);
    QuotientMonotone(100 * k, 100 * total, total);
    QuotientOfMultiple(100, total);
    assert 100 * total == 100 * total;
    if k < total {
      QuotientBelow(100 * k, total, 100);
    }
  }

  /**
   * The state `run` builds: the task's files, trigrams, processed count, the
   * progress values set so far, the uncommitted cache, the paths handed to a
   * reader, and whether an exception escaped.
   */
  datatype Pass = Pass(
    files: seq<FileRecord>,
    trigrams: map<string, set<string>>,
    cache: Cache,
    processed: nat,
    progressLog: seq<int>,
    extractorCalls: seq<string>,
    raised: bool)

  /** One pass of the file loop body, after the cancellation check. */
  function Advance(env: Env, useSqlite: bool, total: nat, p: Pass, path: string): Pass
    requires total > 0
  {
    Absorb(total, p, path, ProcessFile(env, useSqlite, p.cache, path))
  }

  /** How the pass takes in the outcome of processing `path`. */
  function Absorb(total: nat, p: Pass, path: string, outcome: Option<Step>): Pass
    requires total > 0
  {
    var processed := p.processed + 1;
    var logged := p.progressLog + [Percent(processed, total)];
    match outcome
    case None => p.(processed := processed, progressLog := logged, raised := true)
    case Some(s) =>
      var calls := if s.extracted then p.extractorCalls + [path] else p.extractorCalls;
      match s.record
      case None => p.(processed := processed, progressLog := logged, cache := s.cache, extractorCalls := calls)
      case Some(rec) =>
        Pass(p.files + [rec], p.trigrams[path := Trigrams.GetTrigrams(path)], s.cache,
             processed, logged, calls, false)
  }

  /** The percentages logged for counts `start + 1` to `start + m`. */
  function Percents(start: nat, m: nat, total: nat): (r: seq<int>)
    requires total > 0
    ensures |r| == m
  {
    if m == 0 then [] else Percents(start, m - 1, total) + [Percent(start + m, total)]
  }

  /** The file loop over `paths`, stopping at the first exception. */
  function ProcessPaths(env: Env, useSqlite: bool, total: nat, p: Pass, paths: seq<string>): (q: Pass)
    requires |paths| <= total
    ensures p.processed <= q.processed <= p.processed + |paths|
    ensures !q.raised ==> q.processed == p.processed + |paths|
    ensures p.raised ==> q == p
    decreases |paths|
  {
    if paths == [] then p
    else
      var q := ProcessPaths(env, useSqlite, total, p, paths[..|paths| - 1]);
      if q.raised then q else Advance(env, useSqlite, total, q, paths[|paths| - 1])
  }

  /** One step counts the file and logs the percentage reached. */
  lemma StepLogs(env: Env, useSqlite: bool, total: nat, q: Pass, path: string)
    requires total > 0
    ensures var r := Advance(env, useSqlite, total, q, path);
      r.processed == q.processed + 1 && r.progressLog == q.progressLog + [Percent(r.processed, total)]
  {
  }

  /** Every file entered logs the percentage of the count reached, in order. */
  lemma {:induction false} ProgressLogged(env: Env, useSqlite: bool, total: nat, p: Pass, paths: seq<string>)
    requires 0 < total && |paths| <= total
    ensures var q := ProcessPaths(env, useSqlite, total, p, paths);
      q.progressLog == p.progressLog + Percents(p.processed, q.processed - p.processed, total)
    decreases |paths|
  {
    if paths != [] {
      var init, last := paths[..|paths| - 1], paths[|paths| - 1];
      ProgressLogged(env, useSqlite, total, p, init);
      var q := ProcessPaths(env, useSqlite, total, p, init);
      var r := ProcessPaths(env, useSqlite, total, p, paths);
      assert r == if q.raised then q else Advance(env, useSqlite, total, q, last);
      if !q.raised {
        StepLogs(env, useSqlite, total, q, last);
        var m := q.processed - p.processed;
        assert r.processed == p.processed + m + 1;
        assert Percents(p.processed, m + 1, total) == Percents(p.processed, m, total) + [Percent(r.processed, total)];
      }
    }
  }

  /** `isCanceled()` returns true from poll number `cancelAt` on. */
  predicate CanceledAt(cancelAt: Option<nat>, poll: nat) {
    cancelAt.Some? && cancelAt.value <= poll
  }

  /** How many candidates the file loop enters before a cancellation stops it. */
  function FilesEntered(polled: nat, cancelAt: Option<nat>, paths: seq<string>): (k: nat)
    ensures k <= |paths|
    ensures k < |paths| <==> cancelAt.Some? && polled <= cancelAt.value < polled + |paths|
    ensures k < |paths| ==> k == cancelAt.value - polled
  {
    if cancelAt.Some? && polled <= cancelAt.value < polled + |paths| then cancelAt.value - polled else |paths|
  }

  /** What `run` returns, the state it leaves, and the cache as committed afterwards. */
  datatype RunResult = RunResult(ok: bool, pass: Pass, committed: Cache)

  /**
   * `run` as a function: one cancellation poll per walk entry, then one per
   * candidate; the cache is committed only when `run` returns true.
   */
  function RunSpec(walk: seq<WalkEntry>, env: Env, useSqlite: bool, cancelAt: Option<nat>, p0: Pass): (r: RunResult)
    ensures r.ok <==> !(cancelAt.Some? && cancelAt.value < |walk| + |Candidates(walk)|) && !r.pass.raised
    ensures !r.ok ==> r.committed == p0.cache
  {
    if cancelAt.Some? && cancelAt.value < |walk| then RunResult(false, p0, p0.cache)
    else
      var paths := Candidates(walk);
      var k := FilesEntered(|walk|, cancelAt, paths);
      var p := ProcessPaths(env, useSqlite, |paths|, p0, paths[..k]);
      var ok := k == |paths| && !p.raised;
      RunResult(ok, p, if ok then p.cache else p0.cache)
  }

  // ---------------------------------------------------------------- properties of the loop

  lemma {:induction false} PercentsValues(start: nat, m: nat, total: nat)
    requires total > 0
    ensures forall a :: 0 <= a < m ==> Percents(start, m, total)[a] == Percent(start + a + 1, total)
  {
    if m > 0 {
      PercentsValues(start, m - 1, total);
    }
  }

  /** The logged percentages never fall, stay within 0..100, and the last of a full run is 100. */
  lemma PercentsShape(m: nat, total: nat)
    requires 0 < total && m <= total
    ensures var log := Percents(0, m, total);
      (forall a, b :: 0 <= a <= b < m ==> 0 <= log[a] <= log[b] <= 100) &&
      (m == total ==> log[m - 1] == 100)
  {
    var log := Percents(0, m, total);
    PercentsValues(0, m, total);
    forall a, b | 0 <= a <= b < m
      ensures 0 <= log[a] <= log[b] <= 100
    {
      PercentBounds(a + 1, b + 1, total);
    }
    PercentBounds(m, m, total);
  }

  /**
   * For a fresh task, the progress values are non-decreasing and within
   * 0..100, there is one per file entered, and a run that returns true has
   * set 100 last whenever there was a file to index.
   */
  lemma RunProgress(walk: seq<WalkEntry>, env: Env, useSqlite: bool, cancelAt: Option<nat>, p0: Pass)
    requires p0.processed == 0 && p0.progressLog == [] && !p0.raised
    ensures var r := RunSpec(walk, env, useSqlite, cancelAt, p0);
      var log := r.pass.progressLog;
      |log| == r.pass.processed &&
      (forall a, b :: 0 <= a <= b < |log| ==> 0 <= log[a] <= log[b] <= 100) &&
      (r.ok && |Candidates(walk)| > 0 ==> log[|log| - 1] == 100)
  {
    var r := RunSpec(walk, env, useSqlite, cancelAt, p0);
    var paths := Candidates(walk);
    var total := |paths|;
    if !(cancelAt.Some? && cancelAt.value < |walk|) && total > 0 {
      var k := FilesEntered(|walk|, cancelAt, paths);
      assert r.pass == ProcessPaths(env, useSqlite, total, p0, paths[..k]);
      ProgressLogged(env, useSqlite, total, p0, paths[..k]);
      PercentsShape(r.pass.processed, total);
    }
  }

  /** One step appends at most one record, and only for `path`. */
  lemma StepRecords(env: Env, useSqlite: bool, total: nat, q: Pass, path: string)
    requires total > 0
    ensures var r := Advance(env, useSqlite, total, q, path);
      |q.files| <= |r.files| <= |q.files| + 1 && r.files[..|q.files|] == q.files &&
      (|r.files| > |q.files| ==> r.files[|q.files|].path == path && r.trigrams == q.trigrams[path := Trigrams.GetTrigrams(path)]) &&
      (|r.files| == |q.files| ==> r.trigrams == q.trigrams)
  {
  }

  /** One step keeps the rows it found and writes at most the row of the record it appends. */
  lemma StepCache(env: Env, useSqlite: bool, total: nat, q: Pass, path: string)
    requires total > 0
    ensures var r := Advance(env, useSqlite, total, q, path);
      (forall h :: h in q.cache ==> h in r.cache && r.cache[h] == q.cache[h]) &&
      (forall h :: h in r.cache && h !in q.cache ==>
         |r.files| == |q.files| + 1 && RowFor(env, r.files[|q.files|], h, r.cache[h])) &&
      (!useSqlite ==> r.cache == q.cache)
  {
  }

  /** One step calls a reader exactly when the cache could not answer and nothing raised before. */
  lemma StepCalls(env: Env, useSqlite: bool, total: nat, q: Pass, path: string)
    requires total > 0
    ensures var r := Advance(env, useSqlite, total, q, path);
      (useSqlite && env.hashPath(path) in q.cache ==> r.extractorCalls == q.extractorCalls) &&
      (!(useSqlite && env.hashPath(path) in q.cache) && !r.raised ==> r.extractorCalls == q.extractorCalls + [path]) &&
      r.cache.Keys >= q.cache.Keys
  {
  }

  /** The files loop keeps the earlier records and adds records only for paths it was given. */
  lemma {:induction false} RecordsFromPaths(env: Env, useSqlite: bool, total: nat, p: Pass, paths: seq<string>)
    requires |paths| <= total
    ensures var q := ProcessPaths(env, useSqlite, total, p, paths);
      |p.files| <= |q.files| && q.files[..|p.files|] == p.files &&
      forall i :: |p.files| <= i < |q.files| ==> q.files[i].path in paths
    decreases |paths|
  {
    if paths != [] {
      var init := paths[..|paths| - 1];
      RecordsFromPaths(env, useSqlite, total, p, init);
      var q := ProcessPaths(env, useSqlite, total, p, init);
      if !q.raised {
        StepRecords(env, useSqlite, total, q, paths[|paths| - 1]);
        var r := Advance(env, useSqlite, total, q, paths[|paths| - 1]);
        RecordsGrow(p.files, q.files, r.files, paths);
      } else {
        RecordsGrow(p.files, q.files, q.files, paths);
      }
    }
  }

  /**
   * The records step of `RecordsFromPaths`: `after` extends `before` by at
   * most the record of the last path.
   */
  lemma RecordsGrow(start: seq<FileRecord>, before: seq<FileRecord>, after: seq<FileRecord>, paths: seq<string>)
    requires paths != []
    requires |start| <= |before| && before[..|start|] == start
    requires forall i :: |start| <= i < |before| ==> before[i].path in paths[..|paths| - 1]
    requires |before| <= |after| <= |before| + 1 && after[..|before|] == before
    requires |after| > |before| ==> after[|before|].path == paths[|paths| - 1]
    ensures |start| <= |after| && after[..|start|] == start
    ensures forall i :: |start| <= i < |after| ==> after[i].path in paths
  {
    assert after[..|start|] == after[..|before|][..|start|];
    forall i | |start| <= i < |after|
      ensures after[i].path in paths
    {
      if i < |before| {
        assert after[i] == before[i];
        assert before[i].path in paths[..|paths| - 1];
      }
    }
  }


  /** The trigram map holds, for exactly the indexed paths, the trigrams of each path. */
  ghost predicate TrigramsConsistent(files: seq<FileRecord>, trigrams: map<string, set<string>>) {
    (forall p :: p in trigrams <==> exists i :: 0 <= i < |files| && files[i].path == p) &&
    (forall p :: p in trigrams ==> trigrams[p] == Trigrams.GetTrigrams(p))
  }

  /** The file loop keeps `filename_trigrams` in step with `files`. */
  lemma {:induction false} TrigramsStayConsistent(env: Env, useSqlite: bool, total: nat, p: Pass, paths: seq<string>)
    requires |paths| <= total
    requires TrigramsConsistent(p.files, p.trigrams)
    ensures var q := ProcessPaths(env, useSqlite, total, p, paths);
      TrigramsConsistent(q.files, q.trigrams)
    decreases |paths|
  {
    if paths != [] {
      var init := paths[..|paths| - 1];
      TrigramsStayConsistent(env, useSqlite, total, p, init);
      var q := ProcessPaths(env, useSqlite, total, p, init);
      if !q.raised {
        var path := paths[|paths| - 1];
        StepRecords(env, useSqlite, total, q, path);
        var r := Advance(env, useSqlite, total, q, path);
        if |r.files| > |q.files| {
          assert r.files == q.files + [r.files[|q.files|]];
          TrigramsGrow(q.files, q.trigrams, r.files[|q.files|]);
        }
      }
    }
  }

  /** Appending a record and the trigrams of its path keeps the two in step. */
  lemma TrigramsGrow(files: seq<FileRecord>, trigrams: map<string, set<string>>, rec: FileRecord)
    requires TrigramsConsistent(files, trigrams)
    ensures TrigramsConsistent(files + [rec], trigrams[rec.path := Trigrams.GetTrigrams(rec.path)])
  {
    var files' := files + [rec];
    var m := trigrams[rec.path := Trigrams.GetTrigrams(rec.path)];
    forall x | x in m
      ensures exists i :: 0 <= i < |files'| && files'[i].path == x
    {
      if x == rec.path {
        assert files'[|files|].path == x;
      } else {
        var i :| 0 <= i < |files| && files[i].path == x;
        assert files'[i].path == x;
      }
    }
    forall i | 0 <= i < |files'|
      ensures files'[i].path in m
    {
      if i < |files| {
        assert files[i] == files'[i];
      }
    }
  }

  /** `row` at key `h` is the row written for `rec`: its path's hash, its bbox, its type code. */
  ghost predicate RowFor(env: Env, rec: FileRecord, h: Hash, row: CacheRow) {
    env.hashPath(rec.path) == h && rec.bbox == Some(row.bbox) && rec.fileType.Some? &&
    row.geometryType == EncodeType(rec.fileType.value, rec.geometryType)
  }

  /** Row `row` at key `h` was written for one of the records `files[from..]`. */
  ghost predicate RowWrittenFor(env: Env, files: seq<FileRecord>, from: nat, h: Hash, row: CacheRow) {
    exists i :: from <= i < |files| && RowFor(env, files[i], h, row)
  }

  /**
   * Cache rows present before the loop are never changed; every other row was
   * written for a record the loop added, which has a bbox and whose type the
   * row encodes; without sqlite the cache is untouched.
   */
  lemma {:induction false} CacheWrites(env: Env, useSqlite: bool, total: nat, p: Pass, paths: seq<string>)
    requires |paths| <= total
    ensures var q := ProcessPaths(env, useSqlite, total, p, paths);
      (forall h :: h in p.cache ==> h in q.cache && q.cache[h] == p.cache[h]) &&
      (forall h :: h in q.cache && h !in p.cache ==> RowWrittenFor(env, q.files, |p.files|, h, q.cache[h])) &&
      (!useSqlite ==> q.cache == p.cache)
    decreases |paths|
  {
    if paths != [] {
      var init := paths[..|paths| - 1];
      CacheWrites(env, useSqlite, total, p, init);
      RecordsFromPaths(env, useSqlite, total, p, init);
      var q := ProcessPaths(env, useSqlite, total, p, init);
      if !q.raised {
        var path := paths[|paths| - 1];
        StepCache(env, useSqlite, total, q, path);
        StepRecords(env, useSqlite, total, q, path);
        var r := Advance(env, useSqlite, total, q, path);
        forall h | h in r.cache && h !in p.cache
          ensures RowWrittenFor(env, r.files, |p.files|, h, r.cache[h])
        {
          if h in q.cache {
            var i :| |p.files| <= i < |q.files| && RowFor(env, q.files[i], h, q.cache[h]);
            assert r.files[i] == q.files[i];
          } else {
            assert RowFor(env, r.files[|q.files|], h, r.cache[h]);
          }
        }
      }
    }
  }

  /**
   * With sqlite on and every path already cached, no reader is called; with
   * sqlite off, a loop that does not raise calls a reader for every path.
   */
  lemma {:induction false} ReaderCalls(env: Env, useSqlite: bool, total: nat, p: Pass, paths: seq<string>)
    requires |paths| <= total
    ensures var q := ProcessPaths(env, useSqlite, total, p, paths);
      (useSqlite && (forall k :: 0 <= k < |paths| ==> env.hashPath(paths[k]) in p.cache) ==>
         q.extractorCalls == p.extractorCalls) &&
      (!useSqlite && !q.raised ==> q.extractorCalls == p.extractorCalls + paths)
    decreases |paths|
  {
    if paths != [] {
      var init := paths[..|paths| - 1];
      var last := paths[|paths| - 1];
      ReaderCalls(env, useSqlite, total, p, init);
      CacheWrites(env, useSqlite, total, p, init);
      var q := ProcessPaths(env, useSqlite, total, p, init);
      if !q.raised {
        StepCalls(env, useSqlite, total, q, last);
        if useSqlite && (forall k :: 0 <= k < |paths| ==> env.hashPath(paths[k]) in p.cache) {
          assert forall k :: 0 <= k < |init| ==> init[k] == paths[k];
          assert env.hashPath(last) in q.cache;
        }
      }
      InitLast(paths);
    }
  }

  /**
   * What the committed cache holds after a run: the working table when the
   * run returned true, the old cache otherwise; old rows are kept as they
   * were, and each new row belongs to a record of this run that has a bbox.
   */
  lemma CommittedCache(walk: seq<WalkEntry>, env: Env, useSqlite: bool, cancelAt: Option<nat>, p0: Pass)
    ensures var r := RunSpec(walk, env, useSqlite, cancelAt, p0);
      (!r.ok ==> r.committed == p0.cache) && (r.ok ==> r.committed == r.pass.cache) &&
      (forall h :: h in p0.cache ==> h in r.committed && r.committed[h] == p0.cache[h]) &&
      (forall h :: h in r.committed && h !in p0.cache ==> RowWrittenFor(env, r.pass.files, |p0.files|, h, r.committed[h]))
  {
    if !(cancelAt.Some? && cancelAt.value < |walk|) {
      var paths := Candidates(walk);
      var k := FilesEntered(|walk|, cancelAt, paths);
      CacheWrites(env, useSqlite, |paths|, p0, paths[..k]);
    }
  }

  /**
   * A run keeps the task's earlier records, adds only records for candidate
   * paths, and keeps `filename_trigrams` in step with `files`.
   */
  lemma RunRecords(walk: seq<WalkEntry>, env: Env, useSqlite: bool, cancelAt: Option<nat>, p0: Pass)
    requires TrigramsConsistent(p0.files, p0.trigrams)
    ensures var r := RunSpec(walk, env, useSqlite, cancelAt, p0);
      |p0.files| <= |r.pass.files| && r.pass.files[..|p0.files|] == p0.files &&
      (forall i :: |p0.files| <= i < |r.pass.files| ==> r.pass.files[i].path in Candidates(walk)) &&
      TrigramsConsistent(r.pass.files, r.pass.trigrams)
  {
    if !(cancelAt.Some? && cancelAt.value < |walk|) {
      var paths := Candidates(walk);
      var k := FilesEntered(|walk|, cancelAt, paths);
      RecordsFromPaths(env, useSqlite, |paths|, p0, paths[..k]);
      TrigramsStayConsistent(env, useSqlite, |paths|, p0, paths[..k]);
      var q := RunSpec(walk, env, useSqlite, cancelAt, p0).pass;
      forall i | |p0.files| <= i < |q.files|
        ensures q.files[i].path in paths
      {
        assert q.files[i].path in paths[..k];
      }
    }
  }

  /** With sqlite on and every candidate cached, a run calls no reader. */
  lemma WarmCacheReadsNothing(walk: seq<WalkEntry>, env: Env, cancelAt: Option<nat>, p0: Pass)
    requires forall k :: 0 <= k < |Candidates(walk)| ==> env.hashPath(Candidates(walk)[k]) in p0.cache
    ensures RunSpec(walk, env, true, cancelAt, p0).pass.extractorCalls == p0.extractorCalls
  {
    if !(cancelAt.Some? && cancelAt.value < |walk|) {
      var paths := Candidates(walk);
      var k := FilesEntered(|walk|, cancelAt, paths);
      assert forall j :: 0 <= j < k ==> paths[..k][j] == paths[j];
      ReaderCalls(env, true, |paths|, p0, paths[..k]);
    }
  }

  // ---------------------------------------------------------------- records, boxes and reads

  /** Every record from index `from` on that has a bbox finds it in `cache` under its path's hash. */
  ghost predicate BoxesCached(env: Env, files: seq<FileRecord>, from: nat, cache: Cache) {
    forall i :: from <= i < |files| && files[i].bbox.Some? ==>
      env.hashPath(files[i].path) in cache && cache[env.hashPath(files[i].path)].bbox == files[i].bbox.value
  }

  /** With sqlite on, one step keeps every record's bbox in the cache. */
  lemma StepKeepsBoxes(env: Env, total: nat, q: Pass, path: string, from: nat)
    requires total > 0 && BoxesCached(env, q.files, from, q.cache)
    ensures var r := Advance(env, true, total, q, path);
      BoxesCached(env, r.files, from, r.cache)
  {
    ProcessFileOutcome(env, true, q.cache, path);
    StepCache(env, true, total, q, path);
    StepRecords(env, true, total, q, path);
    var r := Advance(env, true, total, q, path);
    forall i | from <= i < |r.files| && r.files[i].bbox.Some?
      ensures env.hashPath(r.files[i].path) in r.cache &&
              r.cache[env.hashPath(r.files[i].path)].bbox == r.files[i].bbox.value
    {
      if i < |q.files| {
        assert r.files[i] == q.files[i];
      }
    }
  }

  /**
   * With sqlite on, the loop keeps every record's bbox in the cache: a hit
   * reports the cached box, and a freshly read box is written back.
   */
  lemma {:induction false} BoxesStayCached(env: Env, total: nat, p: Pass, paths: seq<string>, from: nat)
    requires |paths| <= total && BoxesCached(env, p.files, from, p.cache)
    ensures var q := ProcessPaths(env, true, total, p, paths);
      BoxesCached(env, q.files, from, q.cache)
    decreases |paths|
  {
    if paths != [] {
      var init := paths[..|paths| - 1];
      BoxesStayCached(env, total, p, init, from);
      var q := ProcessPaths(env, true, total, p, init);
      if !q.raised {
        StepKeepsBoxes(env, total, q, paths[|paths| - 1], from);
      }
    }
  }

  /**
   * A run with sqlite on that returns true commits its working table, in
   * which every record the run added with a bbox finds that bbox under the
   * hash of its path.
   */
  lemma RunCachesBoxes(walk: seq<WalkEntry>, env: Env, cancelAt: Option<nat>, p0: Pass)
    ensures var r := RunSpec(walk, env, true, cancelAt, p0);
      r.ok ==> r.committed == r.pass.cache && BoxesCached(env, r.pass.files, |p0.files|, r.committed)
  {
    if !(cancelAt.Some? && cancelAt.value < |walk|) {
      var paths := Candidates(walk);
      var k := FilesEntered(|walk|, cancelAt, paths);
      BoxesStayCached(env, |paths|, p0, paths[..k], |p0.files|);
    }
  }

  /** Some record from index `from` on is for `path`. */
  ghost predicate Recorded(files: seq<FileRecord>, from: nat, path: string) {
    exists i :: from <= i < |files| && files[i].path == path
  }

  /** A step that does not raise appends a record for its path unless the reader would skip the file. */
  lemma StepRecordsRead(env: Env, useSqlite: bool, total: nat, q: Pass, path: string)
    requires total > 0
    ensures var r := Advance(env, useSqlite, total, q, path);
      !r.raised && !ReadMetadata(env, path).Skipped? ==> |r.files| == |q.files| + 1 && r.files[|q.files|].path == path
  {
    ProcessFileOutcome(env, useSqlite, q.cache, path);
  }

  /** A loop that does not raise has a record for every path its reader would not skip. */
  lemma {:induction false} RecordsCoverPaths(env: Env, useSqlite: bool, total: nat, p: Pass, paths: seq<string>)
    requires |paths| <= total
    ensures var q := ProcessPaths(env, useSqlite, total, p, paths);
      !q.raised ==> forall k :: 0 <= k < |paths| && !ReadMetadata(env, paths[k]).Skipped? ==>
        Recorded(q.files, |p.files|, paths[k])
    decreases |paths|
  {
    if paths != [] {
      var init := paths[..|paths| - 1];
      var last := paths[|paths| - 1];
      RecordsCoverPaths(env, useSqlite, total, p, init);
      RecordsFromPaths(env, useSqlite, total, p, init);
      var q := ProcessPaths(env, useSqlite, total, p, init);
      if !q.raised {
        var r := Advance(env, useSqlite, total, q, last);
        StepRecords(env, useSqlite, total, q, last);
        StepRecordsRead(env, useSqlite, total, q, last);
        if !r.raised {
          forall k | 0 <= k < |paths| && !ReadMetadata(env, paths[k]).Skipped?
            ensures Recorded(r.files, |p.files|, paths[k])
          {
            if k < |init| {
              assert paths[k] == init[k];
              var i :| |p.files| <= i < |q.files| && q.files[i].path == paths[k];
              assert r.files[i] == q.files[i];
            } else {
              assert k == |paths| - 1 && paths[k] == last;
              assert |r.files| == |q.files| + 1;
              assert r.files[|q.files|].path == paths[k];
            }
          }
        }
      }
    }
  }

  /** The record a fresh read of `path` yields: none when the reader skips it or something raises. */
  function FreshRecord(env: Env, path: string): seq<FileRecord> {
    match env.stat(path)
    case None => []
    case Some(st) =>
      match ReadMetadata(env, path)
      case Read(m) => [FileRecord(path, st.atime, st.mtime, Some(m.fileType), m.geometryType, m.bbox)]
      case _ => []
  }

  /** The records fresh reads of `paths` yield, in order. */
  function FreshRecords(env: Env, paths: seq<string>): seq<FileRecord> {
    if paths == [] then [] else FreshRecords(env, paths[..|paths| - 1]) + FreshRecord(env, paths[|paths| - 1])
  }

  /** Without sqlite, a loop that does not raise appends exactly the fresh records of its paths. */
  lemma {:induction false} UncachedRecords(env: Env, total: nat, p: Pass, paths: seq<string>)
    requires |paths| <= total
    ensures var q := ProcessPaths(env, false, total, p, paths);
      !q.raised ==> q.files == p.files + FreshRecords(env, paths)
    decreases |paths|
  {
    if paths != [] {
      var init := paths[..|paths| - 1];
      var last := paths[|paths| - 1];
      UncachedRecords(env, total, p, init);
      var q := ProcessPaths(env, false, total, p, init);
      if !q.raised {
        ProcessFileOutcome(env, false, q.cache, last);
        var r := Advance(env, false, total, q, last);
        if !r.raised {
          assert r.files == q.files + FreshRecord(env, last);
          SeqAssoc(p.files, FreshRecords(env, init), FreshRecord(env, last));
        }
      }
    }
  }

  lemma SeqAssoc<T>(a: seq<T>, b: seq<T>, c: seq<T>)
    ensures (a + b) + c == a + (b + c)
  {
  }

  lemma InitLast<T>(s: seq<T>)
    requires s != []
    ensures s[..|s| - 1] + [s[|s| - 1]] == s
  {
  }

  /**
   * A run that returns true has a record for every candidate its reader
   * would not skip; without sqlite its new records are exactly the fresh
   * records of the candidates, in walk order.
   */
  lemma RunCoversCandidates(walk: seq<WalkEntry>, env: Env, useSqlite: bool, cancelAt: Option<nat>, p0: Pass)
    ensures var r := RunSpec(walk, env, useSqlite, cancelAt, p0);
      r.ok ==> forall c :: c in Candidates(walk) && !ReadMetadata(env, c).Skipped? ==> Recorded(r.pass.files, |p0.files|, c)
    ensures var r := RunSpec(walk, env, useSqlite, cancelAt, p0);
      r.ok && !useSqlite ==> r.pass.files == p0.files + FreshRecords(env, Candidates(walk))
  {
    var r := RunSpec(walk, env, useSqlite, cancelAt, p0);
    if r.ok {
      var paths := Candidates(walk);
      var k := FilesEntered(|walk|, cancelAt, paths);
      assert k == |paths| && paths[..k] == paths;
      RecordsCoverPaths(env, useSqlite, |paths|, p0, paths);
      if !useSqlite {
        UncachedRecords(env, |paths|, p0, paths);
      }
      forall c | c in paths && !ReadMetadata(env, c).Skipped?
        ensures Recorded(r.pass.files, |p0.files|, c)
      {
        var j :| 0 <= j < |paths| && paths[j] == c;
      }
    }
  }

  /** The hashes of `paths` are pairwise distinct and none is a key of `cache`. */
  ghost predicate Uncached(env: Env, paths: seq<string>, cache: Cache) {
    (forall k :: 0 <= k < |paths| ==> env.hashPath(paths[k]) !in cache) &&
    (forall j, k :: 0 <= j < k < |paths| ==> env.hashPath(paths[j]) != env.hashPath(paths[k]))
  }

  /** Every key the loop adds to the cache is the hash of one of its paths. */
  lemma NewKeysFromPaths(env: Env, useSqlite: bool, total: nat, p: Pass, paths: seq<string>)
    requires |paths| <= total
    ensures var q := ProcessPaths(env, useSqlite, total, p, paths);
      forall h :: h in q.cache && h !in p.cache ==> exists j :: 0 <= j < |paths| && env.hashPath(paths[j]) == h
  {
    CacheWrites(env, useSqlite, total, p, paths);
    RecordsFromPaths(env, useSqlite, total, p, paths);
    var q := ProcessPaths(env, useSqlite, total, p, paths);
    forall h | h in q.cache && h !in p.cache
      ensures exists j :: 0 <= j < |paths| && env.hashPath(paths[j]) == h
    {
      var i :| |p.files| <= i < |q.files| && RowFor(env, q.files[i], h, q.cache[h]);
      var j :| 0 <= j < |paths| && paths[j] == q.files[i].path;
    }
  }

  /** Dropping the last path keeps the paths uncached. */
  lemma UncachedInit(env: Env, paths: seq<string>, cache: Cache)
    requires paths != [] && Uncached(env, paths, cache)
    ensures Uncached(env, paths[..|paths| - 1], cache)
  {
    assert forall k :: 0 <= k < |paths| - 1 ==> paths[..|paths| - 1][k] == paths[k];
  }

  /** Over uncached paths, the loop over all but the last never writes the last path's row. */
  lemma ColdLast(env: Env, useSqlite: bool, total: nat, p: Pass, paths: seq<string>)
    requires |paths| <= total && paths != [] && Uncached(env, paths, p.cache)
    ensures env.hashPath(paths[|paths| - 1]) !in ProcessPaths(env, useSqlite, total, p, paths[..|paths| - 1]).cache
  {
    var init := paths[..|paths| - 1];
    NewKeysFromPaths(env, useSqlite, total, p, init);
    assert forall j :: 0 <= j < |init| ==> init[j] == paths[j];
    assert forall j :: 0 <= j < |init| ==> env.hashPath(init[j]) != env.hashPath(paths[|paths| - 1]);
  }

  /** Over paths the cache does not hold, a loop that does not raise calls a reader for every path. */
  lemma {:induction false} ColdCacheReadsAll(env: Env, useSqlite: bool, total: nat, p: Pass, paths: seq<string>)
    requires |paths| <= total && Uncached(env, paths, p.cache)
    ensures var q := ProcessPaths(env, useSqlite, total, p, paths);
      !q.raised ==> q.extractorCalls == p.extractorCalls + paths
    decreases |paths|
  {
    if paths != [] {
      var init := paths[..|paths| - 1];
      var last := paths[|paths| - 1];
      UncachedInit(env, paths, p.cache);
      ColdCacheReadsAll(env, useSqlite, total, p, init);
      ColdLast(env, useSqlite, total, p, paths);
      var q := ProcessPaths(env, useSqlite, total, p, init);
      if !q.raised {
        StepCalls(env, useSqlite, total, q, last);
        InitLast(paths);
        SeqAssoc(p.extractorCalls, init, [last]);
      }
    }
  }

  /** A run that returns true over candidates the cache does not hold has read every candidate. */
  lemma FirstRunReadsAll(walk: seq<WalkEntry>, env: Env, useSqlite: bool, cancelAt: Option<nat>, p0: Pass)
    requires Uncached(env, Candidates(walk), p0.cache)
    ensures var r := RunSpec(walk, env, useSqlite, cancelAt, p0);
      r.ok ==> r.pass.extractorCalls == p0.extractorCalls + Candidates(walk)
  {
    var r := RunSpec(walk, env, useSqlite, cancelAt, p0);
    if r.ok {
      var paths := Candidates(walk);
      assert paths[..|paths|] == paths;
      ColdCacheReadsAll(env, useSqlite, |paths|, p0, paths);
    }
  }

  /**
   * Once a run with sqlite on has returned true and recorded every candidate
   * with a bbox, a later run over the same walk from the committed table
   * calls no reader.
   */
  lemma RerunReadsNothing(walk: seq<WalkEntry>, env: Env, cancelAt: Option<nat>, p0: Pass, p1: Pass)
    requires RunSpec(walk, env, true, None, p0).ok
    requires var files := RunSpec(walk, env, true, None, p0).pass.files;
      forall i :: |p0.files| <= i < |files| ==> files[i].bbox.Some?
    requires forall c :: c in Candidates(walk) ==> Recorded(RunSpec(walk, env, true, None, p0).pass.files, |p0.files|, c)
    requires p1.cache == RunSpec(walk, env, true, None, p0).committed
    ensures RunSpec(walk, env, true, cancelAt, p1).pass.extractorCalls == p1.extractorCalls
  {
    var r := RunSpec(walk, env, true, None, p0);
    RunCachesBoxes(walk, env, None, p0);
    var paths := Candidates(walk);
    forall k | 0 <= k < |paths|
      ensures env.hashPath(paths[k]) in p1.cache
    {
      assert paths[k] in paths;
      var i :| |p0.files| <= i < |r.pass.files| && r.pass.files[i].path == paths[k];
    }
    WarmCacheReadsNothing(walk, env, cancelAt, p1);
  }

  // ---------------------------------------------------------------- the task

  class IndexingTask {
    const dirPath: string
    var files: seq<FileRecord>
    var filenameTrigrams: map<string, set<string>>
    var exception: bool
    var processedFiles: nat
    var progress: int
    ghost var progressLog: seq<int>
    ghost var extractorCalls: seq<string>

    /** `filename_trigrams` is in step with `files`. */
    ghost predicate Valid()
      reads this
    {
      TrigramsConsistent(files, filenameTrigrams)
    }

    /** `IndexingTask(dir_path)`: nothing indexed, nothing processed, no exception. */
    constructor (dirPath: string)
      ensures Valid()
      ensures this.dirPath == dirPath && files == [] && filenameTrigrams == map[]
      ensures !exception && processedFiles == 0 && progress == 0
      ensures progressLog == [] && extractorCalls == []
    {
      this.dirPath := dirPath;
      files := [];
      filenameTrigrams := map[];
      exception := false;
      processedFiles := 0;
      progress := 0;
      progressLog := [];
      extractorCalls := [];
    }

    /** The model state of the task, with the given cache. */
    ghost function State(cache: Cache): Pass
      reads this
    {
      Pass(files, filenameTrigrams, cache, processedFiles, progressLog, extractorCalls, false)
    }

    /** The task's fields hold the model state `q` (its cache is the uncommitted table). */
    ghost predicate Mirrors(q: Pass)
      reads this
    {
      files == q.files && filenameTrigrams == q.trigrams && processedFiles == q.processed &&
      progressLog == q.progressLog && extractorCalls == q.extractorCalls
    }

    /**
     * `run()`, where `walk` is what `os.walk(dir_path)` yields, `cache` is the
     * sqlite table as committed before the run, and `isCanceled()` turns true
     * at poll `cancelAt`. Returns `run`'s result and the table as committed
     * afterwards.
     */
    method Run(walk: seq<WalkEntry>, env: Env, useSqlite: bool, cancelAt: Option<nat>, cache: Cache)
      returns (ok: bool, committed: Cache)
      requires Valid()
      modifies this
      ensures Valid()
      ensures var r := RunSpec(walk, env, useSqlite, cancelAt, old(State(cache)));
        ok == r.ok && committed == r.committed && Mirrors(r.pass) &&
        exception == (old(exception) || r.pass.raised)
      ensures processedFiles == old(processedFiles) ==> progress == old(progress)
      ensures processedFiles > old(processedFiles) ==>
        |Candidates(walk)| > 0 && progress == Percent(processedFiles, |Candidates(walk)|)
    {
      ghost var p0 := State(cache);
      ghost var r := RunSpec(walk, env, useSqlite, cancelAt, p0);
      RunRecords(walk, env, useSqlite, cancelAt, p0);
      var canceled, filesToIndex := WalkCandidates(walk, cancelAt);
      if canceled {
        assert r == RunResult(false, p0, cache);
        return false, cache;
      }
      ok, committed := IndexFiles(env, useSqlite, |walk|, cancelAt, filesToIndex, cache);
    }

    /**
     * The file loop of `run` over `filesToIndex`, after `polled` cancellation
     * polls in the walk: it stops at a cancellation or at the first exception.
     */
    method IndexFiles(env: Env, useSqlite: bool, polled: nat, cancelAt: Option<nat>, filesToIndex: seq<string>, cache: Cache)
      returns (ok: bool, committed: Cache)
      requires cancelAt.None? || polled <= cancelAt.value
      modifies this
      ensures var k := FilesEntered(polled, cancelAt, filesToIndex);
        var q := ProcessPaths(env, useSqlite, |filesToIndex|, old(State(cache)), filesToIndex[..k]);
        ok == (k == |filesToIndex| && !q.raised) && committed == (if ok then q.cache else cache) &&
        Mirrors(q) && exception == (old(exception) || q.raised)
      ensures processedFiles == old(processedFiles) ==> progress == old(progress)
      ensures processedFiles > old(processedFiles) ==>
        |filesToIndex| > 0 && progress == Percent(processedFiles, |filesToIndex|)
    {
      ghost var p0 := State(cache);
      var work := cache;
      var total := |filesToIndex|;
      ghost var entered := FilesEntered(polled, cancelAt, filesToIndex);
      for k := 0 to total
        invariant k <= entered
        invariant cancelAt.None? || polled + k <= cancelAt.value
        invariant State(work) == ProcessPaths(env, useSqlite, total, p0, filesToIndex[..k])
        invariant exception == old(exception)
        invariant processedFiles == old(processedFiles) + k
        invariant k == 0 ==> progress == old(progress)
        invariant k > 0 ==> progress == Percent(processedFiles, total)
      {
        if CanceledAt(cancelAt, polled + k) {
          assert entered == k;
          return false, cache;
        }
        ghost var q := ProcessPaths(env, useSqlite, total, p0, filesToIndex[..k]);
        ProcessPathsStep(env, useSqlite, total, p0, filesToIndex, k);
        assert !q.raised && ProcessPaths(env, useSqlite, total, p0, filesToIndex[..k + 1]) == Advance(env, useSqlite, total, q, filesToIndex[k]);
        var raised;
        work, raised := IndexFile(env, useSqlite, total, filesToIndex[k], work);
        if raised {
          exception := true;
          RaisedStays(env, useSqlite, total, p0, filesToIndex, k + 1, entered);
          return false, cache;
        }
      }
      assert filesToIndex[..total] == filesToIndex;
      return true, work;
    }

    /**
     * One iteration of the file loop after the cancellation poll: the model
     * state moves by `Advance`, and `raised` tells whether an exception escaped.
     */
    method IndexFile(env: Env, useSqlite: bool, total: nat, path: string, work: Cache)
      returns (work': Cache, raised: bool)
      requires total > 0
      modifies this
      ensures var q := Advance(env, useSqlite, total, old(State(work)), path);
        raised == q.raised && work' == q.cache && Mirrors(q)
      ensures exception == old(exception)
      ensures processedFiles == old(processedFiles) + 1 && progress == Percent(processedFiles, total)
    {
      ghost var p := State(work);
      processedFiles := processedFiles + 1;
      progress := Percent(processedFiles, total);
      progressLog := progressLog + [progress];
      var outcome := ProcessFile(env, useSqlite, work, path);
      assert Advance(env, useSqlite, total, p, path) == Absorb(total, p, path, outcome);
      ghost var q := Absorb(total, p, path, outcome);
      match outcome
      case None =>
        assert q == p.(processed := processedFiles, progressLog := progressLog, raised := true);
        return work, true;
      case Some(step) =>
        if step.extracted {
          extractorCalls := extractorCalls + [path];
        }
        if step.record.Some? {
          files := files + [step.record.value];
          filenameTrigrams := filenameTrigrams[path := Trigrams.GetTrigrams(path)];
        }
        assert q.files == files && q.trigrams == filenameTrigrams && q.extractorCalls == extractorCalls;
        return step.cache, false;
    }

    /** `finished(result)`: progress is set to 100 when the run succeeded and was not canceled. */
    method Finished(result: bool, canceled: bool)
      modifies this
      ensures progress == if result && !canceled then 100 else old(progress)
      ensures files == old(files) && filenameTrigrams == old(filenameTrigrams) && exception == old(exception)
      ensures processedFiles == old(processedFiles)
      ensures progressLog == old(progressLog) && extractorCalls == old(extractorCalls)
    {
      if result && !canceled {
        progress := 100;
      }
    }
  }

  /**
   * The `os.walk` loop of `run`: polls for cancellation once per entry and
   * collects the indexable paths of the entries whose root is not hidden.
   */
  method WalkCandidates(walk: seq<WalkEntry>, cancelAt: Option<nat>) returns (canceled: bool, filesToIndex: seq<string>)
    ensures canceled <==> cancelAt.Some? && cancelAt.value < |walk|
    ensures !canceled ==> filesToIndex == Candidates(walk)
  {
    filesToIndex := [];
    for i := 0 to |walk|
      invariant filesToIndex == Candidates(walk[..i])
      invariant !CanceledAt(cancelAt, i) || cancelAt.value == i
    {
      if CanceledAt(cancelAt, i) {
        return true, filesToIndex;
      }
      var root := walk[i].root;
      CandidatesStep(walk, i);
      if !HiddenRoot(root) {
        filesToIndex := AppendRootPaths(filesToIndex, root, walk[i].filenames);
      }
    }
    assert walk[..|walk|] == walk;
    canceled := false;
  }

  /** The inner loop over one entry's file names, appending the indexable ones joined to `root`. */
  method AppendRootPaths(filesToIndex: seq<string>, root: string, names: seq<string>) returns (r: seq<string>)
    ensures r == filesToIndex + RootPaths(root, names)
  {
    r := filesToIndex;
    for j := 0 to |names|
      invariant r == filesToIndex + RootPaths(root, names[..j])
    {
      var file := names[j];
      RootPathsStep(root, names, j);
      if Indexable(file) {
        SnocAssoc(filesToIndex, RootPaths(root, names[..j]), PathJoin(root, file));
        r := r + [PathJoin(root, file)];
      }
    }
    assert names[..|names|] == names;
  }

  lemma SnocAssoc<T>(a: seq<T>, b: seq<T>, x: T)
    ensures (a + b) + [x] == a + (b + [x])
  {
  }

  /** One more walk entry adds its own paths after the earlier ones. */
  lemma CandidatesStep(walk: seq<WalkEntry>, i: nat)
    requires i < |walk|
    ensures Candidates(walk[..i + 1]) == Candidates(walk[..i]) + EntryPaths(walk[i])
  {
    assert walk[..i + 1][..i] == walk[..i];
  }

  /** One more file name adds its joined path exactly when it is indexable. */
  lemma RootPathsStep(root: string, names: seq<string>, j: nat)
    requires j < |names|
    ensures RootPaths(root, names[..j + 1]) ==
      RootPaths(root, names[..j]) + if Indexable(names[j]) then [PathJoin(root, names[j])] else []
  {
    assert names[..j + 1][..j] == names[..j];
  }

  /** One more path: `ProcessPaths` of a longer prefix is one `Advance` further, unless it had raised. */
  lemma ProcessPathsStep(env: Env, useSqlite: bool, total: nat, p: Pass, paths: seq<string>, k: nat)
    requires k < |paths| <= total
    ensures var q := ProcessPaths(env, useSqlite, total, p, paths[..k]);
      ProcessPaths(env, useSqlite, total, p, paths[..k + 1]) ==
        if q.raised then q else Advance(env, useSqlite, total, q, paths[k])
  {
    assert paths[..k + 1][..k] == paths[..k];
  }

  /** Once the loop has raised, later paths change nothing. */
  lemma {:induction false} RaisedStays(env: Env, useSqlite: bool, total: nat, p: Pass, paths: seq<string>, j: nat, k: nat)
    requires |paths| <= total && j <= k <= |paths|
    requires ProcessPaths(env, useSqlite, total, p, paths[..j]).raised
    ensures ProcessPaths(env, useSqlite, total, p, paths[..k]) == ProcessPaths(env, useSqlite, total, p, paths[..j])
    decreases k - j
  {
    if k > j {
      RaisedStep(env, useSqlite, total, p, paths, j);
      RaisedStays(env, useSqlite, total, p, paths, j + 1, k);
    }
  }

  /** A raised pass is left as it is by the next path. */
  lemma RaisedStep(env: Env, useSqlite: bool, total: nat, p: Pass, paths: seq<string>, k: nat)
    requires k < |paths| <= total
    requires ProcessPaths(env, useSqlite, total, p, paths[..k]).raised
    ensures ProcessPaths(env, useSqlite, total, p, paths[..k + 1]) == ProcessPaths(env, useSqlite, total, p, paths[..k])
  {
    assert paths[..k + 1][..k] == paths[..k];
  }
}
