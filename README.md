# kue /find and polling, modelled in Dafny

This project models two parts of the Kue QGIS plugin.

**The file finder (`kue_find.py`).**
- `IndexingTask.run` walks a directory tree and keeps the vector (`.shp`, `.gpkg`, `.fgb`) and raster (`.tif`) files that are not hidden.
- For each kept file it builds one record, unless the vector reader skips the file. The record's type, geometry type and bbox come from the sqlite cache, or else from OGR/GDAL. With sqlite (available when `sqlite3` imports), a freshly read bbox is written back to the cache, so after a run that returns true every new record's bbox is in the committed table (`Indexing.RunCachesBoxes`).
- An exception outside the readers' inner `try` blocks (a vector data source without a layer, a raster projection that `ImportFromWkt` rejects) ends the run, which returns false. So does, with sqlite, a path that `hash_file_path` cannot encode as UTF-8.
- It keeps a map from each indexed path to the trigram set of that path.
- `KueFind.search` scores every file. The score is minus the Jaccard index of the query's trigrams and the path's trigrams.
- It sorts the files stably by score and keeps the first `n`. Each kept file becomes a tuple: path, "N units ago" label (`humanize_atime`), type, geometry type, and the smallest bundled region that contains the bbox (`BBoxFinder.find_containing_bbox`).
- `levenshtein_distance` is modelled and proved equal to the edit distance, although nothing in the core calls it.

**The polling handler (`kue_poll.py`).** `KuePollingTask.handle_ready_read` reads the streamed reply line by line. Each stripped line is one of:
- `P<int>`: it sets the task's progress.
- Anything else: it is given to `json.loads`. A line that does not decode is ignored. A decoded object has `"kue_action_id"` set in every value of every action, and is then emitted.
- A line whose stamping raises: the exception leaves the handler, which reads no further.

**Layout.** There is one module per concern:
- `Wrappers`: `Option`, `Result`.
- `PyStr`: the Python string and path builtins the code relies on.
- `Trigrams`, `Humanize`, `Levenshtein`.
- `Gazetteer`: the `BBoxFinder` class.
- `Indexing`: the `IndexingTask` class, plus `RunSpec`, which states `run` as a function.
- `Find`: the `KueFind` class and the ranking.
- `Polling`: the `KuePollingTask` class, plus `ReadLines`, which states the handler as a function.

The methods of `IndexingTask`, `BBoxFinder`, `KueFind` and `KuePollingTask` are proved against functions that state the source's behaviour (`RunSpec`, `SmallestContaining`, `SearchResults`, `ReadLines`). Lemmas then prove properties of those functions. The constructors and `Finished` are specified by their final state alone.

**Environment as parameters.** What the code reads from its environment is passed in:
- `os.walk`'s output becomes `walk`.
- `os.stat`, whether a path encodes as UTF-8, `hash_file_path`, and what OGR/GDAL report become `Env`.
- The sqlite table becomes a `Cache` map.
- The first cancellation poll that answers true becomes `cancelAt`.
- `time()` becomes `now`.
- `json.loads` becomes `decode`.
- The CSV rows become `rows`.

**Behaviour of the code worth knowing:**
- Trigrams are taken over the full path, directory names included.
- `task_completed` replaces the index also when the task was terminated. Neither Qt signal passes an exception, so `exception is None` always holds.
- A vector file that OGR cannot open, or that has no transformation to EPSG:4326, is skipped altogether.
- A cache hit reports the lower-case geometry names (`"point"`), while a fresh read reports OGR's names (`"Point"`). A cached file therefore never reports the geometry name a fresh read gave (`Indexing.CacheCodeRoundTrip`).
- For a vector layer without a valid CRS, the bbox is kept in `GetExtent()`'s own order, (minx, maxx, miny, maxy), and is then used as (minx, miny, maxx, maxy).
- Similarity is a negative score sorted ascending, not a positive one sorted descending. The resulting order is the same.
- The handler decodes one whole line at a time. It does not buffer partial JSON across chunks.
- Cache writes made during a run are committed only when `run` returns true.

## Model

| member | source | states |
|---|---|---|
| PyStr.Lower | kue_find.py:98 | `str.lower()` maps each character through the lower-case table and keeps the length |
| PyStr.LowerIdempotent | kue_find.py:408 | lower-casing twice is lower-casing once |
| PyStr.StripSpec | kue_poll.py:61 | `strip()` returns a slice of the line that neither starts nor ends with whitespace, and everything cut off on either side is whitespace |
| PyStr.Strip | kue_poll.py:61 | `line.strip()`; what it returns is stated by `PyStr.StripSpec` |
| PyStr.Words | kue_find.py:408 | `split()` yields non-empty words that contain no whitespace |
| PyStr.WordsAreRuns | kue_find.py:408 | the words of `split()` lay the string out as words separated by non-empty whitespace runs, with possibly empty runs at either end; no other sequence of words lays it out that way |
| PyStr.WordsUnique | kue_find.py:408 | a string made of words, in order, between whitespace runs that are non-empty inside splits into exactly those words |
| PyStr.JoinWords | kue_find.py:408-411 | `" ".join(ws).split()` gives back `ws` when every word is non-empty and free of whitespace |
| PyStr.Split | kue_find.py:136 | `root.split("/")` has at least one part and no part contains the separator |
| PyStr.JoinSplit | kue_find.py:136 | joining the parts of `split(c)` with `c` gives the string back |
| PyStr.SplitPartStartsWith | kue_find.py:136 | some part of `root.split("/")` starts with "." exactly when a "." starts the root or follows a "/" |
| PyStr.NatToString | kue_find.py:86 | the decimal form of a natural is a non-empty run of digits, starting with '0' only for 0 and with no leading zero when longer than one digit |
| PyStr.IntRoundTrip | kue_poll.py:66 | `int(str(n)) == n` for every integer |
| PyStr.ParseInt | kue_poll.py:66 | `int(s)`, None where it raises ValueError; a parse succeeds only when some digit is present, and it reads back every numeral (`PyStr.IntRoundTrip`) |
| PyStr.PathJoin | kue_find.py:141 | `os.path.join(root, file)` ends with `file`; an absolute `file` is the result; otherwise the result starts with `root` and is one '/' longer than both together unless the root is empty or ends with '/' |
| PyStr.BasenameOfJoin | kue_find.py:141-154 | the basename of `os.path.join(root, file)` is `file` for a name without '/' |
| PyStr.Basename | kue_find.py:154 | `os.path.basename`: the text after the last '/'; stated by `PyStr.BasenameEndsWith` and `PyStr.BasenameOfJoin` |
| PyStr.BasenameEndsWith | kue_find.py:193 | for a suffix without "/", testing the basename's suffix is testing the path's |
| Trigrams.TrigramsAreWindows | kue_find.py:96-99 | for text of 3 or more characters, a string is a trigram exactly when it is a 3-character slice of the lower-cased text; shorter text gives the singleton of its lower-cased self |
| Trigrams.GetTrigrams | kue_find.py:96-99 | the trigram set is never empty |
| Trigrams.TrigramsIgnoreCase | kue_find.py:98 | trigrams do not depend on case |
| Trigrams.Score | kue_find.py:412-416 | `score_filename`'s value for two trigram sets; its range, symmetry and exact-match value are stated by `Trigrams.ScoreBounds`, `Trigrams.ScoreSymmetric` and `Trigrams.ExactMatchScore` |
| Trigrams.ScoreBounds | kue_find.py:410-416 | the score lies in [-1, 0] and is 0 exactly when the two sets share nothing |
| Trigrams.ScoreSymmetric | kue_find.py:414-416 | the score does not depend on the order of the two sets |
| Trigrams.ExactMatchScore | kue_find.py:410-416 | for a non-empty query set, the score is -1 exactly when the file's set equals it |
| Humanize.AgeOf | kue_find.py:76-93 | the unit is years, months, days, hours or minutes exactly when the age falls in that unit's band; the count is the floored age in that unit, and is at least 1 for any unit but minutes |
| Humanize.NestedDivisions | kue_find.py:79-83 | the chain of floor divisions equals floor division by one product |
| Humanize.HumanizeReadsBack | kue_find.py:85-93 | the label is the count's numeral, which `int()` reads back as the count, followed by " <unit> ago" |
| Humanize.HumanizeATime | kue_find.py:76-93 | `humanize_atime`; its unit and count are stated by `Humanize.AgeOf`, its text by `Humanize.HumanizeReadsBack` |
| Levenshtein.LevenshteinDistance | kue_find.py:56-73 | the two-row program, with its argument swap, returns the edit distance |
| Levenshtein.DistSymmetric | kue_find.py:57-58 | edit distance is symmetric, so swapping the arguments changes nothing |
| Levenshtein.DistSelf | kue_find.py:56-73 | a string is at distance 0 from itself |
| Levenshtein.DistLower | kue_find.py:56-73 | the distance is at least the difference of the lengths |
| Levenshtein.DistUpper | kue_find.py:60-61 | the distance is at most the larger length, which is what the empty-string case returns |
| Gazetteer.BBoxFinder.constructor | kue_find.py:432-459 | region 0 is Null Island with box (-3, -3, 3, 3); region k+1 is CSV row k; each area is its box's area |
| Gazetteer.Area | kue_find.py:457-459 | a box's area, width times height; each region's stored area is it (`Gazetteer.BBoxFinder.constructor`) |
| Gazetteer.Contains | kue_find.py:466-478 | the containment test of `find_containing_bbox`, edges included; used by `Gazetteer.SmallestContaining` |
| Gazetteer.SmallestContaining | kue_find.py:466-478 | None exactly when no box contains the query; otherwise a containing box of least area, and the first one on a tie |
| Gazetteer.BBoxFinder.FindContainingBBox | kue_find.py:461-480 | "World" when no region contains the query; otherwise the name of the first containing region of least area |
| Gazetteer.BBoxFinder.NullIslandWins | kue_find.py:439-441 | a query inside Null Island's box gets "Null Island" unless a containing region is smaller than 36 square degrees |
| Indexing.CandidatesAreTargets | kue_find.py:139-141 | every path collected by the walk ends with a target extension |
| Indexing.HiddenRoot | kue_find.py:136 | some part of `root.split(os.sep)` starts with "."; stated by `PyStr.SplitPartStartsWith` |
| Indexing.Indexable | kue_find.py:140 | a file name with a target extension that does not start with "." |
| Indexing.RootPaths | kue_find.py:139-141 | the joins of one root with its indexable names, in order; stated by `Indexing.RootPathsMembership` |
| Indexing.EntryPaths | kue_find.py:135-141 | one walk entry's paths, none for a hidden root; stated by `Indexing.EntryPathsMembership` |
| Indexing.Candidates | kue_find.py:130-141 | `files_to_index`; stated by `Indexing.CandidatesMembership` and `Indexing.CandidatesAreTargets` |
| Indexing.RootPathsMembership | kue_find.py:139-141 | one entry contributes exactly the joins of its root with its indexable file names |
| Indexing.EntryPathsMembership | kue_find.py:135-141 | an entry contributes a path exactly when its root has no hidden part and the path joins the root to an indexable name |
| Indexing.CandidatesMembership | kue_find.py:130-141 | a path is collected exactly when some walk entry contributes it |
| Indexing.WalkCandidates | kue_find.py:127-141 | the walk loop is cancelled exactly when a poll during the walk answers true; otherwise it collects `Candidates(walk)` |
| Indexing.AppendRootPaths | kue_find.py:139-141 | the inner loop appends exactly the entry's paths, in order |
| Indexing.CacheCodeRoundTrip | kue_find.py:164-178 | a code written to the cache always decodes; the file type survives exactly for rasters and the three named vector geometries; a vector geometry name never survives |
| Indexing.EncodeType | kue_find.py:330-342 | the `geometry_type` code written to the cache; stated with its inverse by `Indexing.CacheCodeRoundTrip` |
| Indexing.DecodeType | kue_find.py:164-178 | a cached code read back as file type and geometry type; stated by `Indexing.CacheCodeRoundTrip` |
| Indexing.VectorMetadata | kue_find.py:193-263 | a vector file is skipped exactly when OGR cannot open it or no transform exists, and raises exactly when its layer cannot be read; otherwise its type is "vector", its geometry type is OGR's name, and its bbox is the reprojected box, the `GetExtent()` tuple as it stands without a CRS, or None when reading the extent or reprojecting failed |
| Indexing.RasterBounds | kue_find.py:264-323 | a georeferenced raster without a CRS keeps its geotransform corners; one with a CRS gets the reprojected box; one with no geotransform, or whose reprojection raised, has no bbox |
| Indexing.RasterMetadata | kue_find.py:264-323 | a raster file is never skipped; it raises exactly when its projection cannot be built, and otherwise is a "raster" without geometry type and with `RasterBounds` as its bbox |
| Indexing.NorthUpBoundsOrdered | kue_find.py:276-286 | for a north-up geotransform the computed corners are ordered |
| Indexing.CandidatesAreDispatched | kue_find.py:193-264 | the reading of every collected path is the vector branch's or the raster branch's, never the fallthrough |
| Indexing.ReadMetadata | kue_find.py:193-323 | a basename with a vector extension is read by the vector branch, one with only a raster extension by the raster branch; a raster read has no geometry type |
| Indexing.ProcessFileOutcome | kue_find.py:154-356 | a file that `os.stat` fails on raises, and so does, with sqlite, a path that does not encode; a cache hit yields the record the cached row decodes to, without calling a reader; a miss raises when the reader raises, records nothing when it skips, and otherwise records the read metadata and, with sqlite and a bbox, writes the row of that bbox and encoded type under the path's hash |
| Indexing.ProcessFile | kue_find.py:152-356 | one file raises exactly when `os.stat` fails, or, with sqlite, the path does not encode, or a cache hit holds a code that does not decode, or a miss's reader raises; it records only its own path, keeps every row the cache held, adds at most the row under its path's hash, leaves the cache alone without sqlite, and skips the reader only on a cache hit |
| Indexing.PercentBounds | kue_find.py:153 | `int(100 * k / total)` is monotone in k, lies in 0..100, and is 100 exactly at k = total |
| Indexing.Percent | kue_find.py:153 | `int(100 * processed / total)` as the floor; stated by `Indexing.PercentBounds` |
| Indexing.FilesEntered | kue_find.py:146-150 | the file loop stops early exactly when a cancellation poll during it answers true, and then has entered exactly the files before that poll |
| Indexing.ProcessPaths | kue_find.py:146-356 | the loop counts every file it enters and, unless something raised, enters every file |
| Indexing.ProgressLogged | kue_find.py:152-153 | each file entered sets progress to the percentage of the count reached, in order |
| Indexing.PercentsShape | kue_find.py:153 | the progress values never fall, stay within 0..100, and end at 100 when every file was entered |
| Indexing.RunProgress | kue_find.py:146-153 | over a run from a fresh task, one progress value per file entered, non-decreasing, within 0..100, and the last is 100 when `run` returns true with files to index |
| Indexing.RecordsFromPaths | kue_find.py:346-356 | the loop keeps the earlier records and appends records only for paths it was given |
| Indexing.TrigramsStayConsistent | kue_find.py:190 | the trigram map stays keyed by exactly the indexed paths, each mapped to its own trigrams |
| Indexing.CacheWrites | kue_find.py:325-344 | rows present before the loop are never changed; each new row was written for an appended record with a bbox, under its path's hash, with its encoded type; without sqlite the cache is untouched |
| Indexing.ReaderCalls | kue_find.py:157-193 | with sqlite and every path cached, no reader is called; without sqlite, a loop that does not raise reads every path |
| Indexing.RaisedStays | kue_find.py:364-369 | once a file raises, the later files change nothing |
| Indexing.CommittedCache | kue_find.py:358-362 | the committed table is the old one unless `run` returns true, and is then the loop's working table; old rows survive unchanged and each new row belongs to a record of the run |
| Indexing.RunSpec | kue_find.py:111-369 | `run` returns true exactly when no cancellation poll of the walk or the file loop answers true and no file raises; otherwise the committed table is the one before the run |
| Indexing.BoxesStayCached | kue_find.py:157-344 | with sqlite, the file loop keeps every record's bbox in the cache under its path's hash |
| Indexing.RunCachesBoxes | kue_find.py:325-362 | with sqlite, a run that returns true commits a table holding the bbox of every record it added, under its path's hash |
| Indexing.RecordsCoverPaths | kue_find.py:146-356 | a file loop that does not raise has a record for every path its reader does not skip |
| Indexing.UncachedRecords | kue_find.py:146-356 | without sqlite, a file loop that does not raise appends exactly the fresh records of its paths, in order |
| Indexing.RunCoversCandidates | kue_find.py:126-362 | a run that returns true has a record for every collected path its reader does not skip; without sqlite its new records are exactly the fresh records of the collected paths, in walk order |
| Indexing.ColdCacheReadsAll | kue_find.py:157-193 | over paths whose hashes are distinct and not cached, a file loop that does not raise calls a reader for every path, in order |
| Indexing.FirstRunReadsAll | kue_find.py:126-362 | a run that returns true over collected paths the cache does not hold reads every one of them |
| Indexing.RerunReadsNothing | kue_find.py:157-191 | after a sqlite run that returns true and records every collected path with a bbox, a run from the committed table calls no reader |
| Indexing.RunRecords | kue_find.py:126-362 | a run keeps the earlier records, adds records only for collected paths, and keeps the trigram map in step with the records |
| Indexing.WarmCacheReadsNothing | kue_find.py:157-191 | with sqlite and every collected path cached, a run calls no reader |
| Indexing.IndexingTask.constructor | kue_find.py:103-109 | a new task has no files, no trigrams, no exception and no processed files |
| Indexing.IndexingTask.Run | kue_find.py:111-369 | `run()` returns, commits and leaves exactly the state `RunSpec` states; progress is the floored percentage of the files processed |
| Indexing.IndexingTask.IndexFiles | kue_find.py:146-362 | the file loop leaves the state of `ProcessPaths` over the files entered, and commits only when it finishes without raising |
| Indexing.IndexingTask.IndexFile | kue_find.py:152-356 | one iteration counts the file, sets progress, and moves the task's state by one `Advance` step |
| Indexing.IndexingTask.Finished | kue_find.py:371-373 | progress becomes 100 exactly when `run` returned true and the task was not cancelled; nothing else changes |
| Find.QueryIgnoresCase | kue_find.py:408 | lower-casing the query first changes nothing |
| Find.QueryWords | kue_find.py:408-411 | the text scored for a query splits back into the words of the lower-cased query |
| Find.QueryText | kue_find.py:408-411 | `" ".join(query.lower().split())`; stated by `Find.QueryIgnoresCase` and `Find.QueryWords` |
| Find.Scores | kue_find.py:410-418 | one score per file, in list order; each is `Trigrams.Score` of the query's and the path's trigrams, and the ranking orders by them (`Find.Ranking`) |
| Find.ResultFor | kue_find.py:419-428 | the tuple for one file: path, age label, type, geometry type, and region name or "" without a bbox; stated by `Find.Rows` |
| Find.UnionNeverEmpty | kue_find.py:414-416 | both trigram sets are non-empty, so the `union == 0` branch never runs |
| Find.ConsistentIsScorable | kue_find.py:412 | in a consistent index every file's path has a trigram set, so scoring never raises KeyError |
| Find.Insert | kue_find.py:418 | one insertion step of the stable sort adds exactly the new index |
| Find.InsertOrdered | kue_find.py:418 | inserting a new index into an ordered sequence keeps it ordered |
| Find.SortIndices | kue_find.py:418 | the sort is a permutation of its input |
| Find.SortIndicesOrdered | kue_find.py:418 | sorting distinct indices orders them by score, ties by list position |
| Find.Ranking | kue_find.py:418 | `sorted(files, key=score)` is a permutation of the positions, in ascending score, with ties in list order |
| Find.RankingCovers | kue_find.py:418 | every file appears in the ranking |
| Find.Take | kue_find.py:418 | `[:n]` is a prefix of Python slice length, negative `n` counting from the end |
| Find.LeftOutRanksLower | kue_find.py:418 | a file left out of the first `n` scores no better than every file shown, and on a tie comes later in the list |
| Find.ExactMatchFirst | kue_find.py:410-418 | when some path has exactly the query's trigram set, the top result scores -1 and has that set |
| Find.Rows | kue_find.py:419-428 | one tuple per chosen file, in order, with an empty region label when the file has no bbox |
| Find.SearchResults | kue_find.py:418-428 | the results number min(n, number of files) for non-negative n |
| Find.ResultsFollowRanking | kue_find.py:418-428 | result k is the tuple of the file at place k of the ranking |
| Find.KueFind.constructor | kue_find.py:377-384 | the engine starts with an empty index, no task and an empty trash list; its region finder holds Null Island first and then one entry per region row, with that row's name and box |
| Find.KueFind.Index | kue_find.py:386-400 | a fresh task for the directory becomes current and joins the trash list; the index is untouched |
| Find.KueFind.TaskCompleted | kue_find.py:390-394 | without an exception the index becomes the task's files and trigram map; the task is cleared; with no current task nothing changes and the call fails |
| Find.KueFind.Search | kue_find.py:402-428 | with an empty index and no task, it starts indexing the home directory and returns []; otherwise it returns the ranked tuples and changes nothing |
| Polling.LookupFinds | kue_poll.py:74 | `d[key]` is missing exactly when `key` is not a key, and otherwise is the value paired with it |
| Polling.SetMemberKeys | kue_poll.py:76-78 | `d[key] = v` keeps the key order and adds a new key at the end |
| Polling.SetMemberLookup | kue_poll.py:76-78 | after `d[key] = v`, `d[key]` is `v` and every other key reads as before |
| Polling.StampMembersOk | kue_poll.py:75-78 | an action's values are stamped exactly when each is a dict and, if there is a value, the id exists; each stamped value is the same dict with the id set |
| Polling.StampActionsOk | kue_poll.py:74-78 | a list of actions is stamped exactly when each action is, and each result is that action stamped |
| Polling.StampedAction | kue_poll.py:74-78 | a stamped action keeps its keys in order; each value gets "kue_action_id" set to the id, and every other key reads as before |
| Polling.AnnotatedErrors | kue_poll.py:73-78 | a missing "actions" key raises KeyError, and a first action that is not a dict raises AttributeError |
| Polling.AnnotatedKeeps | kue_poll.py:72-79 | on success the object is a dict with an "actions" key and keeps its keys and every member but "actions"; when "actions" is not a list the object is emitted unchanged |
| Polling.AnnotatedStamps | kue_poll.py:74-79 | on success with a list of actions, "actions" of the emitted object is the stamped list: an action per decoded action, each a dict with the same keys, and every value of every action a dict whose "kue_action_id" is the poll's id |
| Polling.StampActionsPrefixErr | kue_poll.py:74-78 | the first action that raises decides the outcome of the outer loop |
| Polling.StampValue | kue_poll.py:76-78 | `v["kue_action_id"] = id`, TypeError unless `v` is a dict; stated by `Polling.StampMembersOk` |
| Polling.StampMembers | kue_poll.py:75-78 | the inner loop over one action's values; stated by `Polling.StampMembersOk` and `Polling.StampedAction` |
| Polling.StampActions | kue_poll.py:74-78 | the outer loop over the actions; stated by `Polling.StampActionsOk` and `Polling.StampActionsPrefixErr` |
| Polling.Annotated | kue_poll.py:72-79 | the JSON branch for a decoded value; stated by `Polling.AnnotatedErrors`, `Polling.AnnotatedKeeps` and `Polling.AnnotatedStamps` |
| Polling.StampActionIds | kue_poll.py:74-78 | the nested loops stamp the actions, or stop with the exception, exactly as `StampActions` states |
| Polling.ProgressLine | kue_poll.py:63-67 | a "P<int>" line sets progress to its number and never reaches the JSON decoder |
| Polling.BadProgressFallsThrough | kue_poll.py:64-73 | a "P" line without an integer goes to the JSON branch like any other line |
| Polling.Classify | kue_poll.py:61-81 | what one line does; stated by `Polling.ProgressLine` and `Polling.BadProgressFallsThrough` |
| Polling.RunAll | kue_poll.py:60-81 | every line is read exactly when none raises |
| Polling.RunInOrder | kue_poll.py:60-81 | lines are handled in order up to the first that raises; each decoded object is emitted once, in order; progress ends at the last progress line handled |
| Polling.RaisedStops | kue_poll.py:60-81 | after an exception no further line changes the outcome |
| Polling.ReadLinesInOrder | kue_poll.py:59-81 | the handler emits the decoded objects of the lines read, sets progress to the last progress line among them, and reads every line exactly when none raises |
| Polling.ReadLines | kue_poll.py:59-81 | the handler's loop over the lines; stated by `Polling.ReadLinesInOrder` and `Polling.RunAll` |
| Polling.KuePollingTask.constructor | kue_poll.py:17-21 | progress starts at 0 and nothing is emitted |
| Polling.KuePollingTask.HandleReadyRead | kue_poll.py:59-81 | the handler's lines read, escaping exception, progress and emissions are those `ReadLines` states |
| Polling.KuePollingTask.HandleLine | kue_poll.py:61-81 | one line is handled exactly as `Classify` states |
| Polling.KuePollingTask.Annotate | kue_poll.py:72-79 | the JSON branch for a decoded value is exactly as `Annotated` states |

## Left out

- File and network I/O are not modelled. This covers the sqlite connection, `os.walk`, `os.stat`, opening files with OGR/GDAL, the HTTP request, and `QEventLoop`/`QTimer` in `KuePollingTask.run`. Their results are parameters.
- `QgsTask` threading and scheduling are not modelled, nor is `addTask` in `index`. Signals are modelled as calls: `TaskCompleted` is the callback, and `emitted` records `streamingActionReceived`.
- The walk order, hash values and reader results are whatever the parameters say. SHA-1 is not modelled.
- OGR/GDAL internals are not modelled: CRS validity, `CoordinateTransformation`, and the reprojection of corners. They are outcomes in `Extent`/`RasterCrs`.
- Floating point is modelled as reals: float32 storage in `BBoxFinder`, and bbox and area arithmetic. `int(100 * k / total)` is modelled as the exact floor, which the float division matches for any realistic file count.
- `BBoxFinder.__init__` takes the CSV data rows as parsed records. CSV parsing, `float()` of the columns and the line count are not modelled. A row without five fields (ValueError) is not modelled.
- NULL bbox columns of a cached row are not modelled: a cache row always has a box.
- `transformation_from_srs_to_4326`'s `lru_cache` is not modelled. It has no observable effect on results.
- `QgsMessageLog` logging is not modelled.
- `str.lower()` is modelled for ASCII and Latin-1 capitals. `str.isspace()` is written out for the code points Python treats as whitespace. Full Unicode case mapping is not modelled.
- `int()` accepts ASCII digits only. Unicode decimal digits and the 4300-digit limit are not modelled.
- The UTF-8 decoding of reply lines is not modelled: lines arrive as strings. `json.loads` is the `decode` parameter. JSON objects are assumed to have unique keys, as `json.loads` leaves them.
- Polling.Json: one `JNumber` case over reals stands for both the int and the float values of `json.loads`. So `1` and `1.0` are not told apart, and NaN and Infinity, which `json.loads` accepts, cannot be represented. The handler never inspects a number, so no outcome of the model depends on this, but an emitted object holds a real where the source may hold an int.
- The JSON objects are updated in place by the source. The model rebuilds them as values; no aliasing between decoded values exists to observe.
- `setProgress` storing a float, and an OverflowError for huge progress numbers, are not modelled.
- `polling_data["description"]` and the network part of `KuePollingTask.run` are not modelled.
- Trigrams.GetTrigrams: its own contract only says the set is non-empty. Its exact contents are stated by `Trigrams.TrigramsAreWindows`.
- Indexing.ReadMetadata: a basename with neither extension falls through both branches in the source. It then reuses the `bbox` and types left from an earlier file, or, when no earlier file assigned `bbox`, raises UnboundLocalError at kue_find.py:325, so that `run` returns false. The model returns `Skipped` there. This never arises for a collected path (`Indexing.CandidatesAreDispatched`).
- PyStr.Words: its own contract only says the words are non-empty and free of whitespace. That they are the maximal runs, in order, is stated by `PyStr.WordsAreRuns`.
- Paths are POSIX paths: `os.sep` is '/', and `os.path.join` and `os.path.basename` follow `posixpath`. Windows separators and drive letters are not modelled.
- `humanize_atime` calls `time()` once per result row. The model reads one `now` for the whole search, so rows built across a clock tick may differ.
- Find.SearchResults: its own contract gives only the length. Its contents are stated by `Find.ResultsFollowRanking` and `Find.LeftOutRanksLower`.
