/**
 * `KueFind`: the search state machine over the index an `IndexingTask`
 * builds, and the trigram ranking `search` performs.
 */
module Find {
  import opened Wrappers
  import opened PyStr
  import opened Gazetteer
  import opened Indexing
  import Trigrams
  import Humanize

  /** One tuple of `search`'s result: path, age label, type, geometry type, region label. */
  datatype ResultRow = ResultRow(
    path: string,
    age: string,
    fileType: Option<string>,
    geometryType: Option<string>,
    region: string)

  // ---------------------------------------------------------------- query

  /** `" ".join(query.lower().split())`: the text whose trigrams the query scores with. */
  function QueryText(query: string): string {
    JoinWith(" ", Words(Lower(query)))
  }

  /** Lower-casing the query first does not change what is searched for. */
  lemma QueryIgnoresCase(query: string)
    ensures QueryText(Lower(query)) == QueryText(query)
  {
    LowerIdempotent(query);
  }

  /**
   * The normalised query splits back into the query's words: the words of
   * `query.lower()`, each a maximal run of non-whitespace, joined by single
   * spaces.
   */
  lemma QueryWords(query: string)
    ensures Words(QueryText(query)) == Words(Lower(query))
  {
    var ws := Words(Lower(query));
    assert forall i :: 0 <= i < |ws| ==> IsWord(ws[i]);
    JoinWords(ws);
  }

  /** Every indexed path has its trigram set in the map. */
  predicate Scorable(files: seq<FileRecord>, trigrams: map<string, set<string>>) {
    forall i :: 0 <= i < |files| ==> files[i].path in trigrams
  }

  /** `score_filename` applied to every file, in list order. */
  function Scores(files: seq<FileRecord>, trigrams: map<string, set<string>>, query: string): (r: seq<real>)
    requires Scorable(files, trigrams)
    ensures |r| == |files|
  {
    var q := Trigrams.GetTrigrams(QueryText(query));
    seq(|files|, i requires 0 <= i < |files| => Trigrams.Score(q, trigrams[files[i].path]))
  }

  /** Both trigram sets are non-empty, so `score_filename` never takes its `union == 0` branch. */
  lemma UnionNeverEmpty(query: string, path: string)
    ensures |Trigrams.GetTrigrams(QueryText(query)) + Trigrams.GetTrigrams(path)| > 0
  {
    var q := Trigrams.GetTrigrams(QueryText(query));
    var w :| w in q;
    assert w in q + Trigrams.GetTrigrams(path);
  }

  // ---------------------------------------------------------------- stable sort

  /**
   * File `i` comes before file `j` in `sorted(files, key=score_filename)`:
   * a lower score, or an equal score and an earlier place in the list.
   */
  predicate Precedes(scores: seq<real>, i: nat, j: nat)
    requires i < |scores| && j < |scores|
  {
    scores[i] < scores[j] || (scores[i] == scores[j] && i < j)
  }

  predicate InRange(scores: seq<real>, s: seq<nat>) {
    forall k :: 0 <= k < |s| ==> s[k] < |scores|
  }

  /** Every earlier entry of `s` precedes every later one. */
  predicate Ordered(scores: seq<real>, s: seq<nat>)
    requires InRange(scores, s)
  {
    forall a, b :: 0 <= a < b < |s| ==> Precedes(scores, s[a], s[b])
  }

  /** Inserts index `i` before the first entry it precedes. */
  function Insert(scores: seq<real>, i: nat, sorted: seq<nat>): (r: seq<nat>)
    requires i < |scores| && InRange(scores, sorted)
    ensures InRange(scores, r)
    ensures multiset(r) == multiset(sorted) + multiset{i}
  {
    if sorted == [] then [i]
    else if Precedes(scores, i, sorted[0]) then [i] + sorted
    else
      assert sorted == [sorted[0]] + sorted[1..];
      [sorted[0]] + Insert(scores, i, sorted[1..])
  }

  /** The entries after inserting `i` are `i` and the old entries. */
  lemma {:induction false} InsertMembers(scores: seq<real>, i: nat, sorted: seq<nat>, x: nat)
    requires i < |scores| && InRange(scores, sorted)
    ensures x in Insert(scores, i, sorted) <==> x == i || x in sorted
  {
    if sorted != [] && !Precedes(scores, i, sorted[0]) {
      assert sorted == [sorted[0]] + sorted[1..];
      InsertMembers(scores, i, sorted[1..], x);
    }
  }

  /** The head of an ordered sequence precedes whatever follows it. */
  lemma OrderedHead(scores: seq<real>, sorted: seq<nat>, x: nat)
    requires InRange(scores, sorted) && Ordered(scores, sorted) && |sorted| > 0 && x in sorted[1..]
    ensures Precedes(scores, sorted[0], x)
  {
    var c :| 0 <= c < |sorted[1..]| && sorted[1..][c] == x;
    assert sorted[c + 1] == x;
  }

  /** An index that precedes every entry of an ordered sequence can go in front of it. */
  lemma ConsOrdered(scores: seq<real>, h: nat, rest: seq<nat>)
    requires h < |scores| && InRange(scores, rest) && Ordered(scores, rest)
    requires forall b :: 0 <= b < |rest| ==> Precedes(scores, h, rest[b])
    ensures InRange(scores, [h] + rest) && Ordered(scores, [h] + rest)
  {
    var r := [h] + rest;
    assert forall b :: 0 < b < |r| ==> r[b] == rest[b - 1];
  }

  /** Inserting a new index into an ordered sequence keeps it ordered. */
  lemma {:induction false} InsertOrdered(scores: seq<real>, i: nat, sorted: seq<nat>)
    requires i < |scores| && InRange(scores, sorted) && Ordered(scores, sorted) && i !in sorted
    ensures Ordered(scores, Insert(scores, i, sorted))
  {
    if sorted != [] && !Precedes(scores, i, sorted[0]) {
      var tail := sorted[1..];
      assert sorted[0] in sorted;
      InsertOrdered(scores, i, tail);
      var rest := Insert(scores, i, tail);
      forall b | 0 <= b < |rest|
        ensures Precedes(scores, sorted[0], rest[b])
      {
        InsertMembers(scores, i, tail, rest[b]);
        if rest[b] != i {
          OrderedHead(scores, sorted, rest[b]);
        }
      }
      ConsOrdered(scores, sorted[0], rest);
    } else if sorted != [] {
      assert forall b :: 0 <= b < |sorted| ==> Precedes(scores, sorted[0], sorted[b]) || b == 0;
      ConsOrdered(scores, i, sorted);
    }
  }

  predicate Distinct(s: seq<nat>) {
    forall a, b :: 0 <= a < b < |s| ==> s[a] != s[b]
  }

  /** Insertion sort of the indices `idx` by `Precedes`. */
  function SortIndices(scores: seq<real>, idx: seq<nat>): (r: seq<nat>)
    requires InRange(scores, idx)
    ensures InRange(scores, r)
    ensures multiset(r) == multiset(idx)
  {
    if idx == [] then []
    else
      var init := idx[..|idx| - 1];
      assert idx == init + [idx[|idx| - 1]];
      Insert(scores, idx[|idx| - 1], SortIndices(scores, init))
  }

  /** Sorting distinct indices orders them. */
  lemma {:induction false} SortIndicesOrdered(scores: seq<real>, idx: seq<nat>)
    requires InRange(scores, idx) && Distinct(idx)
    ensures Ordered(scores, SortIndices(scores, idx))
  {
    if idx != [] {
      var init := idx[..|idx| - 1];
      var last := idx[|idx| - 1];
      assert idx == init + [last];
      SortIndicesOrdered(scores, init);
      var sorted := SortIndices(scores, init);
      assert last !in init;
      assert last !in multiset(sorted);
      InsertOrdered(scores, last, sorted);
    }
  }

  function Range(n: nat): (r: seq<nat>)
    ensures |r| == n && forall k :: 0 <= k < n ==> r[k] == k
  {
    seq(n, k requires 0 <= k < n => k)
  }

  /**
   * The order of `sorted(files, key=score_filename)`, as positions in
   * `files`: each position once, ascending score, ties kept in list order.
   */
  function Ranking(scores: seq<real>): (r: seq<nat>)
    ensures |r| == |scores| && InRange(scores, r)
    ensures multiset(r) == multiset(Range(|scores|))
    ensures Ordered(scores, r)
  {
    var idx := Range(|scores|);
    var r := SortIndices(scores, idx);
    assert |r| == |multiset(r)| == |multiset(idx)| == |idx|;
    SortIndicesOrdered(scores, idx);
    r
  }

  /** The ranking holds every position of the file list. */
  lemma RankingCovers(scores: seq<real>, j: nat)
    requires j < |scores|
    ensures j in Ranking(scores)
  {
    var idx := Range(|scores|);
    assert idx[j] == j;
    assert j in multiset(idx);
  }

  // ---------------------------------------------------------------- results

  /** `xs[:n]`, negative `n` counting from the end as Python slices do. */
  function Take<T>(xs: seq<T>, n: int): (r: seq<T>)
    ensures |r| == if n >= 0 then Min(n, |xs|) else Max(0, |xs| + n)
    ensures r == xs[..|r|]
  {
    if n >= |xs| then xs
    else if n >= 0 then xs[..n]
    else if |xs| + n > 0 then xs[..|xs| + n]
    else []
  }

  function Min(a: int, b: int): int {
    if a <= b then a else b
  }

  function Max(a: int, b: int): int {
    if a >= b then a else b
  }

  /** The tuple `search` builds for one file; the region label is "" without a bbox. */
  function ResultFor(f: FileRecord, now: int, finder: BBoxFinder): ResultRow
    requires finder.Valid()
    reads finder
  {
    ResultRow(f.path, Humanize.HumanizeATime(f.lastAccessed, now), f.fileType, f.geometryType,
              if f.bbox.Some? then finder.FindContainingBBox(f.bbox.value) else "")
  }

  /** What `search(query, n)` returns once an index exists, with `time()` read as `now`. */
  function SearchResults(files: seq<FileRecord>, trigrams: map<string, set<string>>, query: string, n: int,
                         now: int, finder: BBoxFinder): (r: seq<ResultRow>)
    requires Scorable(files, trigrams) && finder.Valid()
    reads finder
    ensures |r| == if n >= 0 then Min(n, |files|) else Max(0, |files| + n)
  {
    var chosen := Take(Ranking(Scores(files, trigrams, query)), n);
    Rows(files, chosen, now, finder)
  }

  /** The list comprehension of `search`: one tuple per chosen file, in order. */
  function Rows(files: seq<FileRecord>, chosen: seq<nat>, now: int, finder: BBoxFinder): (r: seq<ResultRow>)
    requires forall k :: 0 <= k < |chosen| ==> chosen[k] < |files|
    requires finder.Valid()
    reads finder
    ensures |r| == |chosen|
    ensures forall k :: 0 <= k < |chosen| ==> r[k] == ResultFor(files[chosen[k]], now, finder)
  {
    if chosen == [] then []
    else [ResultFor(files[chosen[0]], now, finder)] + Rows(files, chosen[1..], now, finder)
  }

  /**
   * The results are the tuples of the best-ranked files, best first: row `k`
   * is the tuple of the file at place `k` of the ranking.
   */
  lemma ResultsFollowRanking(files: seq<FileRecord>, trigrams: map<string, set<string>>, query: string, n: int,
                             now: int, finder: BBoxFinder, k: nat)
    requires Scorable(files, trigrams) && finder.Valid()
    requires k < |SearchResults(files, trigrams, query, n, now, finder)|
    ensures var order := Ranking(Scores(files, trigrams, query));
      k < |order| && SearchResults(files, trigrams, query, n, now, finder)[k] == ResultFor(files[order[k]], now, finder)
  {
    var order := Ranking(Scores(files, trigrams, query));
    var chosen := Take(order, n);
    assert chosen[k] == order[k];
  }

  /**
   * Top `n`: a file the results leave out scores no better than any file
   * they show, and when it scores the same it comes later in the list.
   */
  lemma LeftOutRanksLower(scores: seq<real>, n: int, k: nat, j: nat)
    requires k < |Take(Ranking(scores), n)| && j < |scores|
    requires j !in Take(Ranking(scores), n)
    ensures Precedes(scores, Take(Ranking(scores), n)[k], j)
  {
    var order := Ranking(scores);
    var chosen := Take(order, n);
    RankingCovers(scores, j);
    var m :| 0 <= m < |order| && order[m] == j;
    assert chosen[k] == order[k];
  }

  /**
   * When some file's path has exactly the query's trigram set, the first
   * ranked file scores -1 and its trigram set is the query's.
   */
  lemma ExactMatchFirst(files: seq<FileRecord>, trigrams: map<string, set<string>>, query: string, j: nat)
    requires Scorable(files, trigrams) && j < |files|
    requires trigrams[files[j].path] == Trigrams.GetTrigrams(QueryText(query))
    ensures var scores := Scores(files, trigrams, query);
      var first := Ranking(scores)[0];
      scores[first] == -1.0 && trigrams[files[first].path] == Trigrams.GetTrigrams(QueryText(query))
  {
    var q := Trigrams.GetTrigrams(QueryText(query));
    var scores := Scores(files, trigrams, query);
    var order := Ranking(scores);
    var first := order[0];
    Trigrams.ExactMatchScore(q, trigrams[files[j].path]);
    Trigrams.ScoreBounds(q, trigrams[files[first].path]);
    RankingCovers(scores, j);
    var m :| 0 <= m < |order| && order[m] == j;
    if m > 0 {
      assert Precedes(scores, order[0], order[m]);
    }
    Trigrams.ExactMatchScore(q, trigrams[files[first].path]);
  }

  /** A consistent index can be scored: every file's path is a key of the trigram map. */
  lemma ConsistentIsScorable(files: seq<FileRecord>, trigrams: map<string, set<string>>)
    requires TrigramsConsistent(files, trigrams)
    ensures Scorable(files, trigrams)
  {
    forall i | 0 <= i < |files|
      ensures files[i].path in trigrams
    {
      var p := files[i].path;
      assert exists k :: 0 <= k < |files| && files[k].path == p;
    }
  }

  // ---------------------------------------------------------------- the engine

  class KueFind {
    var files: seq<FileRecord>
    var filenameTrigrams: map<string, set<string>>
    var indexTask: IndexingTask?
    var indexTaskTrash: seq<IndexingTask>
    const bboxFinder: BBoxFinder
    /** What `os.path.expanduser("~")` names: the directory a first search indexes. */
    const homeDir: string

    /** The index is consistent, and so is the region table and the running task. */
    ghost predicate Valid()
      reads this, bboxFinder, indexTask
    {
      TrigramsConsistent(files, filenameTrigrams) && bboxFinder.Valid() &&
      (indexTask != null ==> indexTask.Valid())
    }

    /** `KueFind()`, given the data rows of the region table and the home directory. */
    constructor (regions: seq<RegionRow>, homeDir: string)
      ensures Valid()
      ensures files == [] && filenameTrigrams == map[] && indexTask == null && indexTaskTrash == []
      ensures this.homeDir == homeDir && fresh(bboxFinder)
      ensures |bboxFinder.names| == |regions| + 1
      ensures bboxFinder.names[0] == NullIslandName && bboxFinder.bboxes[0] == NullIslandBox
      ensures forall k :: 0 <= k < |regions| ==>
                bboxFinder.names[k + 1] == regions[k].name &&
                bboxFinder.bboxes[k + 1] == BBox(regions[k].minx, regions[k].miny, regions[k].maxx, regions[k].maxy)
    {
      files := [];
      filenameTrigrams := map[];
      indexTask := null;
      indexTaskTrash := [];
      bboxFinder := new BBoxFinder(regions);
      this.homeDir := homeDir;
    }

    /**
     * `index(dir_path)`: a fresh task for `dir_path` becomes the current task
     * and is kept in the trash list; the index itself is untouched until the
     * task reports back through `TaskCompleted`. Scheduling the task is not
     * modelled: `IndexingTask.Run` is what the task manager runs.
     */
    method Index(dirPath: string)
      requires Valid()
      modifies this
      ensures Valid()
      ensures indexTask != null && fresh(indexTask) && indexTask.dirPath == dirPath
      ensures indexTask.files == [] && indexTask.filenameTrigrams == map[] && !indexTask.exception
      ensures indexTaskTrash == old(indexTaskTrash) + [indexTask]
      ensures files == old(files) && filenameTrigrams == old(filenameTrigrams)
    {
      indexTask := new IndexingTask(dirPath);
      indexTaskTrash := indexTaskTrash + [indexTask];
    }

    /**
     * The `task_completed` callback, connected to both `taskCompleted` and
     * `taskTerminated`. Without an exception argument (and neither signal
     * passes one) the index becomes the current task's lists wholesale; the
     * current task is then cleared. With no current task, reading its files
     * raises, which `failed` reports, and nothing changes.
     */
    method TaskCompleted(exceptionGiven: bool) returns (failed: bool)
      requires Valid()
      modifies this
      ensures Valid()
      ensures failed <==> !exceptionGiven && old(indexTask) == null
      ensures failed ==> files == old(files) && filenameTrigrams == old(filenameTrigrams) && indexTask == old(indexTask)
      ensures !failed ==> indexTask == null
      ensures !failed && !exceptionGiven ==>
        files == old(indexTask.files) && filenameTrigrams == old(indexTask.filenameTrigrams)
      ensures exceptionGiven ==> files == old(files) && filenameTrigrams == old(filenameTrigrams)
      ensures indexTaskTrash == old(indexTaskTrash)
    {
      if !exceptionGiven {
        if indexTask == null {
          return true;
        }
        files := indexTask.files;
        filenameTrigrams := indexTask.filenameTrigrams;
      }
      indexTask := null;
      return false;
    }

    /**
     * `search(query, n)`, with `time()` read as `now`. With an empty trigram
     * map and no task, it starts indexing the home directory and returns [];
     * otherwise it leaves the state as it is and returns the ranked rows.
     */
    method Search(query: string, n: int, now: int) returns (results: seq<ResultRow>)
      requires Valid()
      modifies this
      ensures Valid()
      ensures old(filenameTrigrams) == map[] && old(indexTask) == null ==>
        results == [] && indexTask != null && fresh(indexTask) && indexTask.dirPath == homeDir &&
        indexTaskTrash == old(indexTaskTrash) + [indexTask] &&
        files == old(files) && filenameTrigrams == old(filenameTrigrams)
      ensures !(old(filenameTrigrams) == map[] && old(indexTask) == null) ==>
        Scorable(files, filenameTrigrams) &&
        results == SearchResults(files, filenameTrigrams, query, n, now, bboxFinder) &&
        files == old(files) && filenameTrigrams == old(filenameTrigrams) &&
        indexTask == old(indexTask) && indexTaskTrash == old(indexTaskTrash)
    {
      if filenameTrigrams == map[] && indexTask == null {
        Index(homeDir);
        return [];
      }
      ConsistentIsScorable(files, filenameTrigrams);
      results := SearchResults(files, filenameTrigrams, query, n, now, bboxFinder);
    }
  }
}
