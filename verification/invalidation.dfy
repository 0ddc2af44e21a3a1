/**
  Incremental invalidation (`cleanupDatabase`): before the metric passes run,
  every persisted metric whose file the parser context reports as DELETED,
  MODIFIED or ACTION_CHANGED is erased, together with its entry in the
  in-memory caches the parser built when it was constructed.
 */
module Invalidation {
  import opened MetricTypes

  /**
    The persisted metric tables and the two caches: the ids of files that
    own file-level metrics, and the owning file of every AST node that has
    AST-node-level metrics.
   */
  datatype State = State(
    fileIdCache: set<FileId>,
    astNodeIdCache: map<AstNodeId, FileId>,
    fileMetrics: seq<FileMetric>,
    astNodeMetrics: seq<AstNodeMetric>)

  /** The cleanup either commits its transaction or reports failure (`false`). */
  datatype Outcome = Cleaned(state: State) | TransactionFailed

  /** A file whose metrics are stale: its status is known and is one of the three changed statuses. */
  predicate IsStale(fileStatus: map<Path, FileStatus>, path: Path) {
    path in fileStatus && fileStatus[path] in {Deleted, Modified, ActionChanged}
  }

  /**
    Every cached AST node's file is a row of the File table. When the file
    id cache is not empty, the cleanup dereferences the File it looks up for
    each cached node without a check, so it needs this.
   */
  predicate CachedFilesKnown(s: State, files: map<FileId, Path>) {
    forall n :: n in s.astNodeIdCache ==> s.astNodeIdCache[n] in files
  }

  /** Cached file ids whose File row exists and whose status is stale. */
  function StaleFiles(s: State, files: map<FileId, Path>, fileStatus: map<Path, FileStatus>): set<FileId> {
    set id | id in s.fileIdCache && id in files && IsStale(fileStatus, files[id])
  }

  /** Cached AST nodes whose owning file is stale. */
  function StaleNodes(s: State, files: map<FileId, Path>, fileStatus: map<Path, FileStatus>): set<AstNodeId>
    requires CachedFilesKnown(s, files)
  {
    set n | n in s.astNodeIdCache && IsStale(fileStatus, files[s.astNodeIdCache[n]])
  }

  /** `erase_query` on the file metrics table: drop the records of the given files, keep the rest in order. */
  function EraseFileMetrics(ms: seq<FileMetric>, ids: set<FileId>): (r: seq<FileMetric>)
    ensures |r| <= |ms|
    ensures forall m :: m in r <==> m in ms && m.file !in ids
    ensures forall m: FileMetric :: m.file !in ids ==> multiset(r)[m] == multiset(ms)[m]
  {
    if ms == [] then []
    else
      var rest := EraseFileMetrics(ms[1..], ids);
      assert ms == [ms[0]] + ms[1..];
      if ms[0].file in ids then rest else [ms[0]] + rest
  }

  /** `erase_query` on the AST-node metrics table: drop the records of the given nodes, keep the rest in order. */
  function EraseAstNodeMetrics(ms: seq<AstNodeMetric>, ids: set<AstNodeId>): (r: seq<AstNodeMetric>)
    ensures |r| <= |ms|
    ensures forall m :: m in r <==> m in ms && m.astNodeId !in ids
    ensures forall m: AstNodeMetric :: m.astNodeId !in ids ==> multiset(r)[m] == multiset(ms)[m]
  {
    if ms == [] then []
    else
      var rest := EraseAstNodeMetrics(ms[1..], ids);
      assert ms == [ms[0]] + ms[1..];
      if ms[0].astNodeId in ids then rest else [ms[0]] + rest
  }

  /**
    `cleanupDatabase`. Nothing happens, and the result is success, when the
    file id cache is empty (the AST node cache is then left alone as well).
    Otherwise, in one transaction, stale files lose their file metrics and
    their cache entry, then stale AST nodes lose their metrics and their
    cache entry. Erasing from the AST node cache while iterating it is
    modelled as a filter.
   */
  function Cleanup(s: State, files: map<FileId, Path>, fileStatus: map<Path, FileStatus>, transactionFails: bool): (r: Outcome)
    requires s.fileIdCache != {} ==> CachedFilesKnown(s, files)
    ensures s.fileIdCache == {} ==> r == Cleaned(s)
    ensures s.fileIdCache != {} ==> (r.TransactionFailed? <==> transactionFails)
    ensures r.Cleaned? && CachedFilesKnown(s, files) ==> CachedFilesKnown(r.state, files)
    // no cached file id and no cached AST node is left pointing at a stale file
    ensures r.Cleaned? && s.fileIdCache != {} ==>
      && (forall id :: id in r.state.fileIdCache ==> !(id in files && IsStale(fileStatus, files[id])))
      && (forall n :: n in r.state.astNodeIdCache ==> !IsStale(fileStatus, files[r.state.astNodeIdCache[n]]))
    // nothing else changes in the caches
    ensures r.Cleaned? ==>
      && r.state.fileIdCache <= s.fileIdCache
      && (forall id :: id in s.fileIdCache && !(id in files && IsStale(fileStatus, files[id])) ==> id in r.state.fileIdCache)
      && (forall n :: n in r.state.astNodeIdCache ==> n in s.astNodeIdCache && r.state.astNodeIdCache[n] == s.astNodeIdCache[n])
      && (s.fileIdCache != {} ==>
            forall n :: n in s.astNodeIdCache && !IsStale(fileStatus, files[s.astNodeIdCache[n]]) ==> n in r.state.astNodeIdCache)
    // metric records survive exactly when their file (node) was not a stale cache entry
    ensures r.Cleaned? && s.fileIdCache != {} ==>
      && (forall m :: m in r.state.fileMetrics <==>
            m in s.fileMetrics && !(m.file in s.fileIdCache && m.file in files && IsStale(fileStatus, files[m.file])))
      && (forall m :: m in r.state.astNodeMetrics <==>
            m in s.astNodeMetrics && !(m.astNodeId in s.astNodeIdCache && IsStale(fileStatus, files[s.astNodeIdCache[m.astNodeId]])))
  {
    if s.fileIdCache == {} then Cleaned(s)
    else if transactionFails then TransactionFailed
    else Cleaned(Prune(s, files, fileStatus))
  }

  /** The committed effect of the cleanup transaction: both loops of `cleanupDatabase`. */
  function Prune(s: State, files: map<FileId, Path>, fileStatus: map<Path, FileStatus>): State
    requires CachedFilesKnown(s, files)
  {
    var staleFiles := StaleFiles(s, files, fileStatus);
    var staleNodes := StaleNodes(s, files, fileStatus);
    State(
      s.fileIdCache - staleFiles,
      map n | n in s.astNodeIdCache && n !in staleNodes :: s.astNodeIdCache[n],
      EraseFileMetrics(s.fileMetrics, staleFiles),
      EraseAstNodeMetrics(s.astNodeMetrics, staleNodes))
  }

  lemma {:induction false} EraseNothingFileMetrics(ms: seq<FileMetric>)
    ensures EraseFileMetrics(ms, {}) == ms
  {
    if ms != [] {
      EraseNothingFileMetrics(ms[1..]);
      assert ms == [ms[0]] + ms[1..];
    }
  }

  lemma {:induction false} EraseNothingAstNodeMetrics(ms: seq<AstNodeMetric>)
    ensures EraseAstNodeMetrics(ms, {}) == ms
  {
    if ms != [] {
      EraseNothingAstNodeMetrics(ms[1..]);
      assert ms == [ms[0]] + ms[1..];
    }
  }

  /** Pruning a state in which nothing cached is stale changes nothing. */
  lemma PruneNothingStale(s: State, files: map<FileId, Path>, fileStatus: map<Path, FileStatus>)
    requires CachedFilesKnown(s, files)
    requires StaleFiles(s, files, fileStatus) == {}
    requires StaleNodes(s, files, fileStatus) == {}
    ensures Prune(s, files, fileStatus) == s
  {
    EraseNothingFileMetrics(s.fileMetrics);
    EraseNothingAstNodeMetrics(s.astNodeMetrics);
    var m := map n | n in s.astNodeIdCache && n !in {} :: s.astNodeIdCache[n];
    assert m == s.astNodeIdCache;
    assert s.fileIdCache - {} == s.fileIdCache;
  }

  /** After pruning, no cached file or AST node is stale any more. */
  lemma NothingStaleAfterPrune(s: State, files: map<FileId, Path>, fileStatus: map<Path, FileStatus>)
    requires CachedFilesKnown(s, files)
    ensures CachedFilesKnown(Prune(s, files, fileStatus), files)
    ensures StaleFiles(Prune(s, files, fileStatus), files, fileStatus) == {}
    ensures StaleNodes(Prune(s, files, fileStatus), files, fileStatus) == {}
  {
    var s1 := Prune(s, files, fileStatus);
    var sf := StaleFiles(s1, files, fileStatus);
    var sn := StaleNodes(s1, files, fileStatus);
    assert forall id :: id !in sf;
    assert forall n :: n !in sn;
  }

  /** A second successful cleanup with the same file statuses erases nothing more. */
  lemma {:induction false} CleanupIdempotent(s: State, files: map<FileId, Path>, fileStatus: map<Path, FileStatus>, fails: bool)
    requires s.fileIdCache != {} ==> CachedFilesKnown(s, files)
    requires Cleanup(s, files, fileStatus, fails).Cleaned?
    ensures Cleanup(Cleanup(s, files, fileStatus, fails).state, files, fileStatus, false)
         == Cleanup(s, files, fileStatus, fails)
  {
    if s.fileIdCache != {} {
      var s1 := Prune(s, files, fileStatus);
      NothingStaleAfterPrune(s, files, fileStatus);
      if s1.fileIdCache != {} {
        PruneNothingStale(s1, files, fileStatus);
      }
    }
  }
}
