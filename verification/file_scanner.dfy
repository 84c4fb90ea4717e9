/**
 * File selection: which scanned markdown files are indexed, by the include
 * and exclude glob patterns and the size bounds of the index configuration.
 * Directory walking, pathlib's glob matching and file sizes are supplied as
 * inputs.
 */
module FileScanner {
  import opened Wrappers

  /** The default upper size bound, 10 MiB. */
  const DefaultMaxFileSize: int := 10485760

  /**
   * The index configuration. An absent `include` or `exclude` list is the
   * empty list; an absent size bound is `None`.
   */
  datatype Config = Config(
    includePatterns: seq<string>,
    excludePatterns: seq<string>,
    minFileSize: Option<int>,
    maxFileSize: Option<int>)

  predicate MatchesAny(path: string, patterns: seq<string>, matches: (string, string) -> bool) {
    exists k | 0 <= k < |patterns| :: matches(path, patterns[k])
  }

  /**
   * `_should_include_file`: an include list that is not empty must match, no
   * exclude pattern may match, and the size must lie within the bounds
   * (0 and 10485760 by default), both ends included. `ExcludeNarrows` and
   * `IncludeWidens` below state how the answer moves with the pattern lists.
   */
  function ShouldIncludeFile(path: string, config: Config, matches: (string, string) -> bool, fileSize: int): (ok: bool)
    ensures ok <==>
      && (config.includePatterns == [] || MatchesAny(path, config.includePatterns, matches))
      && !MatchesAny(path, config.excludePatterns, matches)
      && config.minFileSize.GetOr(0) <= fileSize <= config.maxFileSize.GetOr(DefaultMaxFileSize)
  {
    if config.includePatterns != [] && !MatchesAny(path, config.includePatterns, matches) then false
    else if config.excludePatterns != [] && MatchesAny(path, config.excludePatterns, matches) then false
    else
      var minSize := config.minFileSize.GetOr(0);
      var maxSize := config.maxFileSize.GetOr(DefaultMaxFileSize);
      minSize <= fileSize <= maxSize
  }

  /** An extra exclude pattern never lets in a file that was left out. */
  lemma ExcludeNarrows(path: string, config: Config, pattern: string, matches: (string, string) -> bool, fileSize: int)
    ensures ShouldIncludeFile(path, config.(excludePatterns := config.excludePatterns + [pattern]), matches, fileSize) ==>
      ShouldIncludeFile(path, config, matches, fileSize)
  {
    var c' := config.(excludePatterns := config.excludePatterns + [pattern]);
    if MatchesAny(path, config.excludePatterns, matches) {
      var k :| 0 <= k < |config.excludePatterns| && matches(path, config.excludePatterns[k]);
      assert c'.excludePatterns[k] == config.excludePatterns[k];
    }
  }

  /** An extra include pattern never shuts out a file that a non-empty include list let in. */
  lemma IncludeWidens(path: string, config: Config, pattern: string, matches: (string, string) -> bool, fileSize: int)
    requires config.includePatterns != []
    ensures ShouldIncludeFile(path, config, matches, fileSize) ==>
      ShouldIncludeFile(path, config.(includePatterns := config.includePatterns + [pattern]), matches, fileSize)
  {
    var c' := config.(includePatterns := config.includePatterns + [pattern]);
    if MatchesAny(path, config.includePatterns, matches) {
      var k :| 0 <= k < |config.includePatterns| && matches(path, config.includePatterns[k]);
      assert c'.includePatterns[k] == config.includePatterns[k];
    }
  }

  /**
   * `scan_files`: the scanned relative paths that pass the filter, or the
   * error raised when the configuration cannot be loaded.
   */
  method ScanFiles(mdFiles: set<string>, config: Result<Config, string>, matches: (string, string) -> bool, fileSize: string -> int)
    returns (r: Result<set<string>, string>)
    ensures config.Failure? ==> r == Failure(config.error)
    ensures config.Success? ==>
      && r.Success?
      && r.value == set f | f in mdFiles && ShouldIncludeFile(f, config.value, matches, fileSize(f))
  {
    if config.Failure? {
      return Failure(config.error);
    }
    var filteredFiles: set<string> := {};
    var todo := mdFiles;
    while todo != {}
      invariant todo <= mdFiles
      invariant filteredFiles == set f | f in mdFiles - todo && ShouldIncludeFile(f, config.value, matches, fileSize(f))
      decreases |todo|
    {
      var mdFile :| mdFile in todo;
      if ShouldIncludeFile(mdFile, config.value, matches, fileSize(mdFile)) {
        filteredFiles := filteredFiles + {mdFile};
      }
      todo := todo - {mdFile};
    }
    return Success(filteredFiles);
  }
}
