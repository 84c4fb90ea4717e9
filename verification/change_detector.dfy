/**
 * Change detection: which scanned files are new, which changed since they
 * were last indexed, and which indexed files have gone; and the document id
 * a file path maps to. The history lookups and the SHA-256 of a file's
 * contents are supplied as functions.
 */
module ChangeDetector {
  import opened Wrappers
  import opened Text

  /** The three change sets. */
  datatype Changes = Changes(added: set<string>, modified: set<string>, deleted: set<string>)

  /**
   * The changes for `currentFiles` against the indexed paths: a current file is
   * added when it is not indexed or has no history record, modified when its
   * recorded hash differs from its current one; the indexed paths no longer
   * current are deleted.
   */
  function ChangesOf(currentFiles: set<string>, indexedFiles: set<string>, historyHash: string -> Option<string>, fileHash: string -> string): (c: Changes)
    ensures c.added !! c.modified && c.added !! c.deleted && c.modified !! c.deleted
    ensures c.added + c.modified <= currentFiles
    ensures c.deleted == indexedFiles - currentFiles
    ensures forall f | f in currentFiles ::
      (f in c.added <==> f !in indexedFiles || historyHash(f).None?) &&
      (f in c.modified <==> f in indexedFiles && historyHash(f).Some? && historyHash(f).value != fileHash(f))
  {
    var added := set f | f in currentFiles && (f !in indexedFiles || historyHash(f).None?);
    var modified := set f | f in currentFiles && f in indexedFiles && historyHash(f).Some? && historyHash(f).value != fileHash(f);
    Changes(added, modified, indexedFiles - currentFiles)
  }

  /**
   * `detect_changes`: one pass over the current files, adding each to `added`
   * or `modified` as its history says and discarding it from the indexed
   * set; what is left of that set is `deleted`.
   */
  method DetectChanges(currentFiles: set<string>, indexedFiles: set<string>, historyHash: string -> Option<string>, fileHash: string -> string)
    returns (added: set<string>, modified: set<string>, deleted: set<string>)
    ensures Changes(added, modified, deleted) == ChangesOf(currentFiles, indexedFiles, historyHash, fileHash)
  {
    var remainingIndexed := indexedFiles;
    added := {};
    modified := {};
    var todo := currentFiles;
    while todo != {}
      invariant todo <= currentFiles
      invariant Changes(added, modified, remainingIndexed) == ChangesOf(currentFiles - todo, indexedFiles, historyHash, fileHash)
      decreases |todo|
    {
      var mdFile :| mdFile in todo;
      ghost var done := currentFiles - todo;
      ghost var before := Changes(added, modified, remainingIndexed);
      assert mdFile !in done && remainingIndexed == indexedFiles - done;
      added, modified, remainingIndexed := ClassifyFile(mdFile, added, modified, remainingIndexed, indexedFiles, historyHash, fileHash);
      StepMatches(done, mdFile, indexedFiles, historyHash, fileHash, before, Changes(added, modified, remainingIndexed));
      DoneGrows(currentFiles, todo, mdFile);
      todo := todo - {mdFile};
    }
    assert currentFiles - todo == currentFiles;
    deleted := remainingIndexed;
  }

  /** The loop body of `detect_changes` for one current file. */
  method ClassifyFile(mdFile: string, added: set<string>, modified: set<string>, indexedLeft: set<string>,
                      indexedFiles: set<string>, historyHash: string -> Option<string>, fileHash: string -> string)
    returns (added': set<string>, modified': set<string>, indexedLeft': set<string>)
    requires mdFile in indexedLeft <==> mdFile in indexedFiles
    ensures added' == added + (if mdFile !in indexedFiles || historyHash(mdFile).None? then {mdFile} else {})
    ensures modified' == modified + (if mdFile in indexedFiles && historyHash(mdFile).Some? && historyHash(mdFile).value != fileHash(mdFile) then {mdFile} else {})
    ensures indexedLeft' == indexedLeft - {mdFile}
  {
    added', modified', indexedLeft' := added, modified, indexedLeft;
    if mdFile !in indexedLeft {
      added' := added + {mdFile};
    } else {
      var history := historyHash(mdFile);
      if history.None? {
        added' := added + {mdFile};
      } else {
        var currentHash := fileHash(mdFile);
        if history.value != currentHash {
          modified' := modified + {mdFile};
        }
      }
      indexedLeft' := indexedLeft - {mdFile};
    }
  }

  /** The loop body keeps the loop invariant. */
  lemma StepMatches(done: set<string>, f: string, indexedFiles: set<string>, historyHash: string -> Option<string>, fileHash: string -> string,
                    c: Changes, c': Changes)
    requires f !in done && c == ChangesOf(done, indexedFiles, historyHash, fileHash)
    requires c'.added == c.added + (if f !in indexedFiles || historyHash(f).None? then {f} else {})
    requires c'.modified == c.modified + (if f in indexedFiles && historyHash(f).Some? && historyHash(f).value != fileHash(f) then {f} else {})
    requires c'.deleted == c.deleted - {f}
    ensures c' == ChangesOf(done + {f}, indexedFiles, historyHash, fileHash)
  {
    ChangesStep(done, f, indexedFiles, historyHash, fileHash);
  }

  lemma DoneGrows(all: set<string>, todo: set<string>, x: string)
    requires x in todo && todo <= all
    ensures all - (todo - {x}) == (all - todo) + {x}
  {
  }

  /** Taking one more current file into account. */
  lemma ChangesStep(done: set<string>, f: string, indexedFiles: set<string>, historyHash: string -> Option<string>, fileHash: string -> string)
    requires f !in done
    ensures var c := ChangesOf(done, indexedFiles, historyHash, fileHash);
      var c' := ChangesOf(done + {f}, indexedFiles, historyHash, fileHash);
      && c'.added == c.added + (if f !in indexedFiles || historyHash(f).None? then {f} else {})
      && c'.modified == c.modified + (if f in indexedFiles && historyHash(f).Some? && historyHash(f).value != fileHash(f) then {f} else {})
      && c'.deleted == c.deleted - {f}
  {
  }

  /** A file whose recorded hash equals its current hash is in no change set. */
  lemma UnchangedFileIsQuiet(currentFiles: set<string>, indexedFiles: set<string>, historyHash: string -> Option<string>, fileHash: string -> string, f: string)
    requires f in currentFiles && f in indexedFiles && historyHash(f) == Some(fileHash(f))
    ensures var c := ChangesOf(currentFiles, indexedFiles, historyHash, fileHash);
      f !in c.added && f !in c.modified && f !in c.deleted
  {
  }

  /** Every current file is added, modified, or indexed with an unchanged hash. */
  lemma ChangesCoverCurrent(currentFiles: set<string>, indexedFiles: set<string>, historyHash: string -> Option<string>, fileHash: string -> string)
    ensures var c := ChangesOf(currentFiles, indexedFiles, historyHash, fileHash);
      currentFiles == c.added + c.modified + (set f | f in currentFiles && f in indexedFiles && historyHash(f) == Some(fileHash(f)))
  {
  }

  // ------------------------------------------------------------ document ids

  /** Where the final path segment starts: just after the last '/'. */
  function NameStart(path: string): (i: nat)
    ensures i <= |path|
    ensures forall j | i <= j < |path| :: path[j] != '/'
    ensures i == 0 || path[i - 1] == '/'
  {
    match RFind(path, "/")
    case Some(p) =>
      OccursChar(path, '/', p);
      assert forall j | p + 1 <= j < |path| :: path[j] != '/' by {
        forall j | p + 1 <= j < |path| {
          OccursChar(path, '/', j);
        }
      }
      p + 1
    case None =>
      assert forall j | 0 <= j < |path| :: path[j] != '/' by {
        forall j | 0 <= j < |path| {
          OccursChar(path, '/', j);
        }
      }
      0
  }

  /**
   * The length of pathlib's suffix of a file name: from its last '.', provided
   * that dot is neither the first nor the last character; 0 otherwise.
   */
  function SuffixLength(name: string): (k: nat)
    ensures k <= |name|
    ensures k > 0 ==> 2 <= k < |name| && name[|name| - k] == '.'
    ensures k > 0 ==> forall j | |name| - k < j < |name| :: name[j] != '.'
  {
    match RFind(name, ".")
    case Some(p) =>
      if 0 < p < |name| - 1 then
        OccursChar(name, '.', p);
        assert forall j | p < j < |name| :: name[j] != '.' by {
          forall j | p < j < |name| {
            OccursChar(name, '.', j);
          }
        }
        |name| - p
      else 0
    case None => 0
  }

  /** A one-character pattern occurs exactly where that character stands. */
  lemma OccursChar(s: string, c: char, j: int)
    requires 0 <= j < |s|
    ensures OccursAt(s, [c], j) <==> s[j] == c
  {
    assert s[j..j + 1] == [s[j]];
  }

  /** `get_doc_id`: the path with the suffix of its final segment removed. */
  function GetDocId(path: string): (r: string)
    ensures r <= path
    ensures NameStart(path) < |r| || r == path
    ensures r == path || (path[|r|] == '.' && forall j | |r| < j < |path| :: path[j] != '.' && path[j] != '/')
  {
    var i := NameStart(path);
    path[..|path| - SuffixLength(path[i..])]
  }

  /** The id of a markdown file is its path without ".md". */
  lemma DocIdOfMarkdown(p: string)
    requires p != [] && p[|p| - 1] != '/'
    ensures GetDocId(p + ".md") == p
  {
    var path := p + ".md";
    var i := NameStart(path);
    assert path[|p|] == '.' && path[|p| + 1] == 'm' && path[|p| + 2] == 'd';
    assert path[|p| - 1] != '/';
    assert i <= |p| - 1;
    var name := path[i..];
    assert name[|name| - 3] == '.' && name[|name| - 2] == 'm' && name[|name| - 1] == 'd';
    OccursChar(name, '.', |name| - 3);
    var q := RFind(name, ".");
    assert q.Some? && q.value >= |name| - 3;
    OccursChar(name, '.', q.value);
    assert q.value == |name| - 3;
    assert SuffixLength(name) == 3;
  }

  lemma DocIdExample()
    ensures GetDocId("main/501-600/588.md") == "main/501-600/588"
  {
    DocIdOfMarkdown("main/501-600/588");
    assert "main/501-600/588" + ".md" == "main/501-600/588.md";
  }
}
