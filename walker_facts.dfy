/**
  What the traversal promises, proved about the specifications `FolderSpec`
  and `DocumentSpec` that `ProcessFolder` and `ProcessDirectory` are proved
  to compute.

  The lemmas about `FilesAmong` and `FoldersAmong` hold for any listing
  `names`, so they serve both `process_folder` (whose listing is the sorted
  directory) and the root loop (whose listing also names the readme, which
  `WithoutReadme` has taken out).
*/
module WalkerFacts {
  import opened Basics
  import opened Listing
  import opened Paths
  import opened Language
  import opened Walker

  // ---------------------------------------------------------------------
  // Reading the output tree

  /** Every file record at any depth under folder record `f`. */
  ghost function FilesIn(f: FolderRecord): set<FileRecord>
    decreases f
  {
    (set x | x in f.files) + (set i, x | 0 <= i < |f.folders| && x in FilesIn(f.folders[i]) :: x)
  }

  /** Every file record at any depth under a list of folder records. */
  ghost function FilesUnder(fs: seq<FolderRecord>): set<FileRecord>
  {
    set i, x | 0 <= i < |fs| && x in FilesIn(fs[i]) :: x
  }

  /** Every folder record strictly below `f`. */
  ghost function FoldersIn(f: FolderRecord): set<FolderRecord>
    decreases f
  {
    (set g | g in f.folders) + (set i, g | 0 <= i < |f.folders| && g in FoldersIn(f.folders[i]) :: g)
  }

  /** Every file record of the document: the root's own files and everything in its folders. */
  ghost function DocumentFiles(doc: Document): set<FileRecord>
  {
    (set x | doc.files.Some? && x in doc.files.value) + FilesUnder(doc.folders)
  }

  /** No folder record below `f` is empty. */
  ghost predicate Pruned(f: FolderRecord)
    decreases f
  {
    forall i :: 0 <= i < |f.folders| ==> !Empty(f.folders[i]) && Pruned(f.folders[i])
  }

  // ---------------------------------------------------------------------
  // An independent description of what the traversal must record

  /** The records for the non-ignored regular files named in `names`. */
  ghost function DirectFiles(mimeOf: MimeLookup, d: Directory, names: set<string>, fsPath: string, relPath: string): set<FileRecord>
  {
    set n | n in names && n in d.children && d.children[n].File? && n !in IgnoredFiles
      :: FileRecordOf(mimeOf, Join(fsPath, n), Join(relPath, n), n, d.children[n].read)
  }

  /** The visible files below the non-ignored subdirectories named in `names`. */
  ghost function SubdirFiles(mimeOf: MimeLookup, d: Directory, names: set<string>, fsPath: string, relPath: string): set<FileRecord>
    decreases d, 0
  {
    set n, x | n in names && n in d.children && d.children[n].Dir? && n !in IgnoredDirs
      && x in VisibleFiles(mimeOf, d.children[n].dir, Join(fsPath, n), Join(relPath, n)) :: x
  }

  /**
    The records of every regular file under `d` that is not an ignored file
    and is reached without entering an ignored directory.
  */
  ghost function VisibleFiles(mimeOf: MimeLookup, d: Directory, fsPath: string, relPath: string): set<FileRecord>
    decreases d, 1
  {
    DirectFiles(mimeOf, d, d.children.Keys, fsPath, relPath) + SubdirFiles(mimeOf, d, d.children.Keys, fsPath, relPath)
  }

  // ---------------------------------------------------------------------
  // Small facts

  lemma FilesUnderAppend(fs: seq<FolderRecord>, g: FolderRecord)
    ensures FilesUnder(fs + [g]) == FilesUnder(fs) + FilesIn(g)
  {
    var gs := fs + [g];
    forall x | x in FilesUnder(gs) ensures x in FilesUnder(fs) + FilesIn(g) {
      var i :| 0 <= i < |gs| && x in FilesIn(gs[i]);
      if i < |fs| {
        assert gs[i] == fs[i];
      }
    }
    forall x | x in FilesUnder(fs) + FilesIn(g) ensures x in FilesUnder(gs) {
      if x in FilesUnder(fs) {
        var i :| 0 <= i < |fs| && x in FilesIn(fs[i]);
        assert gs[i] == fs[i];
      } else {
        assert gs[|fs|] == g;
      }
    }
  }

  lemma FilesInSplit(f: FolderRecord)
    ensures FilesIn(f) == (set x | x in f.files) + FilesUnder(f.folders)
  {
  }

  lemma DirectFilesAdd(mimeOf: MimeLookup, d: Directory, names: set<string>, n: string, fsPath: string, relPath: string)
    ensures DirectFiles(mimeOf, d, names + {n}, fsPath, relPath)
      == DirectFiles(mimeOf, d, names, fsPath, relPath)
         + if n in d.children && d.children[n].File? && n !in IgnoredFiles
           then {FileRecordOf(mimeOf, Join(fsPath, n), Join(relPath, n), n, d.children[n].read)}
           else {}
  {
  }

  lemma SubdirFilesAdd(mimeOf: MimeLookup, d: Directory, names: set<string>, n: string, fsPath: string, relPath: string)
    ensures SubdirFiles(mimeOf, d, names + {n}, fsPath, relPath)
      == SubdirFiles(mimeOf, d, names, fsPath, relPath)
         + if n in d.children && d.children[n].Dir? && n !in IgnoredDirs
           then VisibleFiles(mimeOf, d.children[n].dir, Join(fsPath, n), Join(relPath, n))
           else {}
  {
  }

  /** Names the directory lacks add no direct file. */
  lemma DirectFilesOfKeys(mimeOf: MimeLookup, d: Directory, names: set<string>, fsPath: string, relPath: string)
    requires d.children.Keys <= names
    ensures DirectFiles(mimeOf, d, names, fsPath, relPath) == DirectFiles(mimeOf, d, d.children.Keys, fsPath, relPath)
  {
  }

  /** Names the directory lacks add no subdirectory file. */
  lemma SubdirFilesOfKeys(mimeOf: MimeLookup, d: Directory, names: set<string>, fsPath: string, relPath: string)
    requires d.children.Keys <= names
    ensures SubdirFiles(mimeOf, d, names, fsPath, relPath) == SubdirFiles(mimeOf, d, d.children.Keys, fsPath, relPath)
  {
  }

  lemma SetOfSnoc(prefix: seq<string>, n: string)
    ensures (set m | m in prefix + [n]) == (set m | m in prefix) + {n}
  {
  }

  // ---------------------------------------------------------------------
  // Filtering and pruning: the output holds exactly the visible files

  /** The file list of one level holds exactly the records of its non-ignored regular files. */
  lemma {:induction false} FilesAmongCollect(mimeOf: MimeLookup, d: Directory, names: seq<string>, fsPath: string, relPath: string)
    ensures (set x | x in FilesAmong(mimeOf, d, names, fsPath, relPath))
      == DirectFiles(mimeOf, d, (set n | n in names), fsPath, relPath)
    decreases |names|
  {
    if names != [] {
      var prefix, n := names[..|names| - 1], names[|names| - 1];
      FilesAmongCollect(mimeOf, d, prefix, fsPath, relPath);
      assert names == prefix + [n];
      SetOfSnoc(prefix, n);
      DirectFilesAdd(mimeOf, d, (set m | m in prefix), n, fsPath, relPath);
    }
  }

  /** The kept subfolders of one level hold exactly the visible files of its non-ignored subdirectories. */
  lemma {:induction false} FoldersAmongCollect(mimeOf: MimeLookup, d: Directory, names: seq<string>, fsPath: string, relPath: string)
    ensures FilesUnder(FoldersAmong(mimeOf, d, names, fsPath, relPath))
      == SubdirFiles(mimeOf, d, (set n | n in names), fsPath, relPath)
    decreases d, 0, |names|
  {
    if names != [] {
      var prefix, n := names[..|names| - 1], names[|names| - 1];
      var earlier := FoldersAmong(mimeOf, d, prefix, fsPath, relPath);
      var fs := FoldersAmong(mimeOf, d, names, fsPath, relPath);
      FoldersAmongCollect(mimeOf, d, prefix, fsPath, relPath);
      assert names == prefix + [n];
      SetOfSnoc(prefix, n);
      SubdirFilesAdd(mimeOf, d, (set m | m in prefix), n, fsPath, relPath);
      if n in d.children && d.children[n].Dir? && n !in IgnoredDirs {
        var sub := FolderSpec(mimeOf, d.children[n].dir, Join(fsPath, n), Join(relPath, n));
        FolderHoldsVisibleFiles(mimeOf, d.children[n].dir, Join(fsPath, n), Join(relPath, n));
        if !Empty(sub) {
          assert fs == earlier + [sub];
          FilesUnderAppend(earlier, sub);
        } else {
          assert fs == earlier;
          assert FilesIn(sub) == {};
        }
      } else {
        assert fs == earlier;
      }
    }
  }

  /**
    The files recorded anywhere under a folder are exactly its visible files:
    nothing under an ignored directory, no ignored file, and no visible file
    lost to pruning.
  */
  lemma {:induction false} FolderHoldsVisibleFiles(mimeOf: MimeLookup, d: Directory, fsPath: string, relPath: string)
    ensures FilesIn(FolderSpec(mimeOf, d, fsPath, relPath)) == VisibleFiles(mimeOf, d, fsPath, relPath)
    decreases d, 1
  {
    var names := SortedKeys(d.children.Keys);
    FilesAmongCollect(mimeOf, d, names, fsPath, relPath);
    FoldersAmongCollect(mimeOf, d, names, fsPath, relPath);
    assert (set n | n in names) == d.children.Keys;
    FilesInSplit(FolderSpec(mimeOf, d, fsPath, relPath));
  }

  lemma {:induction false} FoldersAmongPruned(mimeOf: MimeLookup, d: Directory, names: seq<string>, fsPath: string, relPath: string)
    ensures forall g :: g in FoldersAmong(mimeOf, d, names, fsPath, relPath) ==> !Empty(g) && Pruned(g)
    decreases d, 0, |names|
  {
    if names != [] {
      var prefix, n := names[..|names| - 1], names[|names| - 1];
      var earlier := FoldersAmong(mimeOf, d, prefix, fsPath, relPath);
      FoldersAmongPruned(mimeOf, d, prefix, fsPath, relPath);
      if n in d.children && d.children[n].Dir? && n !in IgnoredDirs {
        var sub := FolderSpec(mimeOf, d.children[n].dir, Join(fsPath, n), Join(relPath, n));
        FolderPruned(mimeOf, d.children[n].dir, Join(fsPath, n), Join(relPath, n));
      }
    }
  }

  /** A subfolder is kept only when it has files or subfolders, at every depth. */
  lemma {:induction false} FolderPruned(mimeOf: MimeLookup, d: Directory, fsPath: string, relPath: string)
    ensures Pruned(FolderSpec(mimeOf, d, fsPath, relPath))
    decreases d, 1
  {
    var f := FolderSpec(mimeOf, d, fsPath, relPath);
    FoldersAmongPruned(mimeOf, d, SortedKeys(d.children.Keys), fsPath, relPath);
    assert f.folders == FoldersAmong(mimeOf, d, SortedKeys(d.children.Keys), fsPath, relPath);
    assert forall i :: 0 <= i < |f.folders| ==> f.folders[i] in f.folders;
  }

  /** In a pruned tree, a folder record with files or subfolders has a file somewhere below it. */
  lemma {:induction false} PrunedHoldsFile(f: FolderRecord)
    requires Pruned(f) && !Empty(f)
    ensures FilesIn(f) != {}
    decreases f
  {
    if f.files != [] {
      assert f.files[0] in FilesIn(f);
    } else {
      PrunedHoldsFile(f.folders[0]);
      var x :| x in FilesIn(f.folders[0]);
      assert x in FilesIn(f);
    }
  }

  /** Every folder below a pruned folder has a file somewhere below it. */
  lemma {:induction false} PrunedFoldersHoldFiles(f: FolderRecord)
    requires Pruned(f)
    ensures forall g :: g in FoldersIn(f) ==> FilesIn(g) != {}
    decreases f
  {
    forall g | g in FoldersIn(f) ensures FilesIn(g) != {} {
      if g in f.folders {
        var i :| 0 <= i < |f.folders| && f.folders[i] == g;
        PrunedHoldsFile(g);
      } else {
        var i :| 0 <= i < |f.folders| && g in FoldersIn(f.folders[i]);
        PrunedFoldersHoldFiles(f.folders[i]);
      }
    }
  }

  /** Every folder the traversal emits, at any depth, has at least one file somewhere below it. */
  lemma EmittedFoldersHoldFiles(mimeOf: MimeLookup, d: Directory, fsPath: string, relPath: string)
    ensures forall g :: g in FoldersIn(FolderSpec(mimeOf, d, fsPath, relPath)) ==> FilesIn(g) != {}
  {
    FolderPruned(mimeOf, d, fsPath, relPath);
    PrunedFoldersHoldFiles(FolderSpec(mimeOf, d, fsPath, relPath));
  }

  /** The parent's test "has files or folders" keeps a subfolder exactly when a visible file lies below it. */
  lemma KeptIffVisibleFile(mimeOf: MimeLookup, d: Directory, fsPath: string, relPath: string)
    ensures !Empty(FolderSpec(mimeOf, d, fsPath, relPath)) <==> VisibleFiles(mimeOf, d, fsPath, relPath) != {}
  {
    var f := FolderSpec(mimeOf, d, fsPath, relPath);
    FolderHoldsVisibleFiles(mimeOf, d, fsPath, relPath);
    FolderPruned(mimeOf, d, fsPath, relPath);
    if !Empty(f) {
      PrunedHoldsFile(f);
    } else {
      assert FilesIn(f) == {};
    }
  }

  // ---------------------------------------------------------------------
  // File contents

  /**
    A file's content is what one of the reads produced, never anything else:
    the UTF-8 text, else the Latin-1 text, else "". A notebook's is always "".
  */
  lemma ContentFromRead(mimeOf: MimeLookup, fsPath: string, relPath: string, name: string, read: ReadOutcome)
    ensures var x := FileRecordOf(mimeOf, fsPath, relPath, name, read);
      && (x.language == "ipynb" ==> x.content == "")
      && (x.content == ""
          || (read.Utf8Ok? && x.content == read.text)
          || (read.Utf8Fail? && read.latin1 == Some(x.content)))
    ensures var x := FileRecordOf(mimeOf, fsPath, relPath, name, read);
      x.language != "ipynb" ==>
        && (read.Utf8Ok? ==> x.content == read.text)
        && (read.Utf8Fail? && read.latin1.Some? ==> x.content == read.latin1.value)
  {
  }

  // ---------------------------------------------------------------------
  // Notebook payloads

  /** A visible file tagged "ipynb" has empty content, whatever reading it gave. */
  lemma {:induction false} VisibleNotebooksEmpty(mimeOf: MimeLookup, d: Directory, fsPath: string, relPath: string)
    ensures forall x :: x in VisibleFiles(mimeOf, d, fsPath, relPath) && x.language == "ipynb" ==> x.content == ""
    decreases d
  {
    forall x | x in VisibleFiles(mimeOf, d, fsPath, relPath) && x.language == "ipynb"
      ensures x.content == ""
    {
      if x in DirectFiles(mimeOf, d, d.children.Keys, fsPath, relPath) {
        var n :| n in d.children && d.children[n].File? && n !in IgnoredFiles
          && x == FileRecordOf(mimeOf, Join(fsPath, n), Join(relPath, n), n, d.children[n].read);
      } else {
        assert x in SubdirFiles(mimeOf, d, d.children.Keys, fsPath, relPath);
        var n :| n in d.children && d.children[n].Dir? && n !in IgnoredDirs
          && x in VisibleFiles(mimeOf, d.children[n].dir, Join(fsPath, n), Join(relPath, n));
        VisibleNotebooksEmpty(mimeOf, d.children[n].dir, Join(fsPath, n), Join(relPath, n));
      }
    }
  }

  /** No emitted file tagged "ipynb" carries content. */
  lemma NotebooksEmpty(mimeOf: MimeLookup, d: Directory, fsPath: string, relPath: string)
    ensures forall x :: x in FilesIn(FolderSpec(mimeOf, d, fsPath, relPath)) && x.language == "ipynb" ==> x.content == ""
  {
    FolderHoldsVisibleFiles(mimeOf, d, fsPath, relPath);
    VisibleNotebooksEmpty(mimeOf, d, fsPath, relPath);
  }
}
