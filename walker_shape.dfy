/**
  The shape of the record tree: lists in sorted path order, paths built from
  the parent's path and the entry's name, descriptions derived from paths and
  names, and ignored names absent at every level. These hold for any snapshot
  whose names are names `os.listdir` can return (`WellNamed`).
*/
module WalkerShape {
  import opened Listing
  import opened Paths
  import opened Language
  import opened Walker
  import opened WalkerFacts

  /** Every name at every depth is non-empty and free of '/'. */
  ghost predicate WellNamed(d: Directory)
    decreases d
  {
    forall n :: n in d.children ==> PlainName(n) && (d.children[n].Dir? ==> WellNamed(d.children[n].dir))
  }

  predicate AllPlain(names: seq<string>)
  {
    forall k :: 0 <= k < |names| ==> PlainName(names[k])
  }

  /** File record `x` is the record of the non-ignored regular file `n` of `d`. */
  ghost predicate FileFrom(mimeOf: MimeLookup, d: Directory, n: string, fsPath: string, relPath: string, x: FileRecord)
  {
    && n in d.children && d.children[n].File? && n !in IgnoredFiles
    && x == FileRecordOf(mimeOf, Join(fsPath, n), Join(relPath, n), n, d.children[n].read)
  }

  /** Folder record `g` is the non-empty record of the non-ignored subdirectory `n` of `d`. */
  ghost predicate FolderFrom(mimeOf: MimeLookup, d: Directory, n: string, fsPath: string, relPath: string, g: FolderRecord)
  {
    && n in d.children && d.children[n].Dir? && n !in IgnoredDirs
    && g == FolderSpec(mimeOf, d.children[n].dir, Join(fsPath, n), Join(relPath, n))
    && !Empty(g)
  }

  ghost predicate FilesOrdered(xs: seq<FileRecord>)
  {
    forall i, j :: 0 <= i < j < |xs| ==> Below(xs[i].path, xs[j].path)
  }

  ghost predicate FoldersOrdered(gs: seq<FolderRecord>)
  {
    forall i, j :: 0 <= i < j < |gs| ==> Below(gs[i].path, gs[j].path)
  }

  /** At every level, files and folders are listed in strictly increasing path order. */
  ghost predicate Ordered(f: FolderRecord)
    decreases f
  {
    && FilesOrdered(f.files)
    && FoldersOrdered(f.folders)
    && (forall i :: 0 <= i < |f.folders| ==> Ordered(f.folders[i]))
  }

  /** A file record listed under folder path `parent`: named below it, described by its name, not an ignored name. */
  ghost predicate FileLabelled(parent: string, x: FileRecord)
  {
    && x.path == JoinPrefix(parent) + Basename(x.path)
    && x.description == "File: " + Basename(x.path)
    && Basename(x.path) !in IgnoredFiles
  }

  /** A folder record listed under folder path `parent`: named below it and not an ignored name. */
  ghost predicate FolderNamed(parent: string, g: FolderRecord)
  {
    && g.path == JoinPrefix(parent) + Basename(g.path)
    && Basename(g.path) !in IgnoredDirs
  }

  /**
    Every record at or below `f`: folders described by their path, and every
    file and folder named below its parent as `FileLabelled` and `FolderNamed` say.
  */
  ghost predicate Labelled(f: FolderRecord)
    decreases f
  {
    && f.description == "Folder: " + f.path
    && (forall i :: 0 <= i < |f.files| ==> FileLabelled(f.path, f.files[i]))
    && (forall i :: 0 <= i < |f.folders| ==> FolderNamed(f.path, f.folders[i]) && Labelled(f.folders[i]))
  }

  // ---------------------------------------------------------------------
  // Where each record comes from

  /** Each file record of a level is the record of one of the listed names. */
  lemma {:induction false} FilesAmongFrom(mimeOf: MimeLookup, d: Directory, names: seq<string>, fsPath: string, relPath: string)
    ensures forall x :: x in FilesAmong(mimeOf, d, names, fsPath, relPath) ==>
      exists k :: 0 <= k < |names| && FileFrom(mimeOf, d, names[k], fsPath, relPath, x)
    decreases |names|
  {
    if names != [] {
      var prefix := names[..|names| - 1];
      FilesAmongFrom(mimeOf, d, prefix, fsPath, relPath);
      forall x | x in FilesAmong(mimeOf, d, names, fsPath, relPath)
        ensures exists k :: 0 <= k < |names| && FileFrom(mimeOf, d, names[k], fsPath, relPath, x)
      {
        if x in FilesAmong(mimeOf, d, prefix, fsPath, relPath) {
          var k :| 0 <= k < |prefix| && FileFrom(mimeOf, d, prefix[k], fsPath, relPath, x);
          assert names[k] == prefix[k];
        } else {
          assert FileFrom(mimeOf, d, names[|names| - 1], fsPath, relPath, x);
        }
      }
    }
  }

  /** Each folder record of a level is the non-empty record of one of the listed names. */
  lemma {:induction false} FoldersAmongFrom(mimeOf: MimeLookup, d: Directory, names: seq<string>, fsPath: string, relPath: string)
    ensures forall g :: g in FoldersAmong(mimeOf, d, names, fsPath, relPath) ==>
      exists k :: 0 <= k < |names| && FolderFrom(mimeOf, d, names[k], fsPath, relPath, g)
    decreases |names|
  {
    if names != [] {
      var prefix := names[..|names| - 1];
      FoldersAmongFrom(mimeOf, d, prefix, fsPath, relPath);
      forall g | g in FoldersAmong(mimeOf, d, names, fsPath, relPath)
        ensures exists k :: 0 <= k < |names| && FolderFrom(mimeOf, d, names[k], fsPath, relPath, g)
      {
        if g in FoldersAmong(mimeOf, d, prefix, fsPath, relPath) {
          var k :| 0 <= k < |prefix| && FolderFrom(mimeOf, d, prefix[k], fsPath, relPath, g);
          assert names[k] == prefix[k];
        } else {
          assert FolderFrom(mimeOf, d, names[|names| - 1], fsPath, relPath, g);
        }
      }
    }
  }

  // ---------------------------------------------------------------------
  // Sorted order

  /** Listing the names in increasing order lists the file records in increasing path order. */
  lemma {:induction false} FilesAmongOrdered(mimeOf: MimeLookup, d: Directory, names: seq<string>, fsPath: string, relPath: string)
    requires Increasing(names) && AllPlain(names)
    ensures FilesOrdered(FilesAmong(mimeOf, d, names, fsPath, relPath))
    decreases |names|
  {
    if names != [] {
      var prefix, n := names[..|names| - 1], names[|names| - 1];
      var earlier := FilesAmong(mimeOf, d, prefix, fsPath, relPath);
      FilesAmongOrdered(mimeOf, d, prefix, fsPath, relPath);
      if n in d.children && d.children[n].File? && n !in IgnoredFiles {
        var x := FileRecordOf(mimeOf, Join(fsPath, n), Join(relPath, n), n, d.children[n].read);
        var xs := earlier + [x];
        assert FilesAmong(mimeOf, d, names, fsPath, relPath) == xs;
        FilesAmongFrom(mimeOf, d, prefix, fsPath, relPath);
        JoinPlain(relPath, n);
        forall i | 0 <= i < |earlier| ensures Below(earlier[i].path, x.path) {
          assert earlier[i] in earlier;
          var k :| 0 <= k < |prefix| && FileFrom(mimeOf, d, prefix[k], fsPath, relPath, earlier[i]);
          assert prefix[k] == names[k];
          JoinPlain(relPath, prefix[k]);
          BelowUnderPrefix(JoinPrefix(relPath), prefix[k], n);
        }
        forall i, j | 0 <= i < j < |xs| ensures Below(xs[i].path, xs[j].path) {
          assert xs[i] == earlier[i];
          if j < |earlier| {
            assert xs[j] == earlier[j];
          }
        }
      } else {
        assert FilesAmong(mimeOf, d, names, fsPath, relPath) == earlier;
      }
    }
  }

  /** Listing the names in increasing order lists the folder records in increasing path order. */
  lemma {:induction false} FoldersAmongOrdered(mimeOf: MimeLookup, d: Directory, names: seq<string>, fsPath: string, relPath: string)
    requires Increasing(names) && AllPlain(names)
    ensures FoldersOrdered(FoldersAmong(mimeOf, d, names, fsPath, relPath))
    decreases |names|
  {
    if names != [] {
      var prefix, n := names[..|names| - 1], names[|names| - 1];
      var earlier := FoldersAmong(mimeOf, d, prefix, fsPath, relPath);
      FoldersAmongOrdered(mimeOf, d, prefix, fsPath, relPath);
      if n in d.children && d.children[n].Dir? && n !in IgnoredDirs
        && !Empty(FolderSpec(mimeOf, d.children[n].dir, Join(fsPath, n), Join(relPath, n)))
      {
        var g := FolderSpec(mimeOf, d.children[n].dir, Join(fsPath, n), Join(relPath, n));
        var gs := earlier + [g];
        assert FoldersAmong(mimeOf, d, names, fsPath, relPath) == gs;
        FoldersAmongFrom(mimeOf, d, prefix, fsPath, relPath);
        JoinPlain(relPath, n);
        forall i | 0 <= i < |earlier| ensures Below(earlier[i].path, g.path) {
          assert earlier[i] in earlier;
          var k :| 0 <= k < |prefix| && FolderFrom(mimeOf, d, prefix[k], fsPath, relPath, earlier[i]);
          assert prefix[k] == names[k];
          JoinPlain(relPath, prefix[k]);
          BelowUnderPrefix(JoinPrefix(relPath), prefix[k], n);
        }
        forall i, j | 0 <= i < j < |gs| ensures Below(gs[i].path, gs[j].path) {
          assert gs[i] == earlier[i];
          if j < |earlier| {
            assert gs[j] == earlier[j];
          }
        }
      } else {
        assert FoldersAmong(mimeOf, d, names, fsPath, relPath) == earlier;
      }
    }
  }

  lemma SortedNamesPlain(d: Directory)
    requires WellNamed(d)
    ensures AllPlain(SortedKeys(d.children.Keys))
  {
    var names := SortedKeys(d.children.Keys);
    forall k | 0 <= k < |names| ensures PlainName(names[k]) {
      assert names[k] in names;
    }
  }

  /** Each level of the folder record, at every depth, is in increasing path order. */
  lemma {:induction false} FolderOrdered(mimeOf: MimeLookup, d: Directory, fsPath: string, relPath: string)
    requires WellNamed(d)
    ensures Ordered(FolderSpec(mimeOf, d, fsPath, relPath))
    decreases d
  {
    var names := SortedKeys(d.children.Keys);
    var f := FolderSpec(mimeOf, d, fsPath, relPath);
    SortedNamesPlain(d);
    FilesAmongOrdered(mimeOf, d, names, fsPath, relPath);
    FoldersAmongOrdered(mimeOf, d, names, fsPath, relPath);
    FoldersAmongFrom(mimeOf, d, names, fsPath, relPath);
    forall i | 0 <= i < |f.folders| ensures Ordered(f.folders[i]) {
      assert f.folders[i] in FoldersAmong(mimeOf, d, names, fsPath, relPath);
      var k :| 0 <= k < |names| && FolderFrom(mimeOf, d, names[k], fsPath, relPath, f.folders[i]);
      var n := names[k];
      FolderOrdered(mimeOf, d.children[n].dir, Join(fsPath, n), Join(relPath, n));
    }
  }

  // ---------------------------------------------------------------------
  // Paths and descriptions

  /** The file records of a level are labelled under `relPath`. */
  lemma FilesAmongLabelled(mimeOf: MimeLookup, d: Directory, names: seq<string>, fsPath: string, relPath: string)
    requires AllPlain(names)
    ensures forall x :: x in FilesAmong(mimeOf, d, names, fsPath, relPath) ==> FileLabelled(relPath, x)
  {
    FilesAmongFrom(mimeOf, d, names, fsPath, relPath);
    forall x | x in FilesAmong(mimeOf, d, names, fsPath, relPath) ensures FileLabelled(relPath, x) {
      var k :| 0 <= k < |names| && FileFrom(mimeOf, d, names[k], fsPath, relPath, x);
      JoinPlain(relPath, names[k]);
      BasenameOfJoin(relPath, names[k]);
    }
  }

  /** The folder records of a level are named under `relPath`. */
  lemma FoldersAmongNamed(mimeOf: MimeLookup, d: Directory, names: seq<string>, fsPath: string, relPath: string)
    requires AllPlain(names)
    ensures forall g :: g in FoldersAmong(mimeOf, d, names, fsPath, relPath) ==> FolderNamed(relPath, g)
  {
    FoldersAmongFrom(mimeOf, d, names, fsPath, relPath);
    forall g | g in FoldersAmong(mimeOf, d, names, fsPath, relPath) ensures FolderNamed(relPath, g) {
      var k :| 0 <= k < |names| && FolderFrom(mimeOf, d, names[k], fsPath, relPath, g);
      JoinPlain(relPath, names[k]);
      BasenameOfJoin(relPath, names[k]);
    }
  }

  /**
    At every depth: a folder is described as "Folder: " + its path, a file as
    "File: " + its name, every path is the parent's path joined with the
    entry's name, and no record carries an ignored name.
  */
  lemma {:induction false} FolderLabelled(mimeOf: MimeLookup, d: Directory, fsPath: string, relPath: string)
    requires WellNamed(d)
    ensures Labelled(FolderSpec(mimeOf, d, fsPath, relPath))
    decreases d
  {
    var names := SortedKeys(d.children.Keys);
    var f := FolderSpec(mimeOf, d, fsPath, relPath);
    SortedNamesPlain(d);
    FilesAmongLabelled(mimeOf, d, names, fsPath, relPath);
    FoldersAmongNamed(mimeOf, d, names, fsPath, relPath);
    FoldersAmongFrom(mimeOf, d, names, fsPath, relPath);
    forall i | 0 <= i < |f.files| ensures FileLabelled(f.path, f.files[i]) {
      assert f.files[i] in FilesAmong(mimeOf, d, names, fsPath, relPath);
    }
    forall i | 0 <= i < |f.folders| ensures FolderNamed(f.path, f.folders[i]) && Labelled(f.folders[i]) {
      assert f.folders[i] in FoldersAmong(mimeOf, d, names, fsPath, relPath);
      var k :| 0 <= k < |names| && FolderFrom(mimeOf, d, names[k], fsPath, relPath, f.folders[i]);
      var n := names[k];
      FolderLabelled(mimeOf, d.children[n].dir, Join(fsPath, n), Join(relPath, n));
    }
  }
}
