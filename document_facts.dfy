/**
  What `process_directory` promises about the root record, proved about
  `DocumentSpec`, which `ProcessDirectory` is proved to compute: the files it
  lists, when the `files` key appears, what becomes of the root `README.md`,
  and the shape of the root level.
*/
module DocumentFacts {
  import opened Basics
  import opened Listing
  import opened Paths
  import opened Language
  import opened Walker
  import opened WalkerFacts
  import opened WalkerShape

  // ---------------------------------------------------------------------
  // Which files the document lists

  /**
    The document lists, at the root and in its folders, exactly the visible
    files of the root directory once its readme is set aside.
  */
  lemma DocumentHoldsVisibleFiles(mimeOf: MimeLookup, root: Directory, rootPath: string, repositoryName: string, description: string)
    ensures DocumentFiles(DocumentSpec(mimeOf, root, rootPath, repositoryName, description))
      == VisibleFiles(mimeOf, WithoutReadme(root), rootPath, ".")
  {
    var d := WithoutReadme(root);
    var names := SortedKeys(root.children.Keys);
    var doc := DocumentSpec(mimeOf, root, rootPath, repositoryName, description);
    var files := FilesAmong(mimeOf, d, names, rootPath, ".");
    var folders := FoldersAmong(mimeOf, d, names, rootPath, ".");
    assert (set n | n in names) == root.children.Keys;
    assert (set x | x in files) == DirectFiles(mimeOf, d, d.children.Keys, rootPath, ".") by {
      FilesAmongCollect(mimeOf, d, names, rootPath, ".");
      DirectFilesOfKeys(mimeOf, d, root.children.Keys, rootPath, ".");
    }
    assert FilesUnder(folders) == SubdirFiles(mimeOf, d, d.children.Keys, rootPath, ".") by {
      FoldersAmongCollect(mimeOf, d, names, rootPath, ".");
      SubdirFilesOfKeys(mimeOf, d, root.children.Keys, rootPath, ".");
    }
    assert (set x | doc.files.Some? && x in doc.files.value) == (set x | x in files) by {
      if files == [] {
        assert doc.files == None;
      } else {
        assert doc.files == Some(files);
      }
    }
    assert doc.folders == folders;
  }

  /** The direct files are there exactly when a listed name is a non-ignored regular file. */
  lemma DirectFilesNonEmpty(mimeOf: MimeLookup, d: Directory, names: set<string>, fsPath: string, relPath: string)
    ensures DirectFiles(mimeOf, d, names, fsPath, relPath) != {}
      <==> exists n :: n in names && n in d.children && d.children[n].File? && n !in IgnoredFiles
  {
    if exists n :: n in names && n in d.children && d.children[n].File? && n !in IgnoredFiles {
      var n :| n in names && n in d.children && d.children[n].File? && n !in IgnoredFiles;
      assert FileRecordOf(mimeOf, Join(fsPath, n), Join(relPath, n), n, d.children[n].read)
        in DirectFiles(mimeOf, d, names, fsPath, relPath);
    }
  }

  /** A non-ignored regular file other than the readme sits at the root. */
  ghost predicate HasRootFile(root: Directory)
  {
    exists n :: n in root.children && n != Readme && root.children[n].File? && n !in IgnoredFiles
  }

  /** The root loop records a file exactly when the root has one to record. */
  lemma RootFilesNonEmpty(mimeOf: MimeLookup, root: Directory, rootPath: string)
    ensures FilesAmong(mimeOf, WithoutReadme(root), SortedKeys(root.children.Keys), rootPath, ".") != []
      <==> HasRootFile(root)
  {
    var d := WithoutReadme(root);
    var names := SortedKeys(root.children.Keys);
    var files := FilesAmong(mimeOf, d, names, rootPath, ".");
    var direct := DirectFiles(mimeOf, d, root.children.Keys, rootPath, ".");
    assert (set x | x in files) == direct by {
      FilesAmongCollect(mimeOf, d, names, rootPath, ".");
      assert (set n | n in names) == root.children.Keys;
    }
    assert files != [] <==> direct != {} by {
      if files != [] {
        assert files[0] in (set x | x in files);
        assert files[0] in direct;
      } else {
        assert (set x | x in files) == {};
        assert direct == {};
      }
    }
    assert direct != {} <==> HasRootFile(root) by {
      DirectFilesNonEmpty(mimeOf, d, root.children.Keys, rootPath, ".");
      if HasRootFile(root) {
        var n :| n in root.children && n != Readme && root.children[n].File? && n !in IgnoredFiles;
        assert n in root.children.Keys && n in d.children && d.children[n].File?;
      }
      if direct != {} {
        var n :| n in root.children.Keys && n in d.children && d.children[n].File? && n !in IgnoredFiles;
        assert n != Readme && root.children[n] == d.children[n];
      }
    }
  }

  /**
    The root record has a `files` key exactly when the root holds a regular
    file, other than the readme, whose name is not ignored; the key never
    holds an empty list.
  */
  lemma FilesKeyIffRootFile(mimeOf: MimeLookup, root: Directory, rootPath: string, repositoryName: string, description: string)
    ensures DocumentSpec(mimeOf, root, rootPath, repositoryName, description).files.Some? <==> HasRootFile(root)
    ensures var doc := DocumentSpec(mimeOf, root, rootPath, repositoryName, description);
      doc.files.Some? ==> doc.files.value != []
  {
    RootFilesNonEmpty(mimeOf, root, rootPath);
  }

  /** No file tagged "ipynb" anywhere in the document carries content. */
  lemma DocumentNotebooksEmpty(mimeOf: MimeLookup, root: Directory, rootPath: string, repositoryName: string, description: string)
    ensures var doc := DocumentSpec(mimeOf, root, rootPath, repositoryName, description);
      forall x :: x in DocumentFiles(doc) && x.language == "ipynb" ==> x.content == ""
  {
    DocumentHoldsVisibleFiles(mimeOf, root, rootPath, repositoryName, description);
    VisibleNotebooksEmpty(mimeOf, WithoutReadme(root), rootPath, ".");
  }

  // ---------------------------------------------------------------------
  // The root readme

  /**
    `readme_content` is the root readme's text when it is a regular file read
    as UTF-8, and "" otherwise (absent, not a file, or not UTF-8: unlike the
    other files, the readme gets no Latin-1 retry).
  */
  lemma ReadmeContent(mimeOf: MimeLookup, root: Directory, rootPath: string, repositoryName: string, description: string)
    ensures var doc := DocumentSpec(mimeOf, root, rootPath, repositoryName, description);
      forall text :: Readme in root.children && root.children[Readme] == File(Utf8Ok(text)) ==> doc.readmeContent == text
    ensures var doc := DocumentSpec(mimeOf, root, rootPath, repositoryName, description);
      doc.readmeContent != "" ==> Readme in root.children && root.children[Readme] == File(Utf8Ok(doc.readmeContent))
  {
  }

  /** The names of `names` that `d` has, in the same order. */
  ghost function Present(d: Directory, names: seq<string>): (r: seq<string>)
    ensures forall x :: x in r <==> x in names && x in d.children
    decreases |names|
  {
    if names == [] then []
    else
      var n := names[|names| - 1];
      Present(d, names[..|names| - 1]) + if n in d.children then [n] else []
  }

  lemma {:induction false} PresentIncreasing(d: Directory, names: seq<string>)
    requires Increasing(names)
    ensures Increasing(Present(d, names))
    decreases |names|
  {
    if names != [] {
      var prefix, n := names[..|names| - 1], names[|names| - 1];
      var earlier := Present(d, prefix);
      PresentIncreasing(d, prefix);
      if n in d.children {
        var r := earlier + [n];
        forall i, j | 0 <= i < j < |r| ensures Below(r[i], r[j]) {
          assert r[i] == earlier[i] && earlier[i] in prefix;
          if j < |earlier| {
            assert r[j] == earlier[j];
          } else {
            var k :| 0 <= k < |prefix| && prefix[k] == earlier[i];
            assert names[k] == prefix[k];
          }
        }
      }
    }
  }

  /** Names `d` does not have contribute no file record. */
  lemma {:induction false} FilesAmongPresent(mimeOf: MimeLookup, d: Directory, names: seq<string>, fsPath: string, relPath: string)
    ensures FilesAmong(mimeOf, d, names, fsPath, relPath) == FilesAmong(mimeOf, d, Present(d, names), fsPath, relPath)
    decreases |names|
  {
    if names != [] {
      var prefix, n := names[..|names| - 1], names[|names| - 1];
      FilesAmongPresent(mimeOf, d, prefix, fsPath, relPath);
      var p, q := Present(d, prefix), Present(d, names);
      if n in d.children {
        assert q == p + [n];
        assert q[..|q| - 1] == p && q[|q| - 1] == n;
        assert FilesAmong(mimeOf, d, q, fsPath, relPath)
          == FilesAmong(mimeOf, d, p + [n], fsPath, relPath);
      } else {
        assert q == p;
      }
    }
  }

  /** Names `d` does not have contribute no folder record. */
  lemma {:induction false} FoldersAmongPresent(mimeOf: MimeLookup, d: Directory, names: seq<string>, fsPath: string, relPath: string)
    ensures FoldersAmong(mimeOf, d, names, fsPath, relPath) == FoldersAmong(mimeOf, d, Present(d, names), fsPath, relPath)
    decreases |names|
  {
    if names != [] {
      var prefix, n := names[..|names| - 1], names[|names| - 1];
      FoldersAmongPresent(mimeOf, d, prefix, fsPath, relPath);
      var p, q := Present(d, prefix), Present(d, names);
      if n in d.children {
        assert q == p + [n];
        assert q[..|q| - 1] == p && q[|q| - 1] == n;
        assert FoldersAmong(mimeOf, d, q, fsPath, relPath)
          == FoldersAmong(mimeOf, d, p + [n], fsPath, relPath);
      } else {
        assert q == p;
      }
    }
  }

  /**
    The root `README.md` is never listed as a file or a folder: whatever it
    is (a readable file, an unreadable one, a directory, nothing at all), two
    roots that differ only there get the same `folders` and `files`.
  */
  lemma ReadmeNeverListed(mimeOf: MimeLookup, root1: Directory, root2: Directory, rootPath: string, repositoryName: string, description: string)
    requires WithoutReadme(root1) == WithoutReadme(root2)
    ensures DocumentSpec(mimeOf, root1, rootPath, repositoryName, description).folders
         == DocumentSpec(mimeOf, root2, rootPath, repositoryName, description).folders
    ensures DocumentSpec(mimeOf, root1, rootPath, repositoryName, description).files
         == DocumentSpec(mimeOf, root2, rootPath, repositoryName, description).files
  {
    var d := WithoutReadme(root1);
    var names1, names2 := SortedKeys(root1.children.Keys), SortedKeys(root2.children.Keys);
    PresentIncreasing(d, names1);
    PresentIncreasing(d, names2);
    IncreasingUnique(Present(d, names1), Present(d, names2));
    FilesAmongPresent(mimeOf, d, names1, rootPath, ".");
    FilesAmongPresent(mimeOf, d, names2, rootPath, ".");
    FoldersAmongPresent(mimeOf, d, names1, rootPath, ".");
    FoldersAmongPresent(mimeOf, d, names2, rootPath, ".");
  }

  // ---------------------------------------------------------------------
  // The root level

  /**
    Root-level records are listed in increasing path order, under paths
    "./" + name, with their descriptions derived from those names, never
    under the readme's name or an ignored name; every root-level folder is
    non-empty and is itself ordered, labelled and pruned at every depth.
  */
  lemma DocumentShape(mimeOf: MimeLookup, root: Directory, rootPath: string, repositoryName: string, description: string)
    requires WellNamed(root)
    ensures var doc := DocumentSpec(mimeOf, root, rootPath, repositoryName, description);
      doc.files.Some? ==>
        && FilesOrdered(doc.files.value)
        && forall x :: x in doc.files.value ==>
             FileLabelled(".", x) && x.path == "./" + Basename(x.path) && Basename(x.path) != Readme
    ensures var doc := DocumentSpec(mimeOf, root, rootPath, repositoryName, description);
      && FoldersOrdered(doc.folders)
      && forall g :: g in doc.folders ==>
           && FolderNamed(".", g) && g.path == "./" + Basename(g.path) && Basename(g.path) != Readme
           && !Empty(g) && Pruned(g) && Ordered(g) && Labelled(g)
  {
    var d := WithoutReadme(root);
    var names := SortedKeys(root.children.Keys);
    var doc := DocumentSpec(mimeOf, root, rootPath, repositoryName, description);
    assert JoinPrefix(".") == "./";
    SortedNamesPlain(root);
    FilesAmongOrdered(mimeOf, d, names, rootPath, ".");
    FoldersAmongOrdered(mimeOf, d, names, rootPath, ".");
    FilesAmongFrom(mimeOf, d, names, rootPath, ".");
    FoldersAmongFrom(mimeOf, d, names, rootPath, ".");
    FilesAmongLabelled(mimeOf, d, names, rootPath, ".");
    FoldersAmongNamed(mimeOf, d, names, rootPath, ".");
    FoldersAmongPruned(mimeOf, d, names, rootPath, ".");
    forall x | x in FilesAmong(mimeOf, d, names, rootPath, ".") ensures Basename(x.path) != Readme {
      var k :| 0 <= k < |names| && FileFrom(mimeOf, d, names[k], rootPath, ".", x);
      BasenameOfJoin(".", names[k]);
    }
    forall g | g in doc.folders ensures Basename(g.path) != Readme && Ordered(g) && Labelled(g) {
      var k :| 0 <= k < |names| && FolderFrom(mimeOf, d, names[k], rootPath, ".", g);
      var n := names[k];
      BasenameOfJoin(".", n);
      FolderOrdered(mimeOf, d.children[n].dir, Join(rootPath, n), Join(".", n));
      FolderLabelled(mimeOf, d.children[n].dir, Join(rootPath, n), Join(".", n));
    }
  }
}
