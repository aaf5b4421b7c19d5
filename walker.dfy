/**
  `process_directory` and its nested `process_folder`: a depth-first walk of
  a directory snapshot, in sorted name order, that builds one record per
  folder and per regular file.

  The filesystem is an input value. A directory maps each name `os.listdir`
  returns to what `isdir`/`isfile` and `open(...).read()` find there; an
  entry that is neither a directory nor a regular file is `Other`. The
  traversal itself is imperative in the source (dicts filled by loops), so
  it is modelled by the methods `ProcessFolder` and `ProcessDirectory`, each
  proved equal to a ghost specification (`FolderSpec`, `DocumentSpec`) about
  which `WalkerFacts` proves what the script promises.
*/
module Walker {
  import opened Basics
  import opened Listing
  import opened Paths
  import opened Language

  /** Directory names skipped at every depth (".gitattributes" is listed here, among the directories). */
  const IgnoredDirs: set<string> := {
    "node_modules", ".terraform", ".git", "__pycache__", ".vscode", ".idea",
    "dist", "build", "env", ".gitattributes", "venv", ".vscode-test", ".cache",
    ".venv", "target", ".mypy_cache", ".pytest_cache",
    ".tox", "eggs", ".eggs", "lib", "lib64", "bin", "include", "share"
  }

  /** File names skipped at every depth. */
  const IgnoredFiles: set<string> := {
    ".DS_Store", "package-lock.json", "yarn.lock", "poetry.lock", "Pipfile.lock"
  }

  /** The name the root's readme has; it is read apart and never listed. */
  const Readme: string := "README.md"

  /** The readme's name is on neither ignore list, so a `README.md` below the root is listed like any file. */
  lemma ReadmeNotIgnored()
    ensures Readme !in IgnoredDirs && Readme !in IgnoredFiles
  {
  }

  /**
    What reading a regular file in text mode gives: the UTF-8 text, or a
    decoding failure followed by the Latin-1 retry (which may itself fail),
    or some other I/O failure.
  */
  datatype ReadOutcome = Utf8Ok(text: string) | Utf8Fail(latin1: Option<string>) | IoFail

  /** One name of a directory listing, as `isdir`/`isfile` classify it. */
  datatype Entry = Dir(dir: Directory) | File(read: ReadOutcome) | Other

  /** A directory snapshot: the entries under their names. */
  datatype Directory = Directory(children: map<string, Entry>)

  /** The dict built per file: keys `path`, `language`, `description`, `content`. */
  datatype FileRecord = FileRecord(path: string, language: string, description: string, content: string)

  /** The dict built per folder: keys `path`, `description`, `files`, `folders`. */
  datatype FolderRecord = FolderRecord(path: string, description: string, files: seq<FileRecord>, folders: seq<FolderRecord>)

  /** The `context` block, always empty. */
  datatype Context = Context(overallArchitecture: string, deploymentProcess: string, keyTechnologies: seq<string>)

  /**
    The root dict: `repository_name`, `description`, `readme_content`,
    `context`, `folders`, and a `files` key that exists only once a root-level
    file has been recorded.
  */
  datatype Document = Document(
    repositoryName: string,
    description: string,
    readmeContent: string,
    context: Context,
    folders: seq<FolderRecord>,
    files: Option<seq<FileRecord>>)

  const EmptyContext: Context := Context("", "", [])

  /** The content a file read yields: UTF-8 text, else Latin-1 text, else "". */
  function ReadText(r: ReadOutcome): (s: string)
    ensures r.Utf8Ok? ==> s == r.text
    ensures r.Utf8Fail? && r.latin1.Some? ==> s == r.latin1.value
    ensures r == IoFail || r == Utf8Fail(None) ==> s == ""
  {
    match r
    case Utf8Ok(text) => text
    case Utf8Fail(Some(text)) => text
    case Utf8Fail(None) => ""
    case IoFail => ""
  }

  /** The record for the regular file `name`, found at `fsPath` and listed as `relPath`. */
  function FileRecordOf(mimeOf: MimeLookup, fsPath: string, relPath: string, name: string, read: ReadOutcome): (r: FileRecord)
    ensures r.path == relPath && r.description == "File: " + name
    ensures r.language == GuessLanguage(mimeOf, fsPath)
    ensures r.content == if r.language == "ipynb" then "" else ReadText(read)
  {
    var language := GuessLanguage(mimeOf, fsPath);
    FileRecord(relPath, language, "File: " + name, if language == "ipynb" then "" else ReadText(read))
  }

  /** A folder record with neither files nor subfolders is dropped by its parent. */
  predicate Empty(f: FolderRecord)
  {
    f.files == [] && f.folders == []
  }

  /** The records of the non-ignored regular files among `names`, in the order of `names`. */
  ghost function FilesAmong(mimeOf: MimeLookup, d: Directory, names: seq<string>, fsPath: string, relPath: string): seq<FileRecord>
    decreases |names|
  {
    if names == [] then []
    else
      var n := names[|names| - 1];
      FilesAmong(mimeOf, d, names[..|names| - 1], fsPath, relPath)
      + if n in d.children && d.children[n].File? && n !in IgnoredFiles
        then [FileRecordOf(mimeOf, Join(fsPath, n), Join(relPath, n), n, d.children[n].read)]
        else []
  }

  /** The records of the non-ignored, non-empty subfolders among `names`, in the order of `names`. */
  ghost function FoldersAmong(mimeOf: MimeLookup, d: Directory, names: seq<string>, fsPath: string, relPath: string): seq<FolderRecord>
    decreases d, 0, |names|
  {
    if names == [] then []
    else
      var n := names[|names| - 1];
      var earlier := FoldersAmong(mimeOf, d, names[..|names| - 1], fsPath, relPath);
      if n in d.children && d.children[n].Dir? && n !in IgnoredDirs then
        var sub := FolderSpec(mimeOf, d.children[n].dir, Join(fsPath, n), Join(relPath, n));
        if Empty(sub) then earlier else earlier + [sub]
      else earlier
  }

  /** One more name of the listing adds at most one file record. */
  lemma FilesAmongStep(mimeOf: MimeLookup, d: Directory, names: seq<string>, i: nat, fsPath: string, relPath: string)
    requires i < |names|
    ensures var n := names[i];
      FilesAmong(mimeOf, d, names[..i + 1], fsPath, relPath)
      == FilesAmong(mimeOf, d, names[..i], fsPath, relPath)
         + if n in d.children && d.children[n].File? && n !in IgnoredFiles
           then [FileRecordOf(mimeOf, Join(fsPath, n), Join(relPath, n), n, d.children[n].read)]
           else []
  {
    assert names[..i + 1][..i] == names[..i];
  }

  /** One more name of the listing adds at most one folder record. */
  lemma FoldersAmongStep(mimeOf: MimeLookup, d: Directory, names: seq<string>, i: nat, fsPath: string, relPath: string)
    requires i < |names|
    ensures var n := names[i];
      FoldersAmong(mimeOf, d, names[..i + 1], fsPath, relPath)
      == var earlier := FoldersAmong(mimeOf, d, names[..i], fsPath, relPath);
         if n in d.children && d.children[n].Dir? && n !in IgnoredDirs then
           var sub := FolderSpec(mimeOf, d.children[n].dir, Join(fsPath, n), Join(relPath, n));
           if Empty(sub) then earlier else earlier + [sub]
         else earlier
  {
    assert names[..i + 1][..i] == names[..i];
  }

  /** The record `process_folder` returns for directory `d` at `fsPath`, listed as `relPath`. */
  ghost function FolderSpec(mimeOf: MimeLookup, d: Directory, fsPath: string, relPath: string): FolderRecord
    decreases d, 1
  {
    var names := SortedKeys(d.children.Keys);
    FolderRecord(relPath, "Folder: " + relPath,
      FilesAmong(mimeOf, d, names, fsPath, relPath),
      FoldersAmong(mimeOf, d, names, fsPath, relPath))
  }

  /** The root listing without the readme, which the root loop skips whatever it is. */
  function WithoutReadme(root: Directory): Directory
  {
    Directory(root.children - {Readme})
  }

  /** `readme_content`: the root readme's UTF-8 text; "" if it is absent or cannot be read that way. */
  function ReadmeText(root: Directory): string
  {
    if Readme in root.children && root.children[Readme].File? && root.children[Readme].read.Utf8Ok?
    then root.children[Readme].read.text
    else ""
  }

  /** The dict `process_directory` returns. Root-level records are listed under ".". */
  ghost function DocumentSpec(mimeOf: MimeLookup, root: Directory, rootPath: string, repositoryName: string, description: string): Document
  {
    var names := SortedKeys(root.children.Keys);
    var files := FilesAmong(mimeOf, WithoutReadme(root), names, rootPath, ".");
    Document(repositoryName, description, ReadmeText(root), EmptyContext,
      FoldersAmong(mimeOf, WithoutReadme(root), names, rootPath, "."),
      if files == [] then None else Some(files))
  }

  /**
    The body both loops share for a regular file: read it (UTF-8, else
    Latin-1, else ""), tag it, and blank a notebook's content.
  */
  method ReadFile(mimeOf: MimeLookup, itemPath: string, relativeItemPath: string, name: string, read: ReadOutcome)
    returns (fileData: FileRecord)
    ensures fileData == FileRecordOf(mimeOf, itemPath, relativeItemPath, name, read)
  {
    var content: string;
    match read {
      case Utf8Ok(text) =>
        content := text;
      case Utf8Fail(Some(text)) =>
        content := text;
      case Utf8Fail(None) =>
        content := "";
      case IoFail =>
        content := "";
    }
    var language := GuessLanguage(mimeOf, itemPath);
    if language == "ipynb" {
      content := "";
    }
    fileData := FileRecord(relativeItemPath, language, "File: " + name, content);
  }

  /** `process_folder(folder_path, relative_path)`. */
  method ProcessFolder(mimeOf: MimeLookup, d: Directory, fsPath: string, relPath: string) returns (folder: FolderRecord)
    ensures folder == FolderSpec(mimeOf, d, fsPath, relPath)
    decreases d
  {
    var files: seq<FileRecord> := [];
    var folders: seq<FolderRecord> := [];
    var names := SortedListing(d.children.Keys);
    for i := 0 to |names|
      invariant files == FilesAmong(mimeOf, d, names[..i], fsPath, relPath)
      invariant folders == FoldersAmong(mimeOf, d, names[..i], fsPath, relPath)
    {
      var name := names[i];
      FilesAmongStep(mimeOf, d, names, i, fsPath, relPath);
      FoldersAmongStep(mimeOf, d, names, i, fsPath, relPath);
      var itemPath := Join(fsPath, name);
      var relativeItemPath := Join(relPath, name);
      match d.children[name]
      case Dir(sub) =>
        if name !in IgnoredDirs {
          var subfolder := ProcessFolder(mimeOf, sub, itemPath, relativeItemPath);
          if !Empty(subfolder) {
            folders := folders + [subfolder];
          }
        }
      case File(read) =>
        if name !in IgnoredFiles {
          var fileData := ReadFile(mimeOf, itemPath, relativeItemPath, name, read);
          files := files + [fileData];
        }
      case Other =>
    }
    assert names[..|names|] == names;
    folder := FolderRecord(relPath, "Folder: " + relPath, files, folders);
  }

  /**
    The readme step of `process_directory`: if the root has a `README.md`,
    try to read it as UTF-8; on any failure the error is reported and the
    content stays "".
  */
  method ReadReadme(root: Directory) returns (readmeContent: string)
    ensures readmeContent == ReadmeText(root)
  {
    readmeContent := "";
    if Readme in root.children {
      match root.children[Readme]
      case File(Utf8Ok(text)) =>
        readmeContent := text;
      case _ =>
        // unreadable as UTF-8, or not a regular file: the content stays ""
    }
  }

  /** `process_directory(root_path, repository_name, description)`. */
  method ProcessDirectory(mimeOf: MimeLookup, root: Directory, rootPath: string, repositoryName: string, description: string)
    returns (data: Document)
    ensures data == DocumentSpec(mimeOf, root, rootPath, repositoryName, description)
  {
    var readmeContent := ReadReadme(root);

    var folders: seq<FolderRecord> := [];
    var files: Option<seq<FileRecord>> := None;
    ghost var listed := WithoutReadme(root);
    ghost var recorded: seq<FileRecord> := [];
    var names := SortedListing(root.children.Keys);
    for i := 0 to |names|
      invariant folders == FoldersAmong(mimeOf, listed, names[..i], rootPath, ".")
      invariant recorded == FilesAmong(mimeOf, listed, names[..i], rootPath, ".")
      invariant files == if recorded == [] then None else Some(recorded)
    {
      var name := names[i];
      FilesAmongStep(mimeOf, listed, names, i, rootPath, ".");
      FoldersAmongStep(mimeOf, listed, names, i, rootPath, ".");
      if name == Readme {
        assert name !in listed.children;
        continue;
      }
      assert name in listed.children && listed.children[name] == root.children[name];
      var itemPath := Join(rootPath, name);
      match root.children[name]
      case Dir(sub) =>
        if name !in IgnoredDirs {
          var relativeItemPath := Join(".", name);
          var subfolder := ProcessFolder(mimeOf, sub, itemPath, relativeItemPath);
          if !Empty(subfolder) {
            folders := folders + [subfolder];
          }
        }
      case File(read) =>
        if name !in IgnoredFiles {
          var relativeItemPath := Join(".", name);
          var fileData := ReadFile(mimeOf, itemPath, relativeItemPath, name, read);
          if files.None? {
            files := Some([]);
          }
          files := Some(files.value + [fileData]);
          recorded := recorded + [fileData];
        }
      case Other =>
    }
    assert names[..|names|] == names;
    data := Document(repositoryName, description, readmeContent, EmptyContext, folders, files);
  }
}
