# ORIC: repository-to-YAML compiler, modelled in Dafny

`ORIC.py` walks a repository directory and builds a nested record tree that
it dumps as YAML: one record per folder (`path`, `description`, `files`,
`folders`) and per regular file (`path`, `language`, `description`,
`content`), under a root record (`repository_name`, `description`,
`readme_content`, `context`, `folders`, and `files` when the root has any).
This project models the core of that script and proves what it promises:

- `Language` — `guess_language`: the MIME table first, then the table of
  lower-cased extensions, then the extension without its dot, else
  `"unknown"`. The MIME lookup (`mimetypes.guess_type`) is a function
  parameter.
- `Paths` — the `os.path` pieces the script relies on: `join`, `basename`,
  the extension half of `splitext` (the last `.` of the base name, leading
  dots not counting), and `str.lower` on ASCII letters.
- `Listing` — `sorted(os.listdir(...))`: Python's code-point order on
  strings (`Below`), the sorted listing of a set of names as a reference
  function (`SortedKeys`), and the selection loop `SortedListing` proved to
  produce it.
- `Walker` — the ignore sets, the filesystem snapshot (`Directory`, `Entry`,
  `ReadOutcome`), the records, and `process_folder` / `process_directory`
  as the methods `ProcessFolder` / `ProcessDirectory`. Their loops append to
  sequences as the script appends to lists. Each is proved to return
  exactly a ghost specification (`FolderSpec`, `DocumentSpec`) built from
  the sorted listing.
- `WalkerFacts`, `WalkerShape`, `DocumentFacts` — what that specification
  guarantees. The output holds exactly the visible files: regular files
  whose names are not ignored and that are reached without entering an
  ignored directory (`VisibleFiles`, defined independently of the
  traversal). Every emitted folder has a file below it. Notebooks carry no
  content. Every list is in sorted path order. Paths and descriptions
  derive from names. The root `files` key appears exactly when a root file
  is recorded. The root `README.md` is never listed, whatever it is.
- `Emit` — what `yaml.dump(..., sort_keys=False)` receives: the records as
  ordered dicts (`DocumentNode`), read back losslessly (`DocumentOf`).
  Every string, keys included, is sent through `represent_scalar`, which
  requests literal block style `|` exactly for strings containing a newline.

The filesystem is an input value. A directory maps each name to a
subdirectory, to a regular file with the outcome of reading it, or to
`Other` (neither a directory nor a regular file), which the script skips.
Reading a file yields UTF-8 text, or a UTF-8 decoding failure followed by a
Latin-1 retry that may itself fail, or another I/O failure.

Lemmas about ordering and paths assume `WellNamed`: every name is non-empty
and free of `/`, as names returned by `os.listdir` are.

## Model

| member | source | states |
|---|---|---|
| `Listing.SortedListing` | ORIC.py:108 | the selection loop returns exactly `SortedKeys` of the listed names, the strictly increasing sequence of exactly those names |
| `Listing.SortedKeys` | ORIC.py:150 | the sorted listing is strictly increasing in Python's string order and holds exactly the given names |
| `Listing.IncreasingUnique` | ORIC.py:108 | two strictly increasing listings of the same names are the same listing, so `sorted` has one possible result |
| `Listing.Below` | ORIC.py:108 | Python's string order, in which a proper prefix sorts first |
| `Listing.BelowTotal` | ORIC.py:108 | any two distinct names are ordered one way or the other |
| `Listing.BelowTransitive` | ORIC.py:108 | the string order is transitive |
| `Listing.BelowUnderPrefix` | ORIC.py:109-110 | two names under the same directory prefix compare as the names do |
| `Paths.ExtensionShape` | ORIC.py:59 | the extension is non-empty exactly when the base name has a `.` after some non-dot character; it starts with its only `.` and ends the base name |
| `Paths.LeadingDots` | ORIC.py:59 | counts the dots a base name starts with: all of them are dots, and the next character is not |
| `Paths.Basename` | ORIC.py:59 | the base name has no `/`, ends the path, and starts right after the path's last `/` (the whole path when it has none) |
| `Paths.BasenameAfterSeparator` | ORIC.py:59 | the base name is the whole path or is preceded by a `/` |
| `Paths.Extension` | ORIC.py:59 | the extension half of `splitext` is empty or starts with `.` (its full shape is `ExtensionShape`) |
| `Paths.JoinShape` | ORIC.py:109-110 | `join(a, b)` ends with `b`; an absolute `b` is the whole result; a relative `b` comes right after `a`, with one `/` added between them exactly when `a` is non-empty and does not end in `/` |
| `Paths.Lower` | ORIC.py:59 | lower-casing keeps the length and maps each character on its own, ASCII capitals to small letters |
| `Paths.LastIndexOf` | ORIC.py:59 | the index found holds the character and no later index does; -1 when absent |
| `Paths.ExtensionOfStemAndExt` | ORIC.py:59 | a base name `stem.ext`, with `ext` dot-free and a non-dot in `stem`, has extension `.ext` |
| `Paths.JoinInjective` | ORIC.py:109-110 | joining one directory path with different plain names gives different paths |
| `Paths.LowerAfterDot` | ORIC.py:59 | lower-casing keeps a leading `.` in place |
| `Paths.BasenameOfJoin` | ORIC.py:109-110 | the base name of a path joined with a plain name is that name |
| `Language.GuessLanguage` | ORIC.py:22-75 | three tiers: a MIME type the first chain knows decides; else a lower-cased extension the second chain knows; else the lower-cased extension without its dot, or `unknown` without an extension |
| `Language.LanguageFromMime` | ORIC.py:24-57 | a MIME type the first chain knows fixes the tag, whatever the extension: any two paths with that MIME type get the same tag |
| `Language.LanguageFromExtension` | ORIC.py:59-75 | without a decisive MIME type, `stem.ext` gets the table's tag for `.ext` lower-cased, else `ext` lower-cased (empty for a name ending in `.`) |
| `Language.LanguageWithoutExtension` | ORIC.py:75 | without a decisive MIME type, a base name with no extension gets `unknown` |
| `Language.MimeNeverIpynb` | ORIC.py:24-57 | no MIME type is tagged `ipynb` |
| `Language.ExtensionIpynb` | ORIC.py:72-73 | the extension chain answers `ipynb` for `.ipynb` and nothing else |
| `Language.IpynbIffExtension` | ORIC.py:22-75 | a file is tagged `ipynb` exactly when its MIME type does not decide and its extension is `.ipynb` in some letter case |
| `Walker.ReadmeNotIgnored` | ORIC.py:9-19 | `README.md` is on neither ignore list, so below the root it is listed like any other file |
| `Walker.ReadText` | ORIC.py:124-134 | a file's text is its UTF-8 reading, else its Latin-1 reading, else empty |
| `Walker.FileRecordOf` | ORIC.py:124-145 | a file record has the listed path, `File: ` + name, the `guess_language` tag of the filesystem path, and the read text except for a notebook |
| `Walker.ReadFile` | ORIC.py:124-145 | the file step yields the record of `FileRecordOf`: UTF-8 text, else Latin-1 text, else empty; tag from `GuessLanguage`; no content for a notebook |
| `Walker.ReadReadme` | ORIC.py:92-98 | the readme step yields the readme's UTF-8 text, or empty when it is absent, not a regular file, or not UTF-8 |
| `Walker.ProcessFolder` | ORIC.py:100-148 | the loop over the sorted listing returns exactly `FolderSpec`: non-ignored regular files as records, then non-ignored, non-empty subfolders, in listing order |
| `Walker.ProcessDirectory` | ORIC.py:77-196 | returns exactly `DocumentSpec`: the readme's UTF-8 text, the empty context, root folders and files as in `ProcessFolder` with the readme skipped, and `files` only once a root file is recorded |
| `Walker.FilesAmongStep` | ORIC.py:120-146 | one more listed name adds at most one file record, for a non-ignored regular file |
| `Walker.FoldersAmongStep` | ORIC.py:112-118 | one more listed name adds at most one folder record, for a non-ignored directory whose record is not empty |
| `WalkerFacts.DirectFilesOfKeys` | ORIC.py:108 | names a directory lacks add no direct file |
| `WalkerFacts.SubdirFilesOfKeys` | ORIC.py:108 | names a directory lacks add no file below a subdirectory |
| `WalkerFacts.FilesAmongCollect` | ORIC.py:120-146 | the file records of a level are exactly those of its non-ignored regular files |
| `WalkerFacts.FoldersAmongCollect` | ORIC.py:112-118 | the files under a level's kept subfolders are exactly the visible files of its non-ignored subdirectories |
| `WalkerFacts.FolderHoldsVisibleFiles` | ORIC.py:108-148 | the files recorded anywhere under a folder are exactly its visible files: no ignored file, nothing under an ignored directory, nothing lost to pruning |
| `WalkerFacts.FoldersAmongPruned` | ORIC.py:116-118 | every folder record a level keeps is non-empty and pruned all the way down |
| `WalkerFacts.FolderPruned` | ORIC.py:115-118 | no folder record at any depth has both lists empty |
| `WalkerFacts.PrunedHoldsFile` | ORIC.py:117 | in a pruned tree, a non-empty folder record has a file somewhere below it |
| `WalkerFacts.PrunedFoldersHoldFiles` | ORIC.py:117-118 | in a pruned tree, every folder record has a file somewhere below it |
| `WalkerFacts.EmittedFoldersHoldFiles` | ORIC.py:115-118 | every folder the traversal emits, at any depth, has at least one file below it |
| `WalkerFacts.KeptIffVisibleFile` | ORIC.py:117-118 | a subfolder is kept exactly when a visible file lies below it |
| `WalkerFacts.ContentFromRead` | ORIC.py:124-145 | content is the UTF-8 text, else the Latin-1 text, else empty, and never anything else; a notebook's is empty |
| `WalkerFacts.VisibleNotebooksEmpty` | ORIC.py:136-138 | every visible file tagged `ipynb` has empty content |
| `WalkerFacts.NotebooksEmpty` | ORIC.py:136-138 | no emitted file tagged `ipynb`, at any depth, carries content |
| `WalkerShape.FilesAmongFrom` | ORIC.py:120-146 | each file record of a level is the record of one listed non-ignored regular file |
| `WalkerShape.FoldersAmongFrom` | ORIC.py:112-118 | each folder record of a level is the non-empty record of one listed non-ignored subdirectory |
| `WalkerShape.FilesAmongOrdered` | ORIC.py:108-146 | listing names in increasing order lists file records in increasing path order |
| `WalkerShape.FoldersAmongOrdered` | ORIC.py:108-118 | listing names in increasing order lists folder records in increasing path order |
| `WalkerShape.FolderOrdered` | ORIC.py:108-148 | at every depth, files and folders are in strictly increasing path order |
| `WalkerShape.FilesAmongLabelled` | ORIC.py:109-145 | each file record's path is the folder path joined with its name, its description is `File: ` + that name, and the name is not ignored |
| `WalkerShape.FoldersAmongNamed` | ORIC.py:109-118 | each folder record's path is the parent path joined with its name, which is not an ignored directory name |
| `WalkerShape.FolderLabelled` | ORIC.py:101-145 | at every depth, folders are described as `Folder: ` + path, files as `File: ` + name, paths follow names, and no record has an ignored name |
| `WalkerShape.SortedNamesPlain` | ORIC.py:108 | the sorted listing of a well-named directory holds only plain names |
| `DocumentFacts.DocumentHoldsVisibleFiles` | ORIC.py:150-194 | the document lists exactly the visible files of the root once the readme is set aside |
| `DocumentFacts.DirectFilesNonEmpty` | ORIC.py:166-168 | a level has direct file records exactly when it has a non-ignored regular file |
| `DocumentFacts.RootFilesNonEmpty` | ORIC.py:166-194 | the root loop records a file exactly when the root has a non-ignored regular file other than the readme |
| `DocumentFacts.FilesKeyIffRootFile` | ORIC.py:192-194 | the root `files` key exists exactly when such a root file exists, and it never holds an empty list |
| `DocumentFacts.DocumentNotebooksEmpty` | ORIC.py:183-185 | no file tagged `ipynb` anywhere in the document carries content |
| `DocumentFacts.ReadmeContent` | ORIC.py:92-98 | `readme_content` is the readme's text exactly when it is a regular file read as UTF-8, and empty otherwise |
| `DocumentFacts.Present` | ORIC.py:150-155 | keeps exactly the listed names the directory has |
| `DocumentFacts.PresentIncreasing` | ORIC.py:150 | dropping names keeps a listing increasing |
| `DocumentFacts.FilesAmongPresent` | ORIC.py:166-194 | names the directory lacks contribute no file record |
| `DocumentFacts.FoldersAmongPresent` | ORIC.py:157-164 | names the directory lacks contribute no folder record |
| `DocumentFacts.ReadmeNeverListed` | ORIC.py:153-155 | whatever the root `README.md` is, or if it is missing, the root `folders` and `files` are the same |
| `DocumentFacts.DocumentShape` | ORIC.py:150-194 | root records are in increasing path order under `./` + name, never named `README.md` or an ignored name, and every root folder is non-empty, ordered, labelled and pruned |
| `Emit.FileRoundTrip` | ORIC.py:140-145 | a file dict holds its four keys in order and gives back the record |
| `Emit.FilesRoundTrip` | ORIC.py:146 | a list of file dicts gives back the list of records |
| `Emit.FolderRoundTrip` | ORIC.py:101-106 | a folder dict holds its four keys in order and gives back the record at every depth |
| `Emit.FoldersRoundTrip` | ORIC.py:118 | a list of folder dicts gives back the list of records |
| `Emit.ContextRoundTrip` | ORIC.py:84-88 | the context dict holds its three keys in order and gives back the context |
| `Emit.DocumentRoundTrip` | ORIC.py:80-90 | the root dict read back key by key, in written order, gives the same document, `files` included exactly when present |
| `Emit.DocumentKeys` | ORIC.py:80-90 | any root dict's keys are the five fixed ones, then `files` exactly when the document has files |
| `Emit.EmittedRootKeys` | ORIC.py:192-194 | the root dict's keys are the five fixed ones, followed by `files` exactly when the root has a file to record |
| `Emit.StyleFor` | ORIC.py:217-221 | `represent_scalar` requests literal block style for a string exactly when it contains a newline |
| `Emit.RepresentScalar` | ORIC.py:217-221 | a string is represented as itself, with literal block style requested exactly when it contains a newline |
| `Emit.RepresentWellStyled` | ORIC.py:217-221 | `represent_scalar` requests literal block style for a string of the output, keys included, if and only if it contains a newline |
| `Emit.RepresentKeepsValue` | ORIC.py:217-221 | representation only adds styles: every text, order and nesting is kept |

## Left out

- `main` (ORIC.py:198-233): argument parsing, the default repository name, the not-a-directory exit, and writing to a file or stdout. This is command-line and I/O glue.
- The stderr message when the readme cannot be read (ORIC.py:98). The model keeps only its effect: `readme_content` stays empty.
- Real filesystem calls (`os.listdir`, `isdir`, `isfile`, `exists`, `open`). The snapshot stands for them, and symbolic links are not distinguished.
- Walker.ProcessFolder, Walker.ProcessDirectory: a directory that cannot be listed is not modelled. The `os.listdir` calls (ORIC.py:108, 150) have no error handling, so in the script such a subdirectory (permission denied, say) raises out of `process_directory` and aborts the whole run. A `Directory` snapshot is always listable.
- Walker.ProcessFolder: the recursion has no depth limit. The script recurses once per directory level (ORIC.py:115) and raises `RecursionError` at about 1000 nested levels; that error is not caught, so the whole run aborts.
- Walker.ReadReadme, DocumentFacts.ReadmeContent: the readme is looked up under the exact key `README.md`. On a case-insensitive filesystem the script's `os.path.exists` and `open` (ORIC.py:93-95) also find `readme.md` or `Readme.md` and read it, while the exact-name skip at ORIC.py:154 still lists that file. The model then gives an empty `readme_content` and lists the file once.
- Names that `os.listdir` cannot decode reach Python as lone surrogates (U+DC80 to U+DCFF). A Dafny `char` cannot hold a surrogate, so such names are not modelled.
- The contents of the `mimetypes` tables. They are platform data, so `mimetypes.guess_type` is the parameter `mimeOf`.
- Actual UTF-8 and Latin-1 decoding. `ReadOutcome` names the outcome of each read.
- Any root entry named `README.md` that is not a regular file readable as UTF-8 gives an empty `readme_content`. For a directory this matches the script, whose `open` fails and is caught. Special files are not distinguished from a failed read: the script would block opening a FIFO and would read a character device.
- PyYAML's emission: escaping, indentation, line folding, and the choice among plain and quoted styles (`Default` stands for all of them). Only the style `represent_scalar` requests and the dict key order are modelled.
- Emit.RepresentWellStyled: states the style requested, not the style emitted. PyYAML's emitter keeps a requested `|` only when the text allows a block scalar. A tab, a `\r`, a non-ASCII character (with the default `allow_unicode=False`) or a space before a line break makes it write a double-quoted scalar instead.
- Paths.Lower: lowers ASCII letters only, whereas `str.lower` also lowers other Unicode letters. Extensions with non-ASCII capitals may therefore be tagged differently.
- Paths.Join: models POSIX `os.path.join` only.
- Line 12 of ORIC.py starts with a stray comma, which is a syntax error, so the file as written does not import. `Walker.IgnoredDirs` is the evidently intended set, with `.venv` in it. `.gitattributes` stays among the ignored directory names, as written.
