/**
  What `yaml.dump(data, indent=2, sort_keys=False)` is handed, and the one
  decision the script adds to it: the dicts of the record tree become
  mappings whose keys keep insertion order, and for every string literal
  block style ('|') is requested exactly when it contains a newline. (The
  emitter may still write a requested '|' as a double-quoted scalar.)
*/
module Emit {
  import opened Basics
  import opened Language
  import opened Walker
  import opened DocumentFacts

  /** A value the dumper receives: a string, a list, or a dict in insertion order. */
  datatype Node = Str(text: string) | List(items: seq<Node>) | Mapping(pairs: seq<Pair>)
  datatype Pair = Pair(key: string, value: Node)

  /** The scalar styles in play: PyYAML's default choice, or the literal block '|'. */
  datatype Style = Default | Literal

  /** A represented value: every string, keys included, carries the style chosen for it. */
  datatype Styled = Scalar(text: string, style: Style) | Block(items: seq<Styled>) | Table(pairs: seq<StyledPair>)
  datatype StyledPair = StyledPair(key: Styled, value: Styled)

  // ---------------------------------------------------------------------
  // The record tree as dicts

  function FileNode(x: FileRecord): Node
  {
    Mapping([
      Pair("path", Str(x.path)),
      Pair("language", Str(x.language)),
      Pair("description", Str(x.description)),
      Pair("content", Str(x.content))])
  }

  function FolderNode(f: FolderRecord): Node
    decreases f
  {
    Mapping([
      Pair("path", Str(f.path)),
      Pair("description", Str(f.description)),
      Pair("files", List(seq(|f.files|, i requires 0 <= i < |f.files| => FileNode(f.files[i])))),
      Pair("folders", List(seq(|f.folders|, i requires 0 <= i < |f.folders| => FolderNode(f.folders[i]))))])
  }

  function ContextNode(c: Context): Node
  {
    Mapping([
      Pair("overall_architecture", Str(c.overallArchitecture)),
      Pair("deployment_process", Str(c.deploymentProcess)),
      Pair("key_technologies", List(seq(|c.keyTechnologies|, i requires 0 <= i < |c.keyTechnologies| => Str(c.keyTechnologies[i]))))])
  }

  /** The root dict: the `files` key, inserted only when the first root file is recorded, comes last. */
  function DocumentNode(doc: Document): Node
  {
    Mapping([
      Pair("repository_name", Str(doc.repositoryName)),
      Pair("description", Str(doc.description)),
      Pair("readme_content", Str(doc.readmeContent)),
      Pair("context", ContextNode(doc.context)),
      Pair("folders", List(seq(|doc.folders|, i requires 0 <= i < |doc.folders| => FolderNode(doc.folders[i]))))]
      + match doc.files
        case None => []
        case Some(files) => [Pair("files", List(seq(|files|, i requires 0 <= i < |files| => FileNode(files[i]))))])
  }

  function Keys(n: Node): seq<string>
  {
    if n.Mapping? then seq(|n.pairs|, i requires 0 <= i < |n.pairs| => n.pairs[i].key) else []
  }

  // ---------------------------------------------------------------------
  // Reading the dicts back, key by key in the order they were written

  function StrOf(n: Node): Option<string>
  {
    if n.Str? then Some(n.text) else None
  }

  function FileOf(n: Node): Option<FileRecord>
  {
    if && n.Mapping? && |n.pairs| == 4
       && n.pairs[0].key == "path" && n.pairs[1].key == "language"
       && n.pairs[2].key == "description" && n.pairs[3].key == "content"
       && n.pairs[0].value.Str? && n.pairs[1].value.Str? && n.pairs[2].value.Str? && n.pairs[3].value.Str?
    then Some(FileRecord(n.pairs[0].value.text, n.pairs[1].value.text, n.pairs[2].value.text, n.pairs[3].value.text))
    else None
  }

  function FilesOf(n: Node): Option<seq<FileRecord>>
  {
    if n.List? && forall i :: 0 <= i < |n.items| ==> FileOf(n.items[i]).Some?
    then Some(seq(|n.items|, i requires 0 <= i < |n.items| => FileOf(n.items[i]).value))
    else None
  }

  function FolderOf(n: Node): Option<FolderRecord>
    decreases n
  {
    if && n.Mapping? && |n.pairs| == 4
       && n.pairs[0].key == "path" && n.pairs[1].key == "description"
       && n.pairs[2].key == "files" && n.pairs[3].key == "folders"
       && n.pairs[0].value.Str? && n.pairs[1].value.Str?
       && FilesOf(n.pairs[2].value).Some? && n.pairs[3].value.List?
    then
      var items := n.pairs[3].value.items;
      var subs := seq(|items|, i requires 0 <= i < |items| => FolderOf(items[i]));
      if forall i :: 0 <= i < |subs| ==> subs[i].Some? then
        Some(FolderRecord(n.pairs[0].value.text, n.pairs[1].value.text, FilesOf(n.pairs[2].value).value,
          seq(|subs|, i requires 0 <= i < |subs| => subs[i].value)))
      else None
    else None
  }

  function ContextOf(n: Node): Option<Context>
  {
    if && n.Mapping? && |n.pairs| == 3
       && n.pairs[0].key == "overall_architecture" && n.pairs[1].key == "deployment_process"
       && n.pairs[2].key == "key_technologies"
       && n.pairs[0].value.Str? && n.pairs[1].value.Str? && n.pairs[2].value.List?
       && forall i :: 0 <= i < |n.pairs[2].value.items| ==> n.pairs[2].value.items[i].Str?
    then
      var items := n.pairs[2].value.items;
      Some(Context(n.pairs[0].value.text, n.pairs[1].value.text, seq(|items|, i requires 0 <= i < |items| => items[i].text)))
    else None
  }

  function FoldersOf(n: Node): Option<seq<FolderRecord>>
  {
    if n.List? && forall i :: 0 <= i < |n.items| ==> FolderOf(n.items[i]).Some?
    then Some(seq(|n.items|, i requires 0 <= i < |n.items| => FolderOf(n.items[i]).value))
    else None
  }

  /** The root dict read back: five keys in order, then `files` only if there is a sixth. */
  function DocumentOf(n: Node): Option<Document>
  {
    if && n.Mapping? && (|n.pairs| == 5 || |n.pairs| == 6)
       && n.pairs[0].key == "repository_name" && n.pairs[1].key == "description"
       && n.pairs[2].key == "readme_content" && n.pairs[3].key == "context" && n.pairs[4].key == "folders"
       && n.pairs[0].value.Str? && n.pairs[1].value.Str? && n.pairs[2].value.Str?
       && ContextOf(n.pairs[3].value).Some? && FoldersOf(n.pairs[4].value).Some?
       && (|n.pairs| == 6 ==> n.pairs[5].key == "files" && FilesOf(n.pairs[5].value).Some?)
    then
      Some(Document(n.pairs[0].value.text, n.pairs[1].value.text, n.pairs[2].value.text,
        ContextOf(n.pairs[3].value).value, FoldersOf(n.pairs[4].value).value,
        if |n.pairs| == 6 then FilesOf(n.pairs[5].value) else None))
    else None
  }

  lemma FileRoundTrip(x: FileRecord)
    ensures FileOf(FileNode(x)) == Some(x)
  {
  }

  lemma FilesRoundTrip(items: seq<Node>, xs: seq<FileRecord>)
    requires |items| == |xs| && forall i :: 0 <= i < |xs| ==> items[i] == FileNode(xs[i])
    ensures FilesOf(List(items)) == Some(xs)
  {
    forall i | 0 <= i < |xs| ensures FileOf(items[i]) == Some(xs[i]) {
      FileRoundTrip(xs[i]);
    }
    assert seq(|items|, i requires 0 <= i < |items| => FileOf(items[i]).value) == xs;
  }

  /** A folder record survives being written as a dict and read back, at every depth. */
  lemma {:induction false} FolderRoundTrip(f: FolderRecord)
    ensures FolderOf(FolderNode(f)) == Some(f)
    decreases f
  {
    var n := FolderNode(f);
    FilesRoundTrip(n.pairs[2].value.items, f.files);
    var items := n.pairs[3].value.items;
    var subs := seq(|items|, i requires 0 <= i < |items| => FolderOf(items[i]));
    forall i | 0 <= i < |items| ensures subs[i] == Some(f.folders[i]) {
      FolderRoundTrip(f.folders[i]);
    }
    assert seq(|subs|, i requires 0 <= i < |subs| => subs[i].value) == f.folders;
  }

  lemma FoldersRoundTrip(items: seq<Node>, gs: seq<FolderRecord>)
    requires |items| == |gs| && forall i :: 0 <= i < |gs| ==> items[i] == FolderNode(gs[i])
    ensures FoldersOf(List(items)) == Some(gs)
  {
    forall i | 0 <= i < |gs| ensures FolderOf(items[i]) == Some(gs[i]) {
      FolderRoundTrip(gs[i]);
    }
    assert seq(|items|, i requires 0 <= i < |items| => FolderOf(items[i]).value) == gs;
  }

  lemma ContextRoundTrip(c: Context)
    ensures ContextOf(ContextNode(c)) == Some(c)
  {
    var items := ContextNode(c).pairs[2].value.items;
    assert seq(|items|, i requires 0 <= i < |items| => items[i].text) == c.keyTechnologies;
  }

  /**
    The root dict holds the whole document: read back key by key, in the
    order written, it gives the same document, with `files` present exactly
    when the document has it.
  */
  lemma DocumentRoundTrip(doc: Document)
    ensures DocumentOf(DocumentNode(doc)) == Some(doc)
  {
    var n := DocumentNode(doc);
    FoldersRoundTrip(n.pairs[4].value.items, doc.folders);
    ContextRoundTrip(doc.context);
    if doc.files.Some? {
      FilesRoundTrip(n.pairs[5].value.items, doc.files.value);
    }
  }

  /**
    In the emitted root mapping, `files` follows the five fixed keys, and is
    there exactly when the root holds a non-ignored regular file other than
    the readme.
  */
  lemma EmittedRootKeys(mimeOf: MimeLookup, root: Directory, rootPath: string, repositoryName: string, description: string)
    ensures var keys := Keys(DocumentNode(DocumentSpec(mimeOf, root, rootPath, repositoryName, description)));
      && keys[..5] == ["repository_name", "description", "readme_content", "context", "folders"]
      && (keys[5..] == ["files"] <==> HasRootFile(root))
      && (keys[5..] == [] <==> !HasRootFile(root))
  {
    var doc := DocumentSpec(mimeOf, root, rootPath, repositoryName, description);
    FilesKeyIffRootFile(mimeOf, root, rootPath, repositoryName, description);
    DocumentKeys(doc);
  }

  /** The root dict's keys: the five fixed ones, then `files` when the document has files. */
  lemma DocumentKeys(doc: Document)
    ensures var keys := Keys(DocumentNode(doc));
      && keys[..5] == ["repository_name", "description", "readme_content", "context", "folders"]
      && keys[5..] == if doc.files.Some? then ["files"] else []
  {
    var n := DocumentNode(doc);
    var keys := Keys(n);
    assert |keys| == |n.pairs| && forall i :: 0 <= i < |keys| ==> keys[i] == n.pairs[i].key;
    assert keys[..5] == ["repository_name", "description", "readme_content", "context", "folders"];
    if doc.files.Some? {
      assert |keys| == 6 && keys[5] == "files";
      assert keys[5..] == ["files"];
    } else {
      assert |keys| == 5;
    }
  }

  // ---------------------------------------------------------------------
  // The scalar style rule

  /** `represent_scalar`: a string with a newline is given the literal block style '|' to request. */
  function StyleFor(s: string): (style: Style)
    ensures style == Literal <==> '\n' in s
  {
    if '\n' in s then Literal else Default
  }

  function RepresentScalar(s: string): (o: Styled)
    ensures o.Scalar? && o.text == s
    ensures o.style == Literal <==> '\n' in s
  {
    Scalar(s, StyleFor(s))
  }

  /** The dumper's walk over a value, which sends every string through `represent_scalar`. */
  function Represent(n: Node): Styled
    decreases n
  {
    match n
    case Str(text) => RepresentScalar(text)
    case List(items) => Block(seq(|items|, i requires 0 <= i < |items| => Represent(items[i])))
    case Mapping(pairs) =>
      Table(seq(|pairs|, i requires 0 <= i < |pairs| => StyledPair(RepresentScalar(pairs[i].key), Represent(pairs[i].value))))
  }

  /** Every scalar requests literal style exactly when its text has a newline. */
  ghost predicate WellStyled(o: Styled)
    decreases o
  {
    match o
    case Scalar(text, style) => style == Literal <==> '\n' in text
    case Block(items) => forall i :: 0 <= i < |items| ==> WellStyled(items[i])
    case Table(pairs) => forall i :: 0 <= i < |pairs| ==> WellStyled(pairs[i].key) && WellStyled(pairs[i].value)
  }

  /** Drops the styles: what a reader of the emitted YAML gets back. */
  function Unstyle(o: Styled): Node
    decreases o
  {
    match o
    case Scalar(text, _) => Str(text)
    case Block(items) => List(seq(|items|, i requires 0 <= i < |items| => Unstyle(items[i])))
    case Table(pairs) =>
      Mapping(seq(|pairs|, i requires 0 <= i < |pairs| =>
        Pair(if pairs[i].key.Scalar? then pairs[i].key.text else "", Unstyle(pairs[i].value))))
  }

  /** `represent_scalar` requests block style '|' for every string, keys included, if and only if it contains a newline. */
  lemma {:induction false} RepresentWellStyled(n: Node)
    ensures WellStyled(Represent(n))
    decreases n
  {
    match n
    case Str(_) =>
    case List(items) =>
      forall i | 0 <= i < |items| ensures WellStyled(Represent(items[i])) {
        RepresentWellStyled(items[i]);
      }
    case Mapping(pairs) =>
      forall i | 0 <= i < |pairs| ensures WellStyled(Represent(pairs[i].value)) {
        RepresentWellStyled(pairs[i].value);
      }
  }

  /** The style is the only thing representation adds: text, order and nesting are kept. */
  lemma {:induction false} RepresentKeepsValue(n: Node)
    ensures Unstyle(Represent(n)) == n
    decreases n
  {
    match n
    case Str(_) =>
    case List(items) =>
      forall i | 0 <= i < |items| ensures Unstyle(Represent(items[i])) == items[i] {
        RepresentKeepsValue(items[i]);
      }
    case Mapping(pairs) =>
      forall i | 0 <= i < |pairs| ensures Unstyle(Represent(pairs[i].value)) == pairs[i].value {
        RepresentKeepsValue(pairs[i].value);
      }
  }
}
