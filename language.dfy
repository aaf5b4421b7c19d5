/**
  `guess_language`: the language tag of a file, decided first by its MIME
  type, then by its lower-cased extension, and otherwise derived from the
  extension itself.
*/
module Language {
  import opened Basics
  import opened Paths

  /** `mimetypes.guess_type(path)[0]`: platform data, so the model takes it as a parameter. */
  type MimeLookup = string -> Option<string>

  /** The first chain of tests: the MIME types the classifier recognises, with their tags. */
  function MimeLanguage(mime: string): Option<string>
  {
    match mime
    case "text/x-python" => Some("python")
    case "text/javascript" => Some("javascript")
    case "application/x-sh" => Some("shell")
    case "text/x-c" => Some("c")
    case "text/x-c++" => Some("cpp")
    case "text/x-java" => Some("java")
    case "text/x-go" => Some("go")
    case "text/x-ruby" => Some("ruby")
    case "text/x-php" => Some("php")
    case "text/x-csharp" => Some("csharp")
    case "text/x-swift" => Some("swift")
    case "application/json" => Some("json")
    case "text/html" => Some("html")
    case "text/css" => Some("css")
    case "text/markdown" => Some("markdown")
    case "application/x-yaml" => Some("yaml")
    case _ => None
  }

  /** The second chain of tests: the lower-cased extensions the classifier recognises. */
  function ExtensionLanguage(ext: string): Option<string>
  {
    match ext
    case ".tf" => Some("terraform")
    case ".yaml" => Some("yaml")
    case ".yml" => Some("yaml")
    case ".py" => Some("python")
    case ".js" => Some("javascript")
    case ".go" => Some("go")
    case ".md" => Some("markdown")
    case ".ipynb" => Some("ipynb")
    case _ => None
  }

  /** The MIME lookup answered with a type the first chain knows. */
  predicate MimeDecides(mimeOf: MimeLookup, path: string)
  {
    mimeOf(path).Some? && MimeLanguage(mimeOf(path).value).Some?
  }

  /**
    `guess_language`, in three tiers: a MIME type the first chain knows
    decides; otherwise a lower-cased extension the second chain knows; otherwise
    the lower-cased extension without its dot, and "unknown" without one.
  */
  function GuessLanguage(mimeOf: MimeLookup, path: string): (r: string)
    ensures MimeDecides(mimeOf, path) ==> r == MimeLanguage(mimeOf(path).value).value
    ensures !MimeDecides(mimeOf, path) && ExtensionLanguage(Lower(Extension(path))).Some? ==>
      r == ExtensionLanguage(Lower(Extension(path))).value
    ensures !MimeDecides(mimeOf, path) && ExtensionLanguage(Lower(Extension(path))).None? ==>
      r == if Extension(path) == [] then "unknown" else Lower(Extension(path)[1..])
  {
    if MimeDecides(mimeOf, path) then MimeLanguage(mimeOf(path).value).value
    else
      var ext := Lower(Extension(path));
      var byExtension := ExtensionLanguage(ext);
      if byExtension.Some? then byExtension.value
      else if ext != [] then ext[1..]
      else "unknown"
  }

  /** A recognised MIME type fixes the tag, whatever the file's extension. */
  lemma LanguageFromMime(mimeOf: MimeLookup, path: string, other: string)
    requires MimeDecides(mimeOf, path)
    requires mimeOf(other) == mimeOf(path)
    ensures GuessLanguage(mimeOf, path) == MimeLanguage(mimeOf(path).value).value
    ensures GuessLanguage(mimeOf, other) == GuessLanguage(mimeOf, path)
  {
  }

  /**
    Otherwise a base name `stem.ext` (with something other than dots in the
    stem) is tagged by the second chain's entry for ".ext" lower-cased, or by
    the lower-cased `ext` itself. An empty `ext` ("notes.") gives the empty tag.
  */
  lemma LanguageFromExtension(mimeOf: MimeLookup, path: string, stem: string, ext: string)
    requires !MimeDecides(mimeOf, path)
    requires Basename(path) == stem + "." + ext
    requires '.' !in ext
    requires exists j :: 0 <= j < |stem| && stem[j] != '.'
    ensures var byExtension := ExtensionLanguage("." + Lower(ext));
      GuessLanguage(mimeOf, path) == if byExtension.Some? then byExtension.value else Lower(ext)
  {
    ExtensionOfStemAndExt(path, stem, ext);
    LowerAfterDot(ext);
    assert ("." + Lower(ext))[1..] == Lower(ext);
  }

  /** A base name without an extension ("LICENSE", ".bashrc") is tagged "unknown". */
  lemma LanguageWithoutExtension(mimeOf: MimeLookup, path: string)
    requires !MimeDecides(mimeOf, path)
    requires !Dotted(Basename(path))
    ensures GuessLanguage(mimeOf, path) == "unknown"
  {
    ExtensionShape(path);
  }

  /** The MIME chain never answers "ipynb". */
  lemma MimeNeverIpynb(mime: string)
    ensures MimeLanguage(mime) != Some("ipynb")
  {
  }

  /** The extension chain answers "ipynb" for ".ipynb" only. */
  lemma ExtensionIpynb(ext: string)
    ensures ExtensionLanguage(ext) == Some("ipynb") <==> ext == ".ipynb"
  {
  }

  /** A dot followed by "ipynb" is the extension ".ipynb" (a helper for `IpynbIffExtension`). */
  lemma DotIpynb(ext: string)
    requires ext != [] && ext[0] == '.' && ext[1..] == "ipynb"
    ensures ext == ".ipynb"
  {
    assert ext == [ext[0]] + ext[1..];
  }

  /**
    A file is tagged "ipynb" exactly when the MIME type does not decide and
    its extension is ".ipynb" in some letter case.
  */
  lemma IpynbIffExtension(mimeOf: MimeLookup, path: string)
    ensures GuessLanguage(mimeOf, path) == "ipynb"
      <==> !MimeDecides(mimeOf, path) && Lower(Extension(path)) == ".ipynb"
  {
    var ext := Lower(Extension(path));
    if MimeDecides(mimeOf, path) {
      MimeNeverIpynb(mimeOf(path).value);
    } else {
      ExtensionIpynb(ext);
      if ExtensionLanguage(ext).None? && ext != [] && ext[1..] == "ipynb" {
        ExtensionShape(path);
        assert ext[0] == LowerChar(Extension(path)[0]);
        DotIpynb(ext);
      }
    }
  }
}
