/**
  Language classification (src/lib/helpers/language.rs). The Rust source generates the
  `Language` enum and its `from_extension`, `color` and `Display` from one macro table
  (language.rs:63-96); each row is one variant, its extensions, an optional display name
  and an RGB colour. Here the table is spelled out: `Extensions`, `Color` and `Name`
  are the three columns, and `FromExtension` is the match the macro expands to.
 */
module Languages {
  import opened Strings
  import opened Wrappers

  newtype u8 = x: int | 0 <= x < 256

  datatype Rgb = Rgb(r: u8, g: u8, b: u8)

  datatype Language =
    | Astro
    | Bash
    | C
    | CPP
    | CSharp
    | CSS
    | CSV
    | Go
    | HTML
    | Java
    | JavaScript
    | JSON
    | Kotlin
    | Lua
    | Makefile
    | Markdown
    | Perl
    | PHP
    | PowerShell
    | Python
    | React
    | Ruby
    | Rust
    | Svelte
    | SVG
    | Swift
    | Text
    | TOML
    | TSV
    | TypeScript
    | XML
    | YAML
    | Unknown(ext: string)

  /** The extension column of the table: what each variant is matched from. */
  function Extensions(l: Language): seq<string> {
    match l
    case Astro => ["astro"]
    case Bash => ["sh"]
    case C => ["c"]
    case CPP => ["cpp"]
    case CSharp => ["cs"]
    case CSS => ["css"]
    case CSV => ["csv"]
    case Go => ["go"]
    case HTML => ["html", "htm"]
    case Java => ["java"]
    case JavaScript => ["js", "mjs", "cjs"]
    case JSON => ["json", "jsonc"]
    case Kotlin => ["kt", "kts"]
    case Lua => ["lua"]
    case Makefile => ["mk", "makefile"]
    case Markdown => ["md", "markdown"]
    case Perl => ["pl", "pm"]
    case PHP => ["php"]
    case PowerShell => ["ps1", "psm1", "psd1"]
    case Python => ["py"]
    case React => ["jsx", "tsx"]
    case Ruby => ["rb"]
    case Rust => ["rs"]
    case Svelte => ["svelte"]
    case SVG => ["svg"]
    case Swift => ["swift"]
    case Text => ["txt", "text"]
    case TOML => ["toml"]
    case TSV => ["tsv"]
    case TypeScript => ["ts"]
    case XML => ["xml"]
    case YAML => ["yaml", "yml"]
    case Unknown(_) => []
  }

  /** `Language::from_extension`: lower-case the extension, then look it up. */
  function FromExtension(ext: string): (l: Language)
    ensures l.Unknown? ==> l == Unknown(ToLower(ext))
  {
    Classify(ToLower(ext))
  }

  /** The match the macro expands to, on an already lower-cased extension. */
  function Classify(lower: string): (l: Language)
    ensures l.Unknown? ==> l == Unknown(lower)
  {
    match lower
    case "astro" => Astro
    case "sh" => Bash
    case "c" => C
    case "cpp" => CPP
    case "cs" => CSharp
    case "css" => CSS
    case "csv" => CSV
    case "go" => Go
    case "html" | "htm" => HTML
    case "java" => Java
    case "js" | "mjs" | "cjs" => JavaScript
    case "json" | "jsonc" => JSON
    case "kt" | "kts" => Kotlin
    case "lua" => Lua
    case "mk" | "makefile" => Makefile
    case "md" | "markdown" => Markdown
    case "pl" | "pm" => Perl
    case "php" => PHP
    case "ps1" | "psm1" | "psd1" => PowerShell
    case "py" => Python
    case "jsx" | "tsx" => React
    case "rb" => Ruby
    case "rs" => Rust
    case "svelte" => Svelte
    case "svg" => SVG
    case "swift" => Swift
    case "txt" | "text" => Text
    case "toml" => TOML
    case "tsv" => TSV
    case "ts" => TypeScript
    case "xml" => XML
    case "yaml" | "yml" => YAML
    case _ => Unknown(lower)
  }

  /** `Language::color`: the row's RGB triple; grey for unknown extensions. */
  function Color(l: Language): (rgb: Rgb)
    ensures rgb == Rgb(127, 127, 127) <==> l.Unknown?
  {
    match l
    case Astro => Rgb(255, 69, 0)
    case Bash => Rgb(88, 156, 88)
    case C => Rgb(70, 70, 240)
    case CPP => Rgb(45, 45, 255)
    case CSharp => Rgb(98, 164, 228)
    case CSS => Rgb(86, 61, 124)
    case CSV => Rgb(0, 123, 255)
    case Go => Rgb(0, 173, 216)
    case HTML => Rgb(227, 76, 38)
    case Java => Rgb(176, 114, 25)
    case JavaScript => Rgb(247, 223, 30)
    case JSON => Rgb(255, 224, 102)
    case Kotlin => Rgb(136, 58, 163)
    case Lua => Rgb(0, 0, 255)
    case Makefile => Rgb(48, 77, 48)
    case Markdown => Rgb(0, 102, 204)
    case Perl => Rgb(129, 133, 149)
    case PHP => Rgb(79, 93, 149)
    case PowerShell => Rgb(1, 36, 86)
    case Python => Rgb(53, 114, 165)
    case React => Rgb(0, 122, 204)
    case Ruby => Rgb(204, 52, 51)
    case Rust => Rgb(255, 165, 0)
    case Svelte => Rgb(255, 62, 0)
    case SVG => Rgb(255, 181, 0)
    case Swift => Rgb(255, 102, 0)
    case Text => Rgb(255, 255, 255)
    case TOML => Rgb(120, 120, 120)
    case TSV => Rgb(0, 123, 255)
    case TypeScript => Rgb(0, 122, 204)
    case XML => Rgb(255, 153, 51)
    case YAML => Rgb(255, 255, 0)
    case Unknown(_) => Rgb(127, 127, 127)
  }

  /** `impl Display for Language`: the display override if the row has one, else the
      variant's identifier; an unknown extension prints as "." followed by it. */
  function Name(l: Language): (name: string)
    ensures l.Unknown? <==> name != [] && name[0] == '.'
  {
    match l
    case Astro => "Astro"
    case Bash => "Bash"
    case C => "C"
    case CPP => "C++"
    case CSharp => "C#"
    case CSS => "CSS"
    case CSV => "CSV"
    case Go => "Go"
    case HTML => "HTML"
    case Java => "Java"
    case JavaScript => "JavaScript"
    case JSON => "JSON"
    case Kotlin => "Kotlin"
    case Lua => "Lua"
    case Makefile => "Makefile"
    case Markdown => "Markdown"
    case Perl => "Perl"
    case PHP => "PHP"
    case PowerShell => "PowerShell"
    case Python => "Python"
    case React => "React"
    case Ruby => "Ruby"
    case Rust => "Rust"
    case Svelte => "Svelte"
    case SVG => "SVG"
    case Swift => "Swift"
    case Text => "Text"
    case TOML => "TOML"
    case TSV => "TSV"
    case TypeScript => "TypeScript"
    case XML => "XML"
    case YAML => "YAML"
    case Unknown(x) => "." + x
  }
  /** `Path::extension` over a '/'-separated path: the text after the last '.' of the
      file name, unless the name has no '.', is "..", or its only '.' is its first
      character (a dot file such as ".bashrc"). */
  function Extension(path: string): (r: Option<string>)
    ensures r.Some? ==> '/' !in r.value && '.' !in r.value
  {
    var name := FileName(path);
    var dot := LastIndexOf(name, '.');
    if name == ".." || dot == |name| || dot == 0 then None else Some(name[dot + 1..])
  }

  /** `Path::file_name` for a '/'-separated path: the last component once trailing
      separators and "." components are dropped, so "x.rs/" and "x.rs/." both name
      "x.rs". */
  function FileName(path: string): (r: string)
    ensures '/' !in r
  {
    LastComponent(TrimEnd(path))
  }

  /** The path without trailing '/' separators and trailing "." components. */
  function TrimEnd(path: string): (r: string)
    ensures |r| <= |path| && r == path[..|r|]
    ensures r == [] || (r[|r| - 1] != '/' && !EndsInDot(r))
    decreases |path|
  {
    if path != [] && path[|path| - 1] == '/' then TrimEnd(path[..|path| - 1])
    else if EndsInDot(path) then TrimEnd(path[..|path| - 2])
    else path
  }

  /** The path ends in a "." component after a separator. */
  predicate EndsInDot(path: string) {
    |path| >= 2 && path[|path| - 2] == '/' && path[|path| - 1] == '.'
  }

  /** The text after the last '/'. */
  function LastComponent(path: string): (r: string)
    ensures '/' !in r
  {
    var slash := LastIndexOf(path, '/');
    if slash == |path| then path else path[slash + 1..]
  }

  /** Index of the last `c` in `s`, or `|s|` when there is none. */
  function LastIndexOf(s: string, c: char): (i: nat)
    ensures i <= |s|
    ensures i < |s| ==> s[i] == c && c !in s[i + 1..]
    ensures i == |s| ==> c !in s
  {
    if s == [] then 0
    else if s[|s| - 1] == c then |s| - 1
    else
      var j := LastIndexOf(s[..|s| - 1], c);
      if j == |s| - 1 then
        assert s == s[..|s| - 1] + [s[|s| - 1]];
        |s|
      else
        assert s[j + 1..] == s[..|s| - 1][j + 1..] + [s[|s| - 1]];
        j
  }

  /** With no `c` after it, the `c` between `a` and `b` is the last one. */
  lemma {:induction false} LastIndexOfAppend(a: string, c: char, b: string)
    requires c !in b
    ensures LastIndexOf(a + [c] + b, c) == |a|
    decreases |b|
  {
    var s := a + [c] + b;
    if b != [] {
      assert s[|s| - 1] == b[|b| - 1];
      assert s[..|s| - 1] == a + [c] + b[..|b| - 1];
      assert c !in b[..|b| - 1] by {
        assert forall x | x in b[..|b| - 1] :: x in b;
      }
      LastIndexOfAppend(a, c, b[..|b| - 1]);
    }
  }

  /** `Language::from_path`: `Text` when there is no extension, otherwise the
      extension's classification. */
  function FromPath(path: string): (l: Language)
    ensures Extension(path).None? ==> l == Text
    ensures Extension(path).Some? ==> l == FromExtension(Extension(path).value)
  {
    match Extension(path)
    case None => Text
    case Some(ext) => FromExtension(ext)
  }

  /** Every extension in a row classifies as that row's variant. */
  lemma ExtensionsClassify(l: Language, e: string)
    requires e in Extensions(l)
    ensures FromExtension(e) == l
  {
    assert ToLower(e) == e;
    RowsClassify(l, e);
  }

  /** The table's rows, checked a few at a time. */
  lemma RowsClassify(l: Language, e: string)
    requires e in Extensions(l)
    ensures Classify(e) == l
  {
    if l == Astro || l == Bash || l == C || l == CPP || l == CSharp || l == CSS {
      RowsClassify0(l, e);
    } else if l == CSV || l == Go || l == HTML || l == Java || l == JavaScript || l == JSON {
      RowsClassify1(l, e);
    } else if l == Kotlin || l == Lua || l == Makefile || l == Markdown || l == Perl || l == PHP {
      RowsClassify2(l, e);
    } else if l == PowerShell || l == Python || l == React || l == Ruby || l == Rust || l == Svelte {
      RowsClassify3(l, e);
    } else if l == SVG || l == Swift || l == Text || l == TOML || l == TSV || l == TypeScript {
      RowsClassify4(l, e);
    } else {
      RowsClassify5(l, e);
    }
  }

  lemma RowsClassify0(l: Language, e: string)
    requires e in Extensions(l) && (l == Astro || l == Bash || l == C || l == CPP || l == CSharp || l == CSS)
    ensures Classify(e) == l
  {
    if l == Astro {
      assert Classify("astro") == Astro;
    } else if l == Bash {
      assert Classify("sh") == Bash;
    } else if l == C {
      assert Classify("c") == C;
    } else if l == CPP {
      assert Classify("cpp") == CPP;
    } else if l == CSharp {
      assert Classify("cs") == CSharp;
    } else {
      assert Classify("css") == CSS;
    }
  }

  lemma RowsClassify1(l: Language, e: string)
    requires e in Extensions(l) && (l == CSV || l == Go || l == HTML || l == Java || l == JavaScript || l == JSON)
    ensures Classify(e) == l
  {
    if l == CSV {
      assert Classify("csv") == CSV;
    } else if l == Go {
      assert Classify("go") == Go;
    } else if l == HTML {
      assert Classify("html") == HTML;
      assert Classify("htm") == HTML;
    } else if l == Java {
      assert Classify("java") == Java;
    } else if l == JavaScript {
      assert Classify("js") == JavaScript;
      assert Classify("mjs") == JavaScript;
      assert Classify("cjs") == JavaScript;
    } else {
      assert Classify("json") == JSON;
      assert Classify("jsonc") == JSON;
    }
  }

  lemma RowsClassify2(l: Language, e: string)
    requires e in Extensions(l) && (l == Kotlin || l == Lua || l == Makefile || l == Markdown || l == Perl || l == PHP)
    ensures Classify(e) == l
  {
    if l == Kotlin {
      assert Classify("kt") == Kotlin;
      assert Classify("kts") == Kotlin;
    } else if l == Lua {
      assert Classify("lua") == Lua;
    } else if l == Makefile {
      assert Classify("mk") == Makefile;
      assert Classify("makefile") == Makefile;
    } else if l == Markdown {
      assert Classify("md") == Markdown;
      assert Classify("markdown") == Markdown;
    } else if l == Perl {
      assert Classify("pl") == Perl;
      assert Classify("pm") == Perl;
    } else {
      assert Classify("php") == PHP;
    }
  }

  lemma RowsClassify3(l: Language, e: string)
    requires e in Extensions(l) && (l == PowerShell || l == Python || l == React || l == Ruby || l == Rust || l == Svelte)
    ensures Classify(e) == l
  {
    if l == PowerShell {
      assert Classify("ps1") == PowerShell;
      assert Classify("psm1") == PowerShell;
      assert Classify("psd1") == PowerShell;
    } else if l == Python {
      assert Classify("py") == Python;
    } else if l == React {
      assert Classify("jsx") == React;
      assert Classify("tsx") == React;
    } else if l == Ruby {
      assert Classify("rb") == Ruby;
    } else if l == Rust {
      assert Classify("rs") == Rust;
    } else {
      assert Classify("svelte") == Svelte;
    }
  }

  lemma RowsClassify4(l: Language, e: string)
    requires e in Extensions(l) && (l == SVG || l == Swift || l == Text || l == TOML || l == TSV || l == TypeScript)
    ensures Classify(e) == l
  {
    if l == SVG {
      assert Classify("svg") == SVG;
    } else if l == Swift {
      assert Classify("swift") == Swift;
    } else if l == Text {
      assert Classify("txt") == Text;
      assert Classify("text") == Text;
    } else if l == TOML {
      assert Classify("toml") == TOML;
    } else if l == TSV {
      assert Classify("tsv") == TSV;
    } else {
      assert Classify("ts") == TypeScript;
    }
  }

  lemma RowsClassify5(l: Language, e: string)
    requires e in Extensions(l) && (!l.Unknown? && l != Astro && l != Bash && l != C && l != CPP && l != CSharp && l != CSS && l != CSV && l != Go && l != HTML && l != Java && l != JavaScript && l != JSON && l != Kotlin && l != Lua && l != Makefile && l != Markdown && l != Perl && l != PHP && l != PowerShell && l != Python && l != React && l != Ruby && l != Rust && l != Svelte && l != SVG && l != Swift && l != Text && l != TOML && l != TSV && l != TypeScript)
    ensures Classify(e) == l
  {
    if l == XML {
      assert Classify("xml") == XML;
    } else {
      assert Classify("yaml") == YAML;
      assert Classify("yml") == YAML;
    }
  }

  /** A listed variant is only ever reached from an extension in its own row. */
  lemma ClassifyIsListed(e: string)
    ensures !FromExtension(e).Unknown? ==> ToLower(e) in Extensions(FromExtension(e))
  {
    assert FromExtension(e) == Classify(ToLower(e));
    match ToLower(e)
    case "astro" => assert Classify(ToLower(e)) == Astro;
    case "sh" => assert Classify(ToLower(e)) == Bash;
    case "c" => assert Classify(ToLower(e)) == C;
    case "cpp" => assert Classify(ToLower(e)) == CPP;
    case "cs" => assert Classify(ToLower(e)) == CSharp;
    case "css" => assert Classify(ToLower(e)) == CSS;
    case "csv" => assert Classify(ToLower(e)) == CSV;
    case "go" => assert Classify(ToLower(e)) == Go;
    case "html" | "htm" => assert Classify(ToLower(e)) == HTML;
    case "java" => assert Classify(ToLower(e)) == Java;
    case "js" | "mjs" | "cjs" => assert Classify(ToLower(e)) == JavaScript;
    case "json" | "jsonc" => assert Classify(ToLower(e)) == JSON;
    case "kt" | "kts" => assert Classify(ToLower(e)) == Kotlin;
    case "lua" => assert Classify(ToLower(e)) == Lua;
    case "mk" | "makefile" => assert Classify(ToLower(e)) == Makefile;
    case "md" | "markdown" => assert Classify(ToLower(e)) == Markdown;
    case "pl" | "pm" => assert Classify(ToLower(e)) == Perl;
    case "php" => assert Classify(ToLower(e)) == PHP;
    case "ps1" | "psm1" | "psd1" => assert Classify(ToLower(e)) == PowerShell;
    case "py" => assert Classify(ToLower(e)) == Python;
    case "jsx" | "tsx" => assert Classify(ToLower(e)) == React;
    case "rb" => assert Classify(ToLower(e)) == Ruby;
    case "rs" => assert Classify(ToLower(e)) == Rust;
    case "svelte" => assert Classify(ToLower(e)) == Svelte;
    case "svg" => assert Classify(ToLower(e)) == SVG;
    case "swift" => assert Classify(ToLower(e)) == Swift;
    case "txt" | "text" => assert Classify(ToLower(e)) == Text;
    case "toml" => assert Classify(ToLower(e)) == TOML;
    case "tsv" => assert Classify(ToLower(e)) == TSV;
    case "ts" => assert Classify(ToLower(e)) == TypeScript;
    case "xml" => assert Classify(ToLower(e)) == XML;
    case "yaml" | "yml" => assert Classify(ToLower(e)) == YAML;
    case _ =>
  }

  /** An extension is `Unknown` exactly when no row lists its lower-case form, and then
      it carries that lower-case form. */
  lemma UnknownIffUnlisted(e: string)
    ensures FromExtension(e).Unknown? <==> forall l: Language :: ToLower(e) !in Extensions(l)
    ensures FromExtension(e).Unknown? ==> FromExtension(e) == Unknown(ToLower(e))
  {
    ClassifyIsListed(e);
    CaseInsensitive(e);
    forall l: Language | ToLower(e) in Extensions(l)
      ensures !FromExtension(e).Unknown?
    {
      ExtensionsClassify(l, ToLower(e));
    }
  }

  /** Letter case does not matter: an extension and its lower-case form classify alike. */
  lemma CaseInsensitive(e: string)
    ensures FromExtension(e) == FromExtension(ToLower(e))
  {
    ToLowerIdempotent(e);
  }

  /** The source's examples: "rs", "cpp", "py", "html"/"htm", "js"/"mjs"/"cjs", and
      upper-case spellings. */
  lemma FromExtensionExamples()
    ensures FromExtension("rs") == Rust && FromExtension("cpp") == CPP && FromExtension("py") == Python
    ensures FromExtension("html") == HTML && FromExtension("htm") == HTML
    ensures FromExtension("js") == JavaScript && FromExtension("mjs") == JavaScript && FromExtension("cjs") == JavaScript
    ensures FromExtension("RS") == Rust && FromExtension("Html") == HTML
  {
    ExtensionsClassify(Rust, "rs");
    ExtensionsClassify(CPP, "cpp");
    ExtensionsClassify(Python, "py");
    ExtensionsClassify(HTML, "html");
    ExtensionsClassify(HTML, "htm");
    ExtensionsClassify(JavaScript, "js");
    ExtensionsClassify(JavaScript, "mjs");
    ExtensionsClassify(JavaScript, "cjs");
    CaseInsensitive("RS");
    CaseInsensitive("Html");
    assert ToLower("RS") == "rs";
    assert ToLower("Html") == "html";
  }

  /** The source's unknown-extension example. */
  lemma UnknownExtensionExample()
    ensures FromExtension("unknown_ext") == Unknown("unknown_ext")
  {
    assert ToLower("unknown_ext") == "unknown_ext";
    UnknownIffUnlisted("unknown_ext");
  }

  /** A directory prefix: empty, or ending in a separator. */
  predicate IsDir(dir: string) {
    dir == [] || dir[|dir| - 1] == '/'
  }

  /** Nothing is trimmed from a path that ends in such a name. */
  lemma TrimEndAfterDir(dir: string, name: string)
    requires IsDir(dir) && name != [] && name != "." && '/' !in name
    ensures TrimEnd(dir + name) == dir + name
  {
    var path := dir + name;
    assert path[|path| - 1] == name[|name| - 1];
    if |name| >= 2 {
      assert path[|path| - 2] == name[|name| - 2];
      assert name[|name| - 2] in name;
    }
  }

  /** A name with no '/' that does not end in '/' or "/." is the file name of any path
      it ends after a directory prefix. */
  lemma FileNameAfterDir(dir: string, name: string)
    requires IsDir(dir) && name != [] && name != "." && '/' !in name
    ensures FileName(dir + name) == name
  {
    var path := dir + name;
    TrimEndAfterDir(dir, name);
    if dir == [] {
      assert LastIndexOf(name, '/') == |name|;
    } else {
      var d := dir[..|dir| - 1];
      assert path == d + ['/'] + name;
      LastIndexOfAppend(d, '/', name);
      assert path[|d| + 1..] == name;
    }
  }

  /** A file name "stem.ext" with a non-empty stem, bare or after a directory prefix,
      has extension `ext`. */
  lemma ExtensionOfFileName(dir: string, stem: string, ext: string)
    requires IsDir(dir)
    requires stem != [] && stem != "." && '/' !in stem && '/' !in ext && '.' !in ext
    ensures Extension(dir + stem + "." + ext) == Some(ext)
  {
    var name := stem + ['.'] + ext;
    assert dir + stem + "." + ext == dir + name;
    assert '/' !in name;
    assert name != "." && name != ".." by {
      if |name| == 2 {
        assert |stem| == 1 && name[0] == stem[0];
      }
    }
    FileNameAfterDir(dir, name);
    LastIndexOfAppend(stem, '.', ext);
    assert name[|stem| + 1..] == ext;
  }

  /** A file name with no '.', bare or after a directory prefix, has no extension. */
  lemma NoDotNoExtension(dir: string, name: string)
    requires IsDir(dir) && name != [] && '/' !in name && '.' !in name
    ensures Extension(dir + name) == None
  {
    assert name != "." by {
      assert name[0] in name;
    }
    FileNameAfterDir(dir, name);
  }

  /** Trailing separators and "." components do not change the extension. */
  lemma {:induction false} TrailingComponentsIgnored(path: string)
    ensures Extension(path + "/") == Extension(path)
    ensures Extension(path + "/.") == Extension(path)
  {
    assert FileName(path + "/") == FileName(path) by {
      var p := path + "/";
      assert p[..|p| - 1] == path;
      assert TrimEnd(p) == TrimEnd(path);
    }
    assert FileName(path + "/.") == FileName(path) by {
      var p := path + "/.";
      assert EndsInDot(p) && p[..|p| - 2] == path;
      assert TrimEnd(p) == TrimEnd(path);
    }
  }

  /** A file name "stem.ext", bare or after a directory prefix, classifies by `ext`: the
      source's examples "main.rs", "script.py" and "index.html". */
  lemma FromPathOfFileName(dir: string, stem: string, ext: string)
    requires IsDir(dir)
    requires stem != [] && stem != "." && '/' !in stem && '/' !in ext && '.' !in ext
    ensures FromPath(dir + stem + "." + ext) == FromExtension(ext)
  {
    ExtensionOfFileName(dir, stem, ext);
  }

  /** A path whose file name has no '.' is plain text (the source's "/no_extension"). */
  lemma NoExtensionIsText(dir: string, name: string)
    requires IsDir(dir) && name != [] && '/' !in name && '.' !in name
    ensures FromPath(dir + name) == Text
  {
    NoDotNoExtension(dir, name);
  }

  /** Colours: a listed variant gets its row's triple, `Unknown` the grey (127,127,127). */
  lemma ColorExamples(x: string)
    ensures Color(Unknown(x)) == Rgb(127, 127, 127)
    ensures Color(Rust) == Rgb(255, 165, 0) && Color(Text) == Rgb(255, 255, 255)
    ensures forall l: Language | !l.Unknown? :: Color(l) != Rgb(127, 127, 127)
  {
    forall l: Language | !l.Unknown?
      ensures Color(l) != Rgb(127, 127, 127)
    {
      match l
      case Astro =>
      case Bash =>
      case C =>
      case CPP =>
      case CSharp =>
      case CSS =>
      case CSV =>
      case Go =>
      case HTML =>
      case Java =>
      case JavaScript =>
      case JSON =>
      case Kotlin =>
      case Lua =>
      case Makefile =>
      case Markdown =>
      case Perl =>
      case PHP =>
      case PowerShell =>
      case Python =>
      case React =>
      case Ruby =>
      case Rust =>
      case Svelte =>
      case SVG =>
      case Swift =>
      case Text =>
      case TOML =>
      case TSV =>
      case TypeScript =>
      case XML =>
      case YAML =>
    }
  }

  /** Display names: overrides for C++ and C#, the identifier otherwise, "." + ext for
      unknown extensions. */
  lemma NameExamples(x: string)
    ensures Name(CPP) == "C++" && Name(CSharp) == "C#" && Name(Rust) == "Rust"
    ensures Name(Unknown(x)) == "." + x
    ensures forall l: Language | !l.Unknown? :: Name(l) != [] && Name(l)[0] != '.'
  {
    forall l: Language | !l.Unknown?
      ensures Name(l) != [] && Name(l)[0] != '.'
    {
      match l
      case Astro =>
      case Bash =>
      case C =>
      case CPP =>
      case CSharp =>
      case CSS =>
      case CSV =>
      case Go =>
      case HTML =>
      case Java =>
      case JavaScript =>
      case JSON =>
      case Kotlin =>
      case Lua =>
      case Makefile =>
      case Markdown =>
      case Perl =>
      case PHP =>
      case PowerShell =>
      case Python =>
      case React =>
      case Ruby =>
      case Rust =>
      case Svelte =>
      case SVG =>
      case Swift =>
      case Text =>
      case TOML =>
      case TSV =>
      case TypeScript =>
      case XML =>
      case YAML =>
    }
  }
}
