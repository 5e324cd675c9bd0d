/**
 * The editor pane's language choice (src/components/EditorArea.tsx): the
 * text after the last `.` of the file name, lower-cased, looked up in a
 * fixed table, with `plaintext` for everything else.
 */
module EditorArea {
  import opened Text
  import Layout

  const Languages: set<string> := {"javascript", "typescript", "html", "css", "json", "markdown", "python", "plaintext"}

  /** `fileName.split('.').pop()`: the text after the last `.`, or the whole name when it has none. */
  function LastSegment(s: string): (r: string)
    ensures '.' !in r
    ensures EndsWith(s, r)
    ensures |r| == |s| || s[|s| - |r| - 1] == '.'
  {
    if s == [] then []
    else if s[|s| - 1] == '.' then []
    else
      var r := LastSegment(s[..|s| - 1]) + [s[|s| - 1]];
      assert s[..|s| - 1] + [s[|s| - 1]] == s;
      r
  }

  /** The `switch` on the lower-cased extension. */
  function LanguageOf(ext: string): (language: string) {
    match ext
    case "js" => "javascript"
    case "jsx" => "javascript"
    case "ts" => "typescript"
    case "tsx" => "typescript"
    case "html" => "html"
    case "css" => "css"
    case "json" => "json"
    case "md" => "markdown"
    case "py" => "python"
    case _ => "plaintext"
  }

  /** `getLanguageFromFileName(fileName)`: total over all strings. */
  function GetLanguageFromFileName(fileName: string): (lang: string)
    ensures lang in Languages
  {
    LanguageOf(Lower(LastSegment(fileName)))
  }

  /** Only the text after the last `.` counts. */
  lemma {:induction false} LastSegmentAfterDot(stem: string, ext: string)
    requires '.' !in ext
    ensures LastSegment(stem + "." + ext) == ext
  {
    if ext == [] {
      assert (stem + "." + ext)[|stem + "." + ext| - 1] == '.';
    } else {
      var s := stem + "." + ext;
      assert s[..|s| - 1] == stem + "." + ext[..|ext| - 1];
      LastSegmentAfterDot(stem, ext[..|ext| - 1]);
      assert ext[..|ext| - 1] + [ext[|ext| - 1]] == ext;
    }
  }

  /** A name without a `.` is its own extension. */
  lemma {:induction false} LastSegmentNoDot(name: string)
    requires '.' !in name
    ensures LastSegment(name) == name
  {
    if name != [] {
      assert '.' !in name[..|name| - 1];
      LastSegmentNoDot(name[..|name| - 1]);
      assert name[..|name| - 1] + [name[|name| - 1]] == name;
    }
  }

  /** Lower-casing does not move dots, so it commutes with taking the extension. */
  lemma {:induction false} LastSegmentOfLower(s: string)
    ensures LastSegment(Lower(s)) == Lower(LastSegment(s))
  {
    if s != [] {
      var p, c := s[..|s| - 1], s[|s| - 1];
      var ls := Lower(s);
      assert ls != [] && ls[|ls| - 1] == LowerChar(c);
      assert ls[..|ls| - 1] == Lower(p);
      if c == '.' {
        assert LastSegment(ls) == [];
        assert LastSegment(s) == [];
      } else {
        calc {
          LastSegment(ls);
          LastSegment(Lower(p)) + [LowerChar(c)];
          { LastSegmentOfLower(p); }
          Lower(LastSegment(p)) + [LowerChar(c)];
          { LowerAppendChar(LastSegment(p), c); }
          Lower(LastSegment(p) + [c]);
        }
      }
    }
  }

  lemma LowerAppendChar(x: string, c: char)
    ensures Lower(x + [c]) == Lower(x) + [LowerChar(c)]
  {
  }

  /** Names that lower-case alike get the same language. */
  lemma CaseInsensitive(a: string, b: string)
    requires Lower(a) == Lower(b)
    ensures GetLanguageFromFileName(a) == GetLanguageFromFileName(b)
  {
    LastSegmentOfLower(a);
    LastSegmentOfLower(b);
    LowerIdempotent(LastSegment(a));
    LowerIdempotent(LastSegment(b));
  }

  /**
   * The table read backwards: which lower-cased extensions give each
   * language; every extension outside the table gives `plaintext`.
   */
  lemma ExtensionsByLanguage(fileName: string)
    ensures var ext := Lower(LastSegment(fileName)); var lang := GetLanguageFromFileName(fileName);
      && (lang == "javascript" <==> ext == "js" || ext == "jsx")
      && (lang == "typescript" <==> ext == "ts" || ext == "tsx")
      && (lang == "html" <==> ext == "html")
      && (lang == "css" <==> ext == "css")
      && (lang == "json" <==> ext == "json")
      && (lang == "markdown" <==> ext == "md")
      && (lang == "python" <==> ext == "py")
      && (lang == "plaintext" <==> ext !in {"js", "jsx", "ts", "tsx", "html", "css", "json", "md", "py"})
  {
    LanguageOfInverse(Lower(LastSegment(fileName)));
  }

  lemma LanguageOfInverse(ext: string)
    ensures var lang := LanguageOf(ext);
      && (lang == "javascript" <==> ext == "js" || ext == "jsx")
      && (lang == "typescript" <==> ext == "ts" || ext == "tsx")
      && (lang == "html" <==> ext == "html")
      && (lang == "css" <==> ext == "css")
      && (lang == "json" <==> ext == "json")
      && (lang == "markdown" <==> ext == "md")
      && (lang == "python" <==> ext == "py")
      && (lang == "plaintext" <==> ext !in {"js", "jsx", "ts", "tsx", "html", "css", "json", "md", "py"})
  {
    match ext
    case "js" =>
    case "jsx" =>
    case "ts" =>
    case "tsx" =>
    case "html" =>
    case "css" =>
    case "json" =>
    case "md" =>
    case "py" =>
    case _ =>
  }

  /** A lower-case extension after the last dot is looked up as it is. */
  lemma LanguageOfExtension(stem: string, ext: string)
    requires '.' !in ext && forall i :: 0 <= i < |ext| ==> 'a' <= ext[i] <= 'z'
    ensures GetLanguageFromFileName(stem + "." + ext) == LanguageOf(ext)
  {
    LastSegmentAfterDot(stem, ext);
    assert Lower(ext) == ext;
  }

  /** Upper-case extensions map like lower-case ones, e.g. `App.TSX` is TypeScript. */
  lemma UpperCaseExtension(stem: string)
    ensures GetLanguageFromFileName(stem + ".TSX") == "typescript"
  {
    LastSegmentAfterDot(stem, "TSX");
    assert stem + ".TSX" == stem + "." + "TSX";
    var upper, lower := "TSX", "tsx";
    assert forall i :: 0 <= i < 3 ==> LowerChar(upper[i]) == lower[i];
    assert Lower(upper) == lower;
  }

  /** Any extension outside the table is `plaintext`; so is a name ending in a dot. */
  lemma UnknownIsPlaintext(stem: string, ext: string)
    requires '.' !in ext
    requires Lower(ext) !in {"js", "jsx", "ts", "tsx", "html", "css", "json", "md", "py"}
    ensures GetLanguageFromFileName(stem + "." + ext) == "plaintext"
  {
    LastSegmentAfterDot(stem, ext);
  }

  /** A name without a dot is looked up as a whole. */
  lemma WholeNameAsExtension(name: string)
    requires '.' !in name
    ensures GetLanguageFromFileName(name) == LanguageOf(Lower(name))
  {
    LastSegmentNoDot(name);
  }

  /** A `.tsx` file is TypeScript, whatever its stem. */
  lemma TsxIsTypescript(stem: string)
    ensures GetLanguageFromFileName(stem + ".tsx") == "typescript"
  {
    var ext := "tsx";
    var suffix := "." + ext;
    assert suffix[0] == '.' && suffix[1..] == ext;
    assert suffix == ".tsx";
    assert stem + "." + ext == stem + suffix;
    assert forall i :: 0 <= i < |ext| ==> 'a' <= ext[i] <= 'z';
    LanguageOfExtension(stem, ext);
    LanguageOfInverse(ext);
  }

  /**
   * The two language choices of the front end disagree: the editor shell
   * (src/VSCodeLayout.jsx:101) shows `.tsx` files as `html`, this pane as
   * `typescript`.
   */
  lemma ShellAndPaneDisagreeOnTsx(stem: string)
    ensures Layout.EditorLanguage(stem + ".tsx") == "html"
    ensures GetLanguageFromFileName(stem + ".tsx") == "typescript"
  {
    Layout.EditorLanguageSuffixes(stem);
    TsxIsTypescript(stem);
  }
}
