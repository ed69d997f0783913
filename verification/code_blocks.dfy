/** The code-block highlighter of the demo site's Markdown pipeline
    (apps/demo/svelte.config.js): highlighted HTML is embedded in a Svelte
    template literal, so backslashes, backticks and dollar signs are escaped;
    blocks whose meta string mentions `preview` become a component preview
    with an optional title. */
module CodeBlocks {
  import opened Wrappers
  import opened Strings

  // ---------------------------------------------------------------------------
  // Escaping

  /** The characters a template literal treats specially. */
  predicate Special(c: char) {
    c == '\\' || c == '`' || c == '$'
  }

  /** `escapeTemplateLiteral`: backslashes doubled first, then backticks and
      dollar signs escaped, each in one pass over the whole string. */
  function EscapeTemplateLiteral(s: string): string {
    ReplaceAll(ReplaceAll(ReplaceAll(s, '\\', "\\\\"), '`', "\\`"), '$', "\\$")
  }

  /** The escape of one character: a backslash in front of a special one. */
  function EscapeChar(c: char): (e: string)
    ensures |e| == if Special(c) then 2 else 1
    ensures e[|e| - 1] == c
  {
    if Special(c) then ['\\', c] else [c]
  }

  /** Escaping as a single left-to-right pass over the characters. */
  function EscapeEach(s: string): string {
    if s == [] then [] else EscapeChar(s[0]) + EscapeEach(s[1..])
  }

  /** The number of special characters in s. */
  function SpecialCount(s: string): nat {
    if s == [] then 0 else (if Special(s[0]) then 1 else 0) + SpecialCount(s[1..])
  }

  /** The three passes escape one character as `EscapeChar` does. */
  lemma EscapeOneChar(c: char)
    ensures EscapeTemplateLiteral([c]) == EscapeChar(c)
  {
    var r1 := ReplaceAll([c], '\\', "\\\\");
    if c == '\\' {
      assert r1 == "\\\\";
      assert ReplaceAll(r1, '`', "\\`") == "\\\\";
      assert ReplaceAll("\\\\", '$', "\\$") == "\\\\";
    } else if c == '`' {
      assert r1 == "`";
      assert ReplaceAll(r1, '`', "\\`") == "\\`";
      assert ReplaceAll("\\`", '$', "\\$") == "\\`";
    } else if c == '$' {
      assert r1 == "$";
      assert ReplaceAll(r1, '`', "\\`") == "$";
      assert ReplaceAll("$", '$', "\\$") == "\\$";
    } else {
      assert r1 == [c];
      assert ReplaceAll(r1, '`', "\\`") == [c];
    }
  }

  /** The three global passes equal the single per-character pass: because
      backslashes are doubled before any backslash is inserted, no inserted
      backslash is escaped again. */
  lemma {:induction false} EscapeIsPerCharacter(s: string)
    ensures EscapeTemplateLiteral(s) == EscapeEach(s)
  {
    if s != [] {
      var c, rest := s[0], s[1..];
      assert s == [c] + rest;
      ReplaceAllAppend([c], rest, '\\', "\\\\");
      var a1, b1 := ReplaceAll([c], '\\', "\\\\"), ReplaceAll(rest, '\\', "\\\\");
      ReplaceAllAppend(a1, b1, '`', "\\`");
      var a2, b2 := ReplaceAll(a1, '`', "\\`"), ReplaceAll(b1, '`', "\\`");
      ReplaceAllAppend(a2, b2, '$', "\\$");
      EscapeOneChar(c);
      EscapeIsPerCharacter(rest);
    }
  }

  /** The escape adds exactly one character per special character. */
  lemma {:induction false} EscapeLength(s: string)
    ensures |EscapeTemplateLiteral(s)| == |s| + SpecialCount(s)
  {
    EscapeIsPerCharacter(s);
    EscapeEachLength(s);
  }

  lemma {:induction false} EscapeEachLength(s: string)
    ensures |EscapeEach(s)| == |s| + SpecialCount(s)
  {
    if s != [] {
      EscapeEachLength(s[1..]);
    }
  }

  /** Reading a template literal back: `\x` stands for x, a trailing lone
      backslash for itself. */
  function Unescape(t: string): (s: string)
    ensures |s| <= |t|
  {
    if t == [] then []
    else if t[0] == '\\' && |t| >= 2 then [t[1]] + Unescape(t[2..])
    else [t[0]] + Unescape(t[1..])
  }

  /** Un-escaping the escaped string gives back the input. */
  lemma {:induction false} UnescapeEscape(s: string)
    ensures Unescape(EscapeTemplateLiteral(s)) == s
  {
    EscapeIsPerCharacter(s);
    UnescapeEscapeEach(s);
  }

  lemma {:induction false} UnescapeEscapeEach(s: string)
    ensures Unescape(EscapeEach(s)) == s
  {
    if s != [] {
      var c, rest := s[0], s[1..];
      var t := EscapeEach(s);
      assert t == EscapeChar(c) + EscapeEach(rest);
      UnescapeEscapeEach(rest);
      if Special(c) {
        assert t[0] == '\\' && t[1] == c && t[2..] == EscapeEach(rest);
      } else {
        assert t[0] == c && t[1..] == EscapeEach(rest);
      }
      assert s == [c] + rest;
    }
  }

  /** Different inputs escape differently. */
  lemma EscapeInjective(s1: string, s2: string)
    requires EscapeTemplateLiteral(s1) == EscapeTemplateLiteral(s2)
    ensures s1 == s2
  {
    UnescapeEscape(s1);
    UnescapeEscape(s2);
  }

  /** In the escaped text every backtick and dollar sign is preceded by a
      backslash, so none can end the literal or start an interpolation. */
  lemma {:induction false} EscapedSpecialsArePreceded(s: string)
    ensures var t := EscapeEach(s);
      forall i :: 0 <= i < |t| && (t[i] == '`' || t[i] == '$') ==> i > 0 && t[i - 1] == '\\'
  {
    if s != [] {
      EscapedSpecialsArePreceded(s[1..]);
      var t := EscapeEach(s);
      var e := EscapeChar(s[0]);
      assert t == e + EscapeEach(s[1..]);
      forall i | 0 <= i < |t| && (t[i] == '`' || t[i] == '$') ensures i > 0 && t[i - 1] == '\\' {
        if i >= |e| {
          assert t[i] == EscapeEach(s[1..])[i - |e|];
          if i - |e| == 0 {
            assert false;
          }
          assert t[i - 1] == EscapeEach(s[1..])[i - |e| - 1];
        }
      }
    }
  }

  // ---------------------------------------------------------------------------
  // Titles

  const TitleOpen: string := "title=\""

  /** The position of the first double quote in s, if any. */
  function FirstQuote(s: string): (r: Option<nat>)
    ensures r.Some? ==> r.value < |s| && s[r.value] == '"' && '"' !in s[..r.value]
    ensures r.None? ==> '"' !in s
  {
    if s == [] then None
    else if s[0] == '"' then Some(0)
    else match FirstQuote(s[1..])
      case None => None
      case Some(j) =>
        assert s[..j + 1] == [s[0]] + s[1..][..j];
        Some(j + 1)
  }

  /** What `title="([^"]+)"` captures when matched at position i: the
      non-empty, quote-free text between `title="` and the next quote. */
  function TitleAt(meta: string, i: nat): (r: Option<string>)
    ensures r.Some? ==> r.value != [] && '"' !in r.value && OccursAt(meta, TitleOpen + r.value + "\"", i)
  {
    if OccursAt(meta, TitleOpen, i) then
      var rest := meta[i + |TitleOpen|..];
      match FirstQuote(rest)
      case Some(j) =>
        if j >= 1 then
          assert meta[i..i + |TitleOpen| + j + 1] == TitleOpen + rest[..j] + "\"";
          Some(rest[..j])
        else None
      case None => None
    else None
  }

  /** `meta.match(/title="([^"]+)"/)`: the capture at the leftmost position
      where the pattern matches, searching from position i. */
  function FindTitleFrom(meta: string, i: nat): (r: Option<string>)
    ensures r.Some? ==> exists k :: i <= k <= |meta| && TitleAt(meta, k) == r
    ensures r.None? ==> forall k :: i <= k <= |meta| ==> TitleAt(meta, k).None?
    decreases |meta| - i
  {
    if i > |meta| then None
    else if TitleAt(meta, i).Some? then TitleAt(meta, i)
    else FindTitleFrom(meta, i + 1)
  }

  function FindTitle(meta: string): Option<string> {
    FindTitleFrom(meta, 0)
  }

  /** The ` title="…"` attribute of the preview, or nothing. */
  function TitleProp(meta: string): (p: string)
    ensures p == [] <==> forall k :: 0 <= k <= |meta| ==> TitleAt(meta, k).None?
  {
    match FindTitle(meta)
    case Some(t) => " title=\"" + t + "\""
    case None => []
  }

  /** A title is found exactly when the meta string holds `title="X"` with X
      non-empty and free of quotes. */
  lemma TitleFoundIff(meta: string)
    ensures FindTitle(meta).Some? <==>
      exists k, x :: 0 <= k <= |meta| && x != [] && '"' !in x && OccursAt(meta, TitleOpen + x + "\"", k)
  {
    if exists k, x :: 0 <= k <= |meta| && x != [] && '"' !in x && OccursAt(meta, TitleOpen + x + "\"", k) {
      var k, x :| 0 <= k <= |meta| && x != [] && '"' !in x && OccursAt(meta, TitleOpen + x + "\"", k);
      TitleFromMatch(meta, k, x);
    }
  }

  /** Where `title="X"` occurs, the pattern matches at that position and
      captures X. */
  lemma TitleFromMatch(meta: string, k: nat, x: string)
    requires x != [] && '"' !in x && OccursAt(meta, TitleOpen + x + "\"", k)
    ensures TitleAt(meta, k) == Some(x)
  {
    var whole := TitleOpen + x + "\"";
    assert meta[k..k + |whole|] == whole;
    assert meta[k..k + |TitleOpen|] == whole[..|TitleOpen|] == TitleOpen;
    var rest := meta[k + |TitleOpen|..];
    assert whole[|TitleOpen|..] == x + "\"";
    assert meta[k + |TitleOpen|..k + |whole|] == whole[|TitleOpen|..];
    assert rest[..|x| + 1] == meta[k + |TitleOpen|..k + |whole|];
    assert rest[|x|] == '"';
    assert rest[..|x|] == x;
  }

  // ---------------------------------------------------------------------------
  // The highlighter callback

  /** The fixed pieces of a preview element. */
  const PreviewOpen: string := "<ComponentPreview"
  const CodeProp: string := " code={`"
  const LangProp: string := "`} lang=\""
  const PreviewClose: string := "\n</ComponentPreview>"

  /** The `<ComponentPreview>` element of a preview block, given the
      language, the title prop and the escaped highlighted HTML. */
  function PreviewElement(code: string, language: string, title: string, escapedHtml: string): (r: string)
    ensures |r| >= |PreviewOpen| && r[..|PreviewOpen|] == PreviewOpen
  {
    var rest := CodeProp + EscapeTemplateLiteral(code) + LangProp + language + "\""
      + title + " highlightedHtml={`" + escapedHtml + "`}>\n" + code + PreviewClose;
    PreviewOpen + rest
  }

  /** The highlighter callback for one code block. The shiki highlighter is
      the parameter `codeToHtml`, applied to the code and the language. */
  function Highlight(code: string, lang: Option<string>, meta: Option<string>,
                     codeToHtml: (string, string) -> string): (r: string)
    ensures var language := if lang.Some? && lang.value != [] then lang.value else "text";
      !(meta.Some? && Contains(meta.value, "preview")) ==>
        r == "{@html `" + EscapeTemplateLiteral(codeToHtml(code, language)) + "`}"
    ensures meta.Some? && Contains(meta.value, "preview") ==>
      |r| >= |PreviewOpen| && r[..|PreviewOpen|] == PreviewOpen
  {
    var language := if lang.Some? && lang.value != [] then lang.value else "text";
    var html := codeToHtml(code, language);
    var escapedHtml := EscapeTemplateLiteral(html);
    if meta.Some? && Contains(meta.value, "preview") then
      PreviewElement(code, language, TitleProp(meta.value), escapedHtml)
    else
      "{@html `" + escapedHtml + "`}"
  }

  /** A plain block embeds the highlighted HTML so that reading the template
      literal back yields exactly that HTML. */
  lemma PlainBlockRoundTrip(code: string, lang: Option<string>, meta: Option<string>,
                            codeToHtml: (string, string) -> string)
    requires !(meta.Some? && Contains(meta.value, "preview"))
    ensures var r := Highlight(code, lang, meta, codeToHtml);
      var language := if lang.Some? && lang.value != [] then lang.value else "text";
      |r| >= 10 && Unescape(r[8..|r| - 2]) == codeToHtml(code, language)
  {
    var language := if lang.Some? && lang.value != [] then lang.value else "text";
    var html := codeToHtml(code, language);
    var r := Highlight(code, lang, meta, codeToHtml);
    assert r[8..|r| - 2] == EscapeTemplateLiteral(html);
    UnescapeEscape(html);
  }

  /** The preview form is chosen exactly when the meta string mentions
      `preview`. */
  lemma PreviewIff(code: string, lang: Option<string>, meta: Option<string>,
                   codeToHtml: (string, string) -> string)
    ensures var r := Highlight(code, lang, meta, codeToHtml);
      (|r| >= |PreviewOpen| && r[..|PreviewOpen|] == PreviewOpen) <==> meta.Some? && Contains(meta.value, "preview")
  {
    var r := Highlight(code, lang, meta, codeToHtml);
    if !(meta.Some? && Contains(meta.value, "preview")) {
      assert r[0] == '{';
      if |r| >= |PreviewOpen| {
        assert r[..|PreviewOpen|][0] == '{';
      }
    }
  }

  /** A preview element passes the code as a template-literal prop that
      reads back as the code, the language as its `lang` attribute, and the
      raw code again as the element's children. */
  lemma PreviewEmbedsCode(code: string, language: string, title: string, escapedHtml: string)
    ensures var r := PreviewElement(code, language, title, escapedHtml);
      var e := EscapeTemplateLiteral(code);
      var i := |PreviewOpen| + |CodeProp|;
      var j := i + |e| + |LangProp|;
      |r| >= j + |language| + |code| + |PreviewClose| &&
      r[|PreviewOpen|..i] == CodeProp && Unescape(r[i..i + |e|]) == code &&
      r[i + |e|..j] == LangProp && r[j..j + |language|] == language &&
      r[|r| - |code| - |PreviewClose|..] == code + PreviewClose
  {
    var r := PreviewElement(code, language, title, escapedHtml);
    PreviewParts(r, PreviewOpen, CodeProp, EscapeTemplateLiteral(code), LangProp, language, "\"", title,
      " highlightedHtml={`", escapedHtml, "`}>\n", code, PreviewClose);
    UnescapeEscape(code);
  }

  /** A preview block is the preview element built from the block's
      language, the title found in its meta string and its highlighted HTML. */
  lemma HighlightPreview(code: string, lang: Option<string>, meta: Option<string>,
                         codeToHtml: (string, string) -> string)
    requires meta.Some? && Contains(meta.value, "preview")
    ensures var language := if lang.Some? && lang.value != [] then lang.value else "text";
      Highlight(code, lang, meta, codeToHtml) ==
        PreviewElement(code, language, TitleProp(meta.value), EscapeTemplateLiteral(codeToHtml(code, language)))
  {
  }

  /** Where the parts of the preview element sit, for any values of the
      parts. */
  lemma PreviewParts(r: string, open: string, codeProp: string, e: string, langProp: string, language: string,
                     quote: string, title: string, htmlProp: string, html: string, htmlEnd: string,
                     code: string, close: string)
    requires r == open + (codeProp + e + langProp + language + quote + title + htmlProp + html + htmlEnd + code + close)
    ensures var i := |open| + |codeProp| + |e|;
      |r| >= i + |langProp| + |language| + |code| + |close| &&
      r[|open|..|open| + |codeProp|] == codeProp && r[|open| + |codeProp|..i] == e &&
      r[i..i + |langProp|] == langProp && r[i + |langProp|..i + |langProp| + |language|] == language &&
      r[|r| - |code| - |close|..] == code + close
  {
  }
}
