/** The second version of the embedding loader, which renders into a shadow
    root: configuration merging, keyword detection, the service URL, theme
    variables generated from the host page's computed styles, the main-view
    dispatch into an internal wrapper or an overlay, the `closest`-based
    detail clicks, and the truncation and origin-qualification passes run by
    its observers. */
module LoaderV2 {
  import opened Wrappers
  import opened Strings
  import opened Dom

  // ---------------------------------------------------------------------
  // Configuration
  // ---------------------------------------------------------------------

  /** `styleSelectors` as the caller passes it. */
  datatype SelectorOptions = SelectorOptions(body: Option<string>, button: Option<string>)

  /** `cssMap` as the caller passes it: the custom-property name for each role. */
  datatype CssMapOptions = CssMapOptions(fontFamily: Option<string>, color: Option<string>, buttonColor: Option<string>, buttonBg: Option<string>)

  /** The options object of `init`; `None` is an absent field, and an absent
      options object is the one with every field absent. */
  datatype UserOptions = UserOptions(
    mainMode: Option<string>,
    detailMode: Option<string>,
    target: Option<string>,
    serviceUrl: Option<string>,
    defaultKeyword: Option<string>,
    styleSelectors: Option<SelectorOptions>,
    cssMap: Option<CssMapOptions>)

  /** The merged `cssMap`: always these four keys. */
  datatype CssVars = CssVars(fontFamily: string, color: string, buttonColor: string, buttonBg: string)

  /** The merged configuration; `target` is `None` for `null`. */
  datatype Config = Config(
    mainMode: string,
    detailMode: string,
    target: Option<string>,
    serviceUrl: string,
    defaultKeyword: string,
    bodySelector: string,
    buttonSelector: string,
    cssMap: CssVars)

  const DefaultServiceUrl := "http://localhost:8080/search"
  const DefaultButtonSelector := "button, [type=\"button\"]"

  /** `userOptions.styleSelectors?.body || d` and its siblings: an absent
      object and an absent or empty field both give the default. */
  function SelectorOr(s: Option<SelectorOptions>, body: bool, default: string): (r: string)
    ensures s.None? ==> r == default
    ensures s.Some? ==> r == OrElse(if body then s.value.body else s.value.button, default)
  {
    match s
    case None => default
    case Some(so) => OrElse(if body then so.body else so.button, default)
  }

  function CssMapOr(m: Option<CssMapOptions>): (v: CssVars)
    ensures m.None? ==> v == CssVars("--mf-font-family", "--mf-text-color", "--mf-button-text", "--mf-button-bg")
    ensures m.Some? ==> v == CssVars(OrElse(m.value.fontFamily, "--mf-font-family"), OrElse(m.value.color, "--mf-text-color"),
                                     OrElse(m.value.buttonColor, "--mf-button-text"), OrElse(m.value.buttonBg, "--mf-button-bg"))
  {
    match m
    case None => CssVars("--mf-font-family", "--mf-text-color", "--mf-button-text", "--mf-button-bg")
    case Some(c) =>
      CssVars(OrElse(c.fontFamily, "--mf-font-family"), OrElse(c.color, "--mf-text-color"),
              OrElse(c.buttonColor, "--mf-button-text"), OrElse(c.buttonBg, "--mf-button-bg"))
  }

  /** `_mergeConfig`: every field is the caller's value when it is truthy and
      its default otherwise; a falsy target becomes `null`. */
  function MergeConfig(u: UserOptions): (c: Config)
    ensures c.mainMode == OrElse(u.mainMode, "inline")
    ensures c.detailMode == OrElse(u.detailMode, "modal")
    ensures Truthy(u.target) ==> c.target == u.target
    ensures !Truthy(u.target) ==> c.target == None
    ensures c.serviceUrl == OrElse(u.serviceUrl, DefaultServiceUrl)
    ensures c.defaultKeyword == OrElse(u.defaultKeyword, "")
    ensures c.bodySelector == SelectorOr(u.styleSelectors, true, "body")
    ensures c.buttonSelector == SelectorOr(u.styleSelectors, false, DefaultButtonSelector)
    ensures c.cssMap == CssMapOr(u.cssMap)
  {
    Config(
      OrElse(u.mainMode, "inline"),
      OrElse(u.detailMode, "modal"),
      if Truthy(u.target) then u.target else None,
      OrElse(u.serviceUrl, DefaultServiceUrl),
      OrElse(u.defaultKeyword, ""),
      SelectorOr(u.styleSelectors, true, "body"),
      SelectorOr(u.styleSelectors, false, DefaultButtonSelector),
      CssMapOr(u.cssMap))
  }

  /** A merged configuration passed back in as options. */
  function AsOptions(c: Config): UserOptions
  {
    UserOptions(Some(c.mainMode), Some(c.detailMode), c.target, Some(c.serviceUrl), Some(c.defaultKeyword),
                Some(SelectorOptions(Some(c.bodySelector), Some(c.buttonSelector))),
                Some(CssMapOptions(Some(c.cssMap.fontFamily), Some(c.cssMap.color), Some(c.cssMap.buttonColor), Some(c.cssMap.buttonBg))))
  }

  /** Merging is a closure: a merged configuration merges to itself, because
      every field it holds is either truthy or the default it would get. */
  lemma MergeConfigFixpoint(u: UserOptions)
    ensures MergeConfig(AsOptions(MergeConfig(u))) == MergeConfig(u)
  {
  }

  /** The `cssMap` entries in the order `Object.entries` lists them. */
  function CssEntries(v: CssVars): (es: seq<(string, string)>)
    ensures |es| == 4 && forall i :: 0 <= i < |es| ==> CssKey(es[i].0)
    ensures es[0] == ("fontFamily", v.fontFamily) && es[1] == ("color", v.color)
    ensures es[2] == ("buttonColor", v.buttonColor) && es[3] == ("buttonBg", v.buttonBg)
  {
    [("fontFamily", v.fontFamily), ("color", v.color), ("buttonColor", v.buttonColor), ("buttonBg", v.buttonBg)]
  }

  // ---------------------------------------------------------------------
  // Keyword and URLs
  // ---------------------------------------------------------------------

  /** `_detectKeyword`: `meta?.content?.trim() || defaultKeyword`. `meta` is
      the content of the `mf-keyword` meta tag, `None` when there is no tag
      (a tag without the attribute has the empty string as content). */
  function DetectKeyword(meta: Option<string>, defaultKeyword: string): (k: string)
    ensures meta.Some? && Trim(meta.value) != "" ==> k == Trim(meta.value)
    ensures meta.None? || Trim(meta.value) == "" ==> k == defaultKeyword
  {
    if meta.Some? && Trim(meta.value) != "" then Trim(meta.value) else defaultKeyword
  }

  /** A meta tag holding only whitespace falls through to the default. */
  lemma BlankMetaFallsThrough(meta: string, defaultKeyword: string)
    requires AllWhitespace(meta)
    ensures DetectKeyword(Some(meta), defaultKeyword) == defaultKeyword
  {
    TrimOfBlank(meta);
  }

  /** `_prepareServiceUrl`. */
  function PrepareServiceUrl(url: string, keyword: string, enc: string -> string): (r: string)
    ensures keyword == "" ==> r == url
    ensures keyword != "" ==> StartsWith(r, url) && |r| > |url| && r[|url|..] == Separator(url) + "keyword=" + enc(keyword)
  {
    WithKeyword(url, "keyword", keyword, enc)
  }

  /** The literal text `_addKeywordParam` appends after the separator: the
      interpolation is escaped, so the placeholder itself is emitted. */
  const KeywordPlaceholder := "${encodeURIComponent(this.keyword)}"

  /** `_addKeywordParam` as written. */
  function AddKeywordParamAsWritten(url: string, keyword: string): (r: string)
    ensures keyword == "" ==> r == url
    ensures keyword != "" ==> StartsWith(r, url) && r[|url|..] == Separator(url) + "keyword" + "=" + KeywordPlaceholder
  {
    if keyword == "" then url else WithParam(url, "keyword", KeywordPlaceholder)
  }

  /** As written, the detail URL does not depend on which non-empty keyword
      was detected. */
  lemma AddKeywordParamIgnoresKeyword(url: string, k1: string, k2: string)
    requires k1 != "" && k2 != ""
    ensures AddKeywordParamAsWritten(url, k1) == AddKeywordParamAsWritten(url, k2)
  {
  }

  /** `_addKeywordParam` as intended: the same rule as the service URL. */
  function AddKeywordParam(url: string, keyword: string, enc: string -> string): (r: string)
    ensures keyword == "" ==> r == url
    ensures keyword != "" ==> StartsWith(r, url) && r[|url|..] == Separator(url) + "keyword=" + enc(keyword)
  {
    WithKeyword(url, "keyword", keyword, enc)
  }

  /** The written and the intended detail URL differ for every keyword whose
      encoding is not the placeholder text itself. */
  lemma AddKeywordParamDiffers(url: string, keyword: string, enc: string -> string)
    requires keyword != "" && enc(keyword) != KeywordPlaceholder
    ensures AddKeywordParamAsWritten(url, keyword) != AddKeywordParam(url, keyword, enc)
  {
    var w := AddKeywordParamAsWritten(url, keyword);
    var c := AddKeywordParam(url, keyword, enc);
    var head := Separator(url) + "keyword" + "=";
    assert w[|url|..] == head + KeywordPlaceholder;
    assert c[|url|..] == head + enc(keyword);
    assert (head + KeywordPlaceholder)[|head|..] == KeywordPlaceholder;
    assert (head + enc(keyword))[|head|..] == enc(keyword);
  }

  // ---------------------------------------------------------------------
  // Theme variables
  // ---------------------------------------------------------------------

  /** The three computed properties captured from a host element. */
  datatype Captured = Captured(fontFamily: string, color: string, backgroundColor: string)

  /** The four `cssMap` keys: the only names the theme functions are given.
      Other names could read members every JavaScript object inherits. */
  predicate CssKey(prop: string)
  {
    prop == "fontFamily" || prop == "color" || prop == "buttonColor" || prop == "buttonBg"
  }

  /** `styles[role]?.[prop]`: a field of a captured record by its name. */
  function CapturedField(styles: map<string, Captured>, role: string, prop: string): (r: Option<string>)
    requires CssKey(prop)
    ensures role !in styles ==> r == None
    ensures role in styles && prop == "fontFamily" ==> r == Some(styles[role].fontFamily)
    ensures role in styles && prop == "color" ==> r == Some(styles[role].color)
    ensures prop != "fontFamily" && prop != "color" && prop != "backgroundColor" ==> r == None
  {
    if role !in styles then None
    else if prop == "fontFamily" then Some(styles[role].fontFamily)
    else if prop == "color" then Some(styles[role].color)
    else if prop == "backgroundColor" then Some(styles[role].backgroundColor)
    else None
  }

  /** `_extractParentStyles`: for each role whose selector finds an element,
      the three captured properties. `probe` stands for `querySelector`
      followed by `getComputedStyle`; its failure is a selector the browser
      rejects, which aborts the extraction. */
  function ExtractParentStyles(c: Config, probe: string -> Result<Option<Captured>, string>): (r: Result<map<string, Captured>, string>)
    ensures r.Failure? <==> probe(c.bodySelector).Failure? || probe(c.buttonSelector).Failure?
    ensures r.Success? ==> r.value.Keys <= {"body", "button"}
    ensures r.Success? ==> ("body" in r.value <==> probe(c.bodySelector).value.Some?)
    ensures r.Success? ==> ("button" in r.value <==> probe(c.buttonSelector).value.Some?)
    ensures r.Success? && "body" in r.value ==> r.value["body"] == probe(c.bodySelector).value.value
    ensures r.Success? && "button" in r.value ==> r.value["button"] == probe(c.buttonSelector).value.value
  {
    var b :- probe(c.bodySelector);
    var t :- probe(c.buttonSelector);
    var m1: map<string, Captured> := if b.Some? then map["body" := b.value] else map[];
    Success(if t.Some? then m1["button" := t.value] else m1)
  }

  /** The length of the deleted word "Color", "Bg" or "FontFamily" that
      `s` begins with, 0 when it begins with none. */
  function WordAt(s: string): (n: nat)
    ensures n <= |s|
  {
    if |s| == 0 then 0
    else if s[0] == 'C' && StartsWith(s, "Color") then 5
    else if s[0] == 'B' && StartsWith(s, "Bg") then 2
    else if s[0] == 'F' && StartsWith(s, "FontFamily") then 10
    else 0
  }

  /** `_normalizeProp`: every case-sensitive "Color", "Bg" or "FontFamily",
      found left to right, is deleted. */
  function NormalizeProp(prop: string): (r: string)
    ensures |r| <= |prop|
    decreases |prop|
  {
    if |prop| == 0 then ""
    else if WordAt(prop) > 0 then NormalizeProp(prop[WordAt(prop)..])
    else [prop[0]] + NormalizeProp(prop[1..])
  }

  /** None of the characters that can start a deleted word. */
  predicate NoWordStart(a: string)
  {
    forall i :: 0 <= i < |a| ==> a[i] != 'C' && a[i] != 'B' && a[i] != 'F'
  }

  /** A first character that starts no deleted word is kept. */
  lemma NormalizeKeepsFirst(s: string)
    requires |s| > 0 && s[0] != 'C' && s[0] != 'B' && s[0] != 'F'
    ensures NormalizeProp(s) == [s[0]] + NormalizeProp(s[1..])
  {
  }

  /** The tail of a string with no word start has none either. */
  lemma NoWordStartTail(a: string)
    requires |a| > 0 && NoWordStart(a)
    ensures NoWordStart(a[1..])
  {
    forall i | 0 <= i < |a| - 1
      ensures a[1..][i] != 'C' && a[1..][i] != 'B' && a[1..][i] != 'F'
    {
      assert a[1..][i] == a[i + 1];
    }
  }

  /** Splitting off the first character of a non-empty prefix. */
  lemma ConsAppend(a: string, b: string, r: string)
    requires |a| > 0
    ensures (a + b)[0] == a[0] && (a + b)[1..] == a[1..] + b
    ensures [a[0]] + (a[1..] + r) == a + r
  {
  }

  /** A prefix in which no deleted word can start passes through unchanged. */
  lemma {:induction false} NormalizeKeepsPrefix(a: string, b: string)
    requires NoWordStart(a)
    ensures NormalizeProp(a + b) == a + NormalizeProp(b)
    decreases |a|
  {
    if |a| == 0 {
      assert a + b == b;
    } else {
      ConsAppend(a, b, NormalizeProp(b));
      NormalizeKeepsFirst(a + b);
      NoWordStartTail(a);
      NormalizeKeepsPrefix(a[1..], b);
    }
  }

  /** A word at the front is deleted and normalisation carries on after it. */
  lemma NormalizeDropsWord(w: string, b: string)
    requires w == "Color" || w == "Bg" || w == "FontFamily"
    ensures NormalizeProp(w + b) == NormalizeProp(b)
  {
    var s := w + b;
    assert s[..|w|] == w;
    assert WordAt(s) == |w|;
    assert s[|w|..] == b;
  }

  lemma NormalizeColorKey()
    ensures NormalizeProp("color") == "color"
  {
    NormalizeKeepsPrefix("color", "");
    assert "color" + "" == "color";
  }

  /** A first character that starts no deleted word is kept, whatever it is. */
  lemma NormalizeKeepsNonWord(s: string)
    requires |s| > 0 && WordAt(s) == 0
    ensures NormalizeProp(s) == [s[0]] + NormalizeProp(s[1..])
  {
  }

  /** A string shorter than "FontFamily" whose only possible word start is
      its first character, an "F", is left as it is. */
  lemma NormalizeKeepsShortF(s: string)
    requires 0 < |s| < 10 && s[0] == 'F' && NoWordStart(s[1..])
    ensures NormalizeProp(s) == s
  {
    assert WordAt(s) == 0;
    NormalizeKeepsNonWord(s);
    NormalizeKeepsPrefix(s[1..], "");
    assert s[1..] + "" == s[1..];
    assert [s[0]] + s[1..] == s;
  }

  /** A word-free prefix followed by such a short "F" string. */
  lemma NormalizeKeepsPrefixShortF(a: string, b: string)
    requires NoWordStart(a)
    requires 0 < |b| < 10 && b[0] == 'F' && NoWordStart(b[1..])
    ensures NormalizeProp(a + b) == a + b
  {
    NormalizeKeepsShortF(b);
    NormalizeKeepsPrefix(a, b);
  }

  lemma NormalizeFontFamilyKey()
    ensures NormalizeProp("fontFamily") == "fontFamily"
  {
    assert "font" + "Family" == "fontFamily";
    NormalizeKeepsPrefixShortF("font", "Family");
  }

  lemma NormalizeButtonColorKey()
    ensures NormalizeProp("buttonColor") == "button"
  {
    NormalizeDropsWord("Color", "");
    assert "Color" + "" == "Color";
    NormalizeKeepsPrefix("button", "Color");
    assert "button" + "" == "button";
    assert "button" + "Color" == "buttonColor";
  }

  lemma NormalizeButtonBgKey()
    ensures NormalizeProp("buttonBg") == "button"
  {
    NormalizeDropsWord("Bg", "");
    assert "Bg" + "" == "Bg";
    NormalizeKeepsPrefix("button", "Bg");
    assert "button" + "" == "button";
    assert "button" + "Bg" == "buttonBg";
  }

  /** The roles the four `cssMap` keys normalise to: the two lower-case keys
      are left as they are and both button keys become "button". */
  lemma NormalizedKeys()
    ensures NormalizeProp("fontFamily") == "fontFamily"
    ensures NormalizeProp("color") == "color"
    ensures NormalizeProp("buttonColor") == "button"
    ensures NormalizeProp("buttonBg") == "button"
  {
    NormalizeColorKey();
    NormalizeFontFamilyKey();
    NormalizeButtonColorKey();
    NormalizeButtonBgKey();
  }

  /** `_getStyleFallback`: the four-entry table. */
  function StyleFallback(prop: string): (r: string)
    requires CssKey(prop)
    ensures prop == "fontFamily" ==> r == "system-ui, sans-serif"
    ensures prop == "color" ==> r == "#333"
    ensures prop == "buttonColor" ==> r == "#fff"
    ensures prop == "buttonBg" ==> r == "#0066cc"
  {
    if prop == "fontFamily" then "system-ui, sans-serif"
    else if prop == "color" then "#333"
    else if prop == "buttonColor" then "#fff"
    else if prop == "buttonBg" then "#0066cc"
    else "unset"
  }

  /** The value of one variable: the captured field when truthy, else the
      fallback. */
  function VarValue(styles: map<string, Captured>, prop: string): (v: string)
    requires CssKey(prop)
    ensures Truthy(CapturedField(styles, NormalizeProp(prop), prop)) ==> v == CapturedField(styles, NormalizeProp(prop), prop).value
    ensures !Truthy(CapturedField(styles, NormalizeProp(prop), prop)) ==> v == StyleFallback(prop)
  {
    OrElse(CapturedField(styles, NormalizeProp(prop), prop), StyleFallback(prop))
  }

  /** One `varName: value;` declaration per entry, in order. */
  function Declarations(entries: seq<(string, string)>, styles: map<string, Captured>): (r: string)
    requires forall i :: 0 <= i < |entries| ==> CssKey(entries[i].0)
    ensures |entries| == 0 ==> r == ""
    ensures |entries| > 0 ==> StartsWith(r, entries[0].1 + ": " + VarValue(styles, entries[0].0) + ";")
    ensures |entries| == 1 ==> r == entries[0].1 + ": " + VarValue(styles, entries[0].0) + ";"
  {
    if |entries| == 0 then ""
    else
      var head := entries[0].1 + ": " + VarValue(styles, entries[0].0) + ";";
      StartsWithAppend(head, Declarations(entries[1..], styles));
      head + Declarations(entries[1..], styles)
  }

  /** The declarations of two lists of entries are those of the first list
      followed by those of the second: one declaration per entry, in order. */
  lemma {:induction false} DeclarationsAppend(a: seq<(string, string)>, b: seq<(string, string)>, styles: map<string, Captured>)
    requires forall i :: 0 <= i < |a| ==> CssKey(a[i].0)
    requires forall i :: 0 <= i < |b| ==> CssKey(b[i].0)
    ensures Declarations(a + b, styles) == Declarations(a, styles) + Declarations(b, styles)
    decreases |a|
  {
    if |a| > 0 {
      var ab, t := a + b, a[1..];
      KeysAppend(a, b);
      KeysAppend(t, b);
      assert ab[..1] == a[..1] && ab[1..] == t + b;
      DeclarationsUnfold(ab, styles);
      DeclarationsUnfold(a, styles);
      DeclarationsAppend(t, b, styles);
      AppendAssoc(Declarations(a[..1], styles), Declarations(t, styles), Declarations(b, styles));
    } else {
      assert a + b == b;
    }
  }

  /** Two lists keyed by the four names, one after the other. */
  lemma KeysAppend(a: seq<(string, string)>, b: seq<(string, string)>)
    requires forall i :: 0 <= i < |a| ==> CssKey(a[i].0)
    requires forall i :: 0 <= i < |b| ==> CssKey(b[i].0)
    ensures forall i :: 0 <= i < |a + b| ==> CssKey((a + b)[i].0)
  {
  }

  /** The first entry's declaration, then the rest. */
  lemma DeclarationsUnfold(e: seq<(string, string)>, styles: map<string, Captured>)
    requires |e| > 0 && forall i :: 0 <= i < |e| ==> CssKey(e[i].0)
    ensures Declarations(e, styles) == Declarations(e[..1], styles) + Declarations(e[1..], styles)
  {
    assert e[..1][1..] == [];
  }

  /** `_generateCSSVariables`: one `:host` block. */
  function GenerateCssVariables(c: Config, styles: map<string, Captured>): (css: string)
    ensures StartsWith(css, ":host {") && css[|css| - 1] == '}'
    ensures css == ":host {" + Declarations(CssEntries(c.cssMap), styles) + "}"
  {
    var body := Declarations(CssEntries(c.cssMap), styles);
    HostBlockShape(body);
    ":host {" + body + "}"
  }

  /** The shape of a `:host` block around any body. */
  lemma HostBlockShape(body: string)
    ensures StartsWith(":host {" + body + "}", ":host {")
    ensures (":host {" + body + "}")[|":host {" + body + "}"| - 1] == '}'
  {
    StartsWithAppend(":host {", body + "}");
    assert ":host {" + body + "}" == ":host {" + (body + "}");
  }

  /** With nothing captured every variable takes its fallback value. */
  lemma NothingCapturedIsFallback(prop: string)
    requires CssKey(prop)
    ensures VarValue(map[], prop) == StyleFallback(prop)
  {
  }

  /** Declarations depend on the captured styles only through the values. */
  lemma {:induction false} DeclarationsSameValues(entries: seq<(string, string)>, s1: map<string, Captured>, s2: map<string, Captured>)
    requires forall i :: 0 <= i < |entries| ==> CssKey(entries[i].0)
    requires forall i :: 0 <= i < |entries| ==> VarValue(s1, entries[i].0) == VarValue(s2, entries[i].0)
    ensures Declarations(entries, s1) == Declarations(entries, s2)
    decreases |entries|
  {
    if |entries| > 0 {
      DeclarationsSameValues(entries[1..], s1, s2);
    }
  }

  /** For styles as extraction produces them, the two lower-case keys name
      roles that are never captured. */
  lemma PlainKeysMiss(styles: map<string, Captured>)
    requires styles.Keys <= {"body", "button"}
    ensures CapturedField(styles, NormalizeProp("fontFamily"), "fontFamily") == None
    ensures CapturedField(styles, NormalizeProp("color"), "color") == None
  {
    FontFamilyRoleMissing(styles);
    ColorRoleMissing(styles);
  }

  lemma RoleOutsideExtraction(styles: map<string, Captured>, role: string)
    requires styles.Keys <= {"body", "button"}
    requires |role| != 4 && |role| != 6
    ensures role !in styles
  {
  }

  lemma FontFamilyRoleMissing(styles: map<string, Captured>)
    requires styles.Keys <= {"body", "button"}
    ensures NormalizeProp("fontFamily") !in styles
  {
    NormalizeFontFamilyKey();
    RoleOutsideExtraction(styles, "fontFamily");
  }

  lemma ColorRoleMissing(styles: map<string, Captured>)
    requires styles.Keys <= {"body", "button"}
    ensures NormalizeProp("color") !in styles
  {
    NormalizeColorKey();
    RoleOutsideExtraction(styles, "color");
  }

  /** The two button keys find the button record, which has no field of
      their name. */
  lemma ButtonKeysMiss(styles: map<string, Captured>)
    ensures CapturedField(styles, NormalizeProp("buttonColor"), "buttonColor") == None
    ensures CapturedField(styles, NormalizeProp("buttonBg"), "buttonBg") == None
  {
    assert "buttonColor" != "fontFamily" && "buttonColor" != "color" && "buttonColor" != "backgroundColor";
    assert "buttonBg" != "fontFamily" && "buttonBg" != "color" && "buttonBg" != "backgroundColor";
  }

  /** No lookup ever hits: the keys normalise to roles that are never
      captured ("fontFamily", "color") or to "button", whose record has no
      `buttonColor` or `buttonBg` field. So the block is the one generated
      from no captured styles at all, whatever the host page looks like. */
  lemma ThemeIsAlwaysFallback(c: Config, styles: map<string, Captured>)
    requires styles.Keys <= {"body", "button"}
    ensures GenerateCssVariables(c, styles) == GenerateCssVariables(c, map[])
  {
    var es := CssEntries(c.cssMap);
    PlainKeysMiss(styles);
    ButtonKeysMiss(styles);
    forall i | 0 <= i < |es|
      ensures VarValue(styles, es[i].0) == VarValue(map[], es[i].0)
    {
      assert CapturedField(styles, NormalizeProp(es[i].0), es[i].0) == None;
    }
    DeclarationsSameValues(es, styles, map[]);
  }

  /** The style block written when extraction fails. */
  const FallbackCss := FallbackOpen
    + "--mf-font" + ": " + "system-ui, sans-serif" + ";" + FallbackGap
    + "--mf-text" + ": " + "#333" + ";" + FallbackGap
    + "--mf-btn-text" + ": " + "#fff" + ";" + FallbackGap
    + "--mf-btn-bg" + ": " + "#0066cc" + ";" + "\n        }\n      "
  const FallbackOpen := "\n        :host {\n          "
  const FallbackGap := "\n          "

  /** The fallback block declares each of the four fallback values of
      `StyleFallback`, under its own short names. */
  lemma FallbackCssDeclaresFallbacks()
    ensures FallbackCss[27..36] == "--mf-font" && FallbackCss[36..38] == ": " && FallbackCss[38..59] == StyleFallback("fontFamily")
    ensures FallbackCss[71..80] == "--mf-text" && FallbackCss[80..82] == ": " && FallbackCss[82..86] == StyleFallback("color")
    ensures FallbackCss[98..111] == "--mf-btn-text" && FallbackCss[111..113] == ": " && FallbackCss[113..117] == StyleFallback("buttonColor")
    ensures FallbackCss[129..140] == "--mf-btn-bg" && FallbackCss[140..142] == ": " && FallbackCss[142..149] == StyleFallback("buttonBg")
  {
    FallbackTextDeclarations();
    FallbackButtonDeclarations();
  }

  /** The first two declarations, at their offsets. */
  lemma FallbackTextDeclarations()
    ensures FallbackCss[27..36] == "--mf-font" && FallbackCss[36..38] == ": " && FallbackCss[38..59] == "system-ui, sans-serif"
    ensures FallbackCss[71..80] == "--mf-text" && FallbackCss[80..82] == ": " && FallbackCss[82..86] == "#333"
  {
    var p1 := FallbackOpen + "--mf-font" + ": " + "system-ui, sans-serif" + ";" + FallbackGap;
    var p2 := p1 + "--mf-text" + ": " + "#333";
    assert StartsWith(FallbackCss, p2);
    assert StartsWith(FallbackCss, FallbackOpen + "--mf-font" + ": " + "system-ui, sans-serif") by {
      assert FallbackCss[..|FallbackOpen + "--mf-font" + ": " + "system-ui, sans-serif"|] == p2[..|FallbackOpen + "--mf-font" + ": " + "system-ui, sans-serif"|];
    }
    FallbackDeclarationAt(FallbackOpen, "--mf-font", "system-ui, sans-serif", FallbackCss);
    FallbackDeclarationAt(p1, "--mf-text", "#333", FallbackCss);
  }

  /** The two button declarations, at their offsets. */
  lemma FallbackButtonDeclarations()
    ensures FallbackCss[98..111] == "--mf-btn-text" && FallbackCss[111..113] == ": " && FallbackCss[113..117] == "#fff"
    ensures FallbackCss[129..140] == "--mf-btn-bg" && FallbackCss[140..142] == ": " && FallbackCss[142..149] == "#0066cc"
  {
    var p2 := FallbackOpen + "--mf-font" + ": " + "system-ui, sans-serif" + ";" + FallbackGap
      + "--mf-text" + ": " + "#333" + ";" + FallbackGap;
    var p3 := p2 + "--mf-btn-text" + ": " + "#fff" + ";" + FallbackGap;
    var p4 := p3 + "--mf-btn-bg" + ": " + "#0066cc";
    assert StartsWith(FallbackCss, p4);
    assert StartsWith(FallbackCss, p2 + "--mf-btn-text" + ": " + "#fff") by {
      assert FallbackCss[..|p2 + "--mf-btn-text" + ": " + "#fff"|] == p4[..|p2 + "--mf-btn-text" + ": " + "#fff"|];
    }
    FallbackDeclarationAt(p2, "--mf-btn-text", "#fff", FallbackCss);
    FallbackDeclarationAt(p3, "--mf-btn-bg", "#0066cc", FallbackCss);
  }

  /** A text that starts with `pre`, a name, ": " and a value holds each at
      its offset. */
  lemma FallbackDeclarationAt(pre: string, name: string, value: string, s: string)
    requires StartsWith(s, pre + name + ": " + value)
    ensures s[|pre|..|pre| + |name|] == name
    ensures s[|pre| + |name|..|pre| + |name| + 2] == ": "
    ensures s[|pre| + |name| + 2..|pre| + |name| + 2 + |value|] == value
  {
    var t := pre + name + ": " + value;
    assert s[..|t|] == t;
    assert s[|pre|..|pre| + |name|] == t[|pre|..|pre| + |name|] == (pre + name)[|pre|..];
    assert s[|pre| + |name|..|pre| + |name| + 2] == t[|pre| + |name|..|pre| + |name| + 2];
    assert s[|pre| + |name| + 2..|t|] == t[|pre| + |name| + 2..];
  }

  /** None of the fallback block's names (`--mf-font`, `--mf-text`,
      `--mf-btn-text`, `--mf-btn-bg`) is the default `cssMap` name the
      generated block declares for the same property. */
  lemma FallbackCssNamesDiffer()
    ensures FallbackCss[27..36] != CssMapOr(None).fontFamily && FallbackCss[71..80] != CssMapOr(None).color
    ensures FallbackCss[98..111] != CssMapOr(None).buttonColor && FallbackCss[129..140] != CssMapOr(None).buttonBg
  {
    FallbackCssDeclaresFallbacks();
  }

  /** `_adaptStyles`: the generated block, or the fixed fallback text when
      extraction throws. */
  function AdaptStyles(c: Config, probe: string -> Result<Option<Captured>, string>): (css: string)
    ensures ExtractParentStyles(c, probe).Failure? ==> css == FallbackCss
    ensures ExtractParentStyles(c, probe).Success? ==> css == GenerateCssVariables(c, map[])
  {
    match ExtractParentStyles(c, probe)
    case Failure(_) => FallbackCss
    case Success(styles) =>
      ThemeIsAlwaysFallback(c, styles);
      GenerateCssVariables(c, styles)
  }

  // ---------------------------------------------------------------------
  // Main view and detail clicks
  // ---------------------------------------------------------------------

  /** The overlay `_createModalStructure` appends, with its content node
      fetching `url`. */
  function ModalOverlay(url: string): (o: Overlay)
    ensures GetAttr(o.dynamic, "hx-get") == Some(url)
    ensures o.overlayId == "mf-modal-overlay" && o.closeLabel == "×"
  {
    LoadingOverlay("mf-modal-overlay", "×", url)
  }

  /** What `_loadCoreContent` sets up. */
  datatype MainView =
    | WrapperMain(wrapper: Element, handler: DetailHandler)
    | OverlayMain(overlay: Overlay)

  /** `_loadCoreContent` and `_handleInlineContent`: the inline main mode
      loads into the wrapper and wires the modal handler exactly when the
      detail mode is "modal", the inline one otherwise; every other main mode
      creates one overlay and wires nothing. */
  function Dispatch(c: Config): (v: MainView)
    ensures c.mainMode == "inline" <==> v.WrapperMain?
    ensures v.WrapperMain? ==> v.wrapper == LoadInto(NewElement("mf-internal-wrapper"), c.serviceUrl)
    ensures v.WrapperMain? ==> (v.handler == ModalDetails <==> c.detailMode == "modal")
    ensures v.WrapperMain? ==> (v.handler == InlineDetails <==> c.detailMode != "modal")
    ensures v.OverlayMain? ==> v.overlay == ModalOverlay(c.serviceUrl)
  {
    if c.mainMode == "inline" then
      WrapperMain(LoadInto(NewElement("mf-internal-wrapper"), c.serviceUrl),
                  if c.detailMode == "modal" then ModalDetails else InlineDetails)
    else OverlayMain(ModalOverlay(c.serviceUrl))
  }

  /** `closest(".mf-detail")`: the first element with the class on the path
      from the clicked element up through all its ancestors. */
  function Closest(path: seq<Element>): (r: Option<nat>)
    ensures r.Some? ==> r.value < |path| && "mf-detail" in path[r.value].classes
    ensures r.Some? ==> forall j :: 0 <= j < r.value ==> "mf-detail" !in path[j].classes
    ensures r.None? ==> forall j :: 0 <= j < |path| ==> "mf-detail" !in path[j].classes
  {
    if |path| == 0 then None
    else if "mf-detail" in path[0].classes then Some(0)
    else match Closest(path[1..])
      case None => None
      case Some(i) => Some(i + 1)
  }

  /** The listener `_setupModalHandlers` installs: a marked element with a
      truthy detail URL opens a new overlay on it, extended by
      `_addKeywordParam` as written; one without prevents the default and
      does nothing else. */
  function ModalClick(path: seq<Element>, keyword: string): (e: ClickEffect)
    ensures Closest(path).None? <==> e == NotADetailClick
    ensures Closest(path).Some? ==>
      var url := GetAttr(path[Closest(path).value], "data-detail-url");
      && (!Truthy(url) ==> e == NothingLoaded)
      && (Truthy(url) ==> e == OpenOverlay(ModalOverlay(AddKeywordParamAsWritten(url.value, keyword))))
  {
    match Closest(path)
    case None => NotADetailClick
    case Some(i) =>
      var url := GetAttr(path[i], "data-detail-url");
      if Truthy(url) then OpenOverlay(ModalOverlay(AddKeywordParamAsWritten(url.value, keyword))) else NothingLoaded
  }

  /** The listener `_setupInlineDetailHandlers` installs. The detail pane is
      looked up in the host document; a marked element without a detail URL
      passes `undefined` on, which becomes the text "undefined" when there
      is no keyword and a TypeError when there is one. A present URL is
      extended by `_addKeywordParam` as written. */
  function InlineClick(path: seq<Element>, keyword: string, pane: Option<Element>): (e: ClickEffect)
    ensures Closest(path).None? <==> e == NotADetailClick
    ensures Closest(path).Some? && pane.None? ==> e == MissingDetailContainer
    ensures Closest(path).Some? && pane.Some? ==>
      var url := GetAttr(path[Closest(path).value], "data-detail-url");
      && (url.Some? ==> e == LoadDetailPane(LoadInto(pane.value, AddKeywordParamAsWritten(url.value, keyword))))
      && (url.None? && keyword == "" ==> e == LoadDetailPane(LoadInto(pane.value, "undefined")))
      && (url.None? && keyword != "" ==> e == HandlerThrows)
  {
    match Closest(path)
    case None => NotADetailClick
    case Some(i) =>
      match pane
      case None => MissingDetailContainer
      case Some(p) =>
        match GetAttr(path[i], "data-detail-url")
        case Some(url) => LoadDetailPane(LoadInto(p, AddKeywordParamAsWritten(url, keyword)))
        case None => if keyword == "" then LoadDetailPane(LoadInto(p, "undefined")) else HandlerThrows
  }

  /** As written, a detail click does the same thing whichever non-empty
      keyword the page has. */
  lemma ClicksIgnoreKeyword(path: seq<Element>, k1: string, k2: string, pane: Option<Element>)
    requires k1 != "" && k2 != ""
    ensures ModalClick(path, k1) == ModalClick(path, k2)
    ensures InlineClick(path, k1, pane) == InlineClick(path, k2, pane)
  {
    if Closest(path).Some? {
      var url := GetAttr(path[Closest(path).value], "data-detail-url");
      if url.Some? {
        AddKeywordParamIgnoresKeyword(url.value, k1, k2);
      }
    }
  }

  /** As written, a modal detail click never fetches the URL that carries the
      encoded keyword, unless the encoding happens to be the placeholder. */
  lemma ModalClickMissesKeyword(path: seq<Element>, keyword: string, enc: string -> string)
    requires Closest(path).Some? && Truthy(GetAttr(path[Closest(path).value], "data-detail-url"))
    requires keyword != "" && enc(keyword) != KeywordPlaceholder
    ensures var url := GetAttr(path[Closest(path).value], "data-detail-url").value;
      ModalClick(path, keyword) != OpenOverlay(ModalOverlay(AddKeywordParam(url, keyword, enc)))
  {
    var url := GetAttr(path[Closest(path).value], "data-detail-url").value;
    AddKeywordParamDiffers(url, keyword, enc);
    var w := ModalOverlay(AddKeywordParamAsWritten(url, keyword));
    var c := ModalOverlay(AddKeywordParam(url, keyword, enc));
    assert GetAttr(w.dynamic, "hx-get") != GetAttr(c.dynamic, "hx-get");
  }

  // ---------------------------------------------------------------------
  // Initialisation
  // ---------------------------------------------------------------------

  /** What `init` sets up once the transport library is present. */
  datatype Session = Session(config: Config, keyword: string, stylesheet: string, themeCss: string, main: MainView)

  /** `init`. The host container is looked up with the target selector
      before anything else; a `null` target is the selector "null". Without
      a container `init` throws. `meta` is the `mf-keyword` meta content,
      `origin` the origin of the prepared service URL. */
  function Init(u: UserOptions, lookup: string -> Option<Element>, meta: Option<string>, enc: string -> string,
                origin: string, probe: string -> Result<Option<Captured>, string>): (r: Result<Session, string>)
    ensures var c := MergeConfig(u);
      r.Failure? <==> lookup(c.target.GetOr("null")).None?
    ensures r.Success? ==>
      var c0 := MergeConfig(u);
      var k := DetectKeyword(meta, c0.defaultKeyword);
      && r.value.keyword == k
      && r.value.config == c0.(serviceUrl := PrepareServiceUrl(c0.serviceUrl, k, enc))
      && r.value.stylesheet == origin + "/static/css/style.css"
      && r.value.themeCss == AdaptStyles(r.value.config, probe)
      && r.value.main == Dispatch(r.value.config)
  {
    var c0 := MergeConfig(u);
    match lookup(c0.target.GetOr("null"))
    case None => Failure("Target container not found")
    case Some(_) =>
      var k := DetectKeyword(meta, c0.defaultKeyword);
      var c := c0.(serviceUrl := PrepareServiceUrl(c0.serviceUrl, k, enc));
      Success(Session(c, k, origin + "/static/css/style.css", AdaptStyles(c, probe), Dispatch(c)))
  }

  // ---------------------------------------------------------------------
  // Observer passes
  // ---------------------------------------------------------------------

  /** `updateUrls` on one value: a truthy value that does not start with the
      origin gets the origin and, unless it starts with `/`, a `/`. The value
      is not trimmed; empty and missing values are untouched. */
  function QualifyValue(value: Option<string>, origin: string): (r: Option<string>)
    ensures !Truthy(value) || StartsWith(value.value, origin) ==> r == value
    ensures Truthy(value) && !StartsWith(value.value, origin) ==>
      r.Some? && StartsWith(r.value, origin) && r.value[|origin|..] == (if StartsWith(value.value, "/") then "" else "/") + value.value
  {
    if Truthy(value) && !StartsWith(value.value, origin) then
      var v := value.value;
      var tail := if StartsWith(v, "/") then v else "/" + v;
      StartsWithAppend(origin, tail);
      Some(origin + tail)
    else value
  }

  /** A qualified value starts with the origin, so a second run keeps it. */
  lemma QualifyValueIdempotent(value: Option<string>, origin: string)
    ensures QualifyValue(QualifyValue(value, origin), origin) == QualifyValue(value, origin)
  {
    if Truthy(value) && !StartsWith(value.value, origin) {
      var r := QualifyValue(value, origin);
      assert StartsWith(r.value, origin);
    }
  }

  /** One attribute: only a value the rewrite changes is set. */
  function QualifyAttr(e: Element, attr: string, origin: string): (r: Element)
    ensures r.node == e.node && r.classes == e.classes && r.text == e.text
    ensures GetAttr(r, attr) == QualifyValue(GetAttr(e, attr), origin)
    ensures forall a :: a != attr ==> GetAttr(r, a) == GetAttr(e, a)
  {
    var v := QualifyValue(GetAttr(e, attr), origin);
    if v != GetAttr(e, attr) then SetAttr(e, attr, v.value) else e
  }

  /** `hx-get` and `hx-post` qualified; every other attribute, the classes
      and the text kept. */
  function QualifyElement(e: Element, origin: string): (r: Element)
    ensures r.node == e.node && r.classes == e.classes && r.text == e.text
    ensures GetAttr(r, "hx-get") == QualifyValue(GetAttr(e, "hx-get"), origin)
    ensures GetAttr(r, "hx-post") == QualifyValue(GetAttr(e, "hx-post"), origin)
    ensures forall a :: a != "hx-get" && a != "hx-post" ==> GetAttr(r, a) == GetAttr(e, a)
  {
    QualifyAttr(QualifyAttr(e, "hx-get", origin), "hx-post", origin)
  }

  lemma QualifyElementIdempotent(e: Element, origin: string)
    ensures QualifyElement(QualifyElement(e, origin), origin) == QualifyElement(e, origin)
  {
    var once := QualifyElement(e, origin);
    var twice := QualifyElement(once, origin);
    QualifyValueIdempotent(GetAttr(e, "hx-get"), origin);
    QualifyValueIdempotent(GetAttr(e, "hx-post"), origin);
    forall a
      ensures GetAttr(twice, a) == GetAttr(once, a)
    {
    }
    assert twice.attrs.Keys == once.attrs.Keys by {
      forall a ensures a in twice.attrs <==> a in once.attrs {
        assert GetAttr(twice, a) == GetAttr(once, a);
      }
    }
    assert forall a :: a in once.attrs ==> twice.attrs[a] == once.attrs[a] by {
      forall a | a in once.attrs ensures twice.attrs[a] == once.attrs[a] {
        assert GetAttr(twice, a) == GetAttr(once, a);
      }
    }
  }

  /** `updateUrls()` over the `.mf-has-url` elements. */
  function BaseUrlPass(doc: seq<Element>, origin: string): (r: seq<Element>)
    ensures |r| == |doc|
    ensures forall i :: 0 <= i < |doc| && "mf-has-url" !in doc[i].classes ==> r[i] == doc[i]
    ensures forall i :: 0 <= i < |doc| && "mf-has-url" in doc[i].classes ==> r[i] == QualifyElement(doc[i], origin)
  {
    ForEachWithClass(doc, "mf-has-url", e => QualifyElement(e, origin))
  }

  /** The observer may re-run the pass as often as it likes. */
  lemma BaseUrlPassIdempotent(doc: seq<Element>, origin: string)
    ensures BaseUrlPass(BaseUrlPass(doc, origin), origin) == BaseUrlPass(doc, origin)
  {
    forall e: Element | "mf-has-url" in e.classes
      ensures QualifyElement(QualifyElement(e, origin), origin) == QualifyElement(e, origin)
    {
      QualifyElementIdempotent(e, origin);
    }
    ForEachWithClassIdempotent(doc, "mf-has-url", e => QualifyElement(e, origin));
  }

  /** `truncate` on one element: the text is always replaced by its trimmed
      form, cut to `max` characters plus "..." when longer. */
  function Truncate(e: Element, max: nat): (r: Element)
    ensures r.node == e.node && r.classes == e.classes && r.attrs == e.attrs
    ensures |Trim(e.text)| > max ==> r.text == Trim(e.text)[..max] + "..."
    ensures |Trim(e.text)| <= max ==> r.text == Trim(e.text)
    ensures |r.text| <= max + 3 && Trimmed(r.text)
  {
    var t := Trim(e.text);
    if |t| > max then
      var s := t[..max] + "...";
      assert max > 0 ==> s[0] == t[0];
      assert s[|s| - 1] == '.';
      e.(text := s)
    else e.(text := t)
  }

  lemma TruncateIdempotent(e: Element, max: nat)
    ensures Truncate(Truncate(e, max), max) == Truncate(e, max)
  {
    var once := Truncate(e, max);
    var twice := Truncate(once, max);
    TrimOfTrimmed(once.text);
    if |Trim(e.text)| > max {
      var cut := Trim(e.text)[..max];
      assert once.text[..max] == cut;
      assert twice.text == cut + "...";
    }
    assert twice.text == once.text;
  }

  /** The shadow-root observer cuts at 60 characters, the document script
      at 75. */
  const ShadowMax := 60
  const DocumentMax := 75

  /** `truncate` over the `.mf-course-card__description`
      elements: each is cut, the rest are kept. */
  function TruncatePass(doc: seq<Element>, max: nat): (r: seq<Element>)
    ensures |r| == |doc|
    ensures forall i :: 0 <= i < |doc| && "mf-course-card__description" !in doc[i].classes ==> r[i] == doc[i]
    ensures forall i :: 0 <= i < |doc| && "mf-course-card__description" in doc[i].classes ==>
      r[i] == Truncate(doc[i], max) && |r[i].text| <= max + 3 && Trimmed(r[i].text)
  {
    ForEachWithClass(doc, "mf-course-card__description", e => Truncate(e, max))
  }

  lemma TruncatePassIdempotent(doc: seq<Element>, max: nat)
    ensures TruncatePass(TruncatePass(doc, max), max) == TruncatePass(doc, max)
  {
    forall e: Element | "mf-course-card__description" in e.classes
      ensures Truncate(Truncate(e, max), max) == Truncate(e, max)
    {
      TruncateIdempotent(e, max);
    }
    ForEachWithClassIdempotent(doc, "mf-course-card__description", e => Truncate(e, max));
  }
}
