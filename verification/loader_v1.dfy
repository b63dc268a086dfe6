/** The first version of the embedding loader: option defaults and colour
    validation, keyword detection from the host page, the choice of main
    view and detail handler, the click walk that finds a detail trigger, and
    the three passes its injected scripts re-run on every mutation of the
    host document (origin qualification of `hx-get`/`hx-post`, description
    truncation at 75 characters, and the display rewrite of card buttons and
    titles). */
module LoaderV1 {
  import opened Wrappers
  import opened Strings
  import opened Dom
  import opened ColorGrammar

  // ---------------------------------------------------------------------
  // Options and defaults
  // ---------------------------------------------------------------------

  /** The `cssMap` object of the options; every field may be absent. */
  datatype CssMapOptions = CssMapOptions(
    fontFamily: Option<string>,
    textColor: Option<string>,
    buttonColor: Option<string>,
    buttonTextColor: Option<string>)

  /** The options passed to `init`; `None` is an absent field. */
  datatype Options = Options(
    mainMode: Option<string>,
    mainModeDisplay: Option<string>,
    detailMode: Option<string>,
    target: Option<string>,
    serviceUrl: Option<string>,
    defaultKeyword: Option<string>,
    cssMap: Option<CssMapOptions>)

  /** The four theme values written into the `:root` style block. */
  datatype Theme = Theme(fontFamily: string, textColor: string, buttonColor: string, buttonTextColor: string)

  /** The options after `init` has filled in defaults and added the keyword. */
  datatype Settings = Settings(
    mainMode: string,
    mainModeDisplay: string,
    detailMode: string,
    target: Option<string>,
    serviceUrl: string,
    theme: Theme)

  const DefaultServiceUrl := "http://localhost:8080/search"
  const DefaultColor := "#00b074"
  const DefaultButtonTextColor := "#fff"

  /** A colour option: the validated colour, or the default when it is
      absent or fails the colour syntax. */
  function ColorOr(o: Option<string>, default: string): (r: string)
    ensures o.Some? && MatchesColorSyntax(o.value) ==> r == o.value
    ensures !(o.Some? && MatchesColorSyntax(o.value)) ==> r == default
  {
    match ValidateColor(o)
    case Some(c) => c
    case None => default
  }

  function ResolveTheme(m: CssMapOptions): (t: Theme)
    ensures t.fontFamily == OrElse(m.fontFamily, "sans-serif")
    ensures t.textColor == ColorOr(m.textColor, DefaultColor)
    ensures t.buttonColor == ColorOr(m.buttonColor, DefaultColor)
    ensures t.buttonTextColor == ColorOr(m.buttonTextColor, DefaultButtonTextColor)
  {
    Theme(OrElse(m.fontFamily, "sans-serif"),
          ColorOr(m.textColor, DefaultColor),
          ColorOr(m.buttonColor, DefaultColor),
          ColorOr(m.buttonTextColor, DefaultButtonTextColor))
  }

  /** Every colour that reaches the style block satisfies the colour syntax:
      an invalid option never gets through, and the defaults are valid. */
  lemma ResolvedColorsValid(m: CssMapOptions)
    ensures MatchesColorSyntax(ResolveTheme(m).textColor)
    ensures MatchesColorSyntax(ResolveTheme(m).buttonColor)
    ensures MatchesColorSyntax(ResolveTheme(m).buttonTextColor)
  {
    assert IsHexColor(DefaultColor);
    assert IsHexColor(DefaultButtonTextColor);
  }

  // ---------------------------------------------------------------------
  // Page context and keyword
  // ---------------------------------------------------------------------

  /** What the loader reads from the host page: the `content` attribute of
      the `mf-keyword` meta tag (absent when there is no tag or no
      attribute) and the text of the body. */
  datatype Page = Page(metaContent: Option<string>, bodyText: string)

  /** `getPageContext()`. */
  function PageContext(page: Page): (k: string)
    ensures Truthy(page.metaContent) ==> k == Trim(page.metaContent.value)
    ensures !Truthy(page.metaContent) && Contains(AsciiLower(page.bodyText), "course") ==> k == "course"
    ensures !Truthy(page.metaContent) && !Contains(AsciiLower(page.bodyText), "course") ==> k == ""
  {
    if Truthy(page.metaContent) then Trim(page.metaContent.value)
    else if Contains(AsciiLower(page.bodyText), "course") then "course"
    else ""
  }

  /** The keyword `init` uses: the page context, or the default keyword when
      the page context is empty. */
  function ResolveKeyword(page: Page, defaultKeyword: Option<string>): (k: string)
    ensures PageContext(page) != "" ==> k == PageContext(page)
    ensures PageContext(page) == "" ==> k == OrElse(defaultKeyword, "")
  {
    var context := PageContext(page);
    if context == "" && Truthy(defaultKeyword) then defaultKeyword.value else context
  }

  /** The page context is always trimmed: a trimmed meta value, "course"
      or nothing. */
  lemma PageContextIsTrimmed(page: Page)
    ensures Trimmed(PageContext(page))
  {
    if !Truthy(page.metaContent) && Contains(AsciiLower(page.bodyText), "course") {
      assert "course"[0] == 'c' && "course"[5] == 'e';
    }
  }

  /** The default keyword reaches the list URL but never a detail URL: a
      detail click reads the page context again and, when that is empty,
      adds no keyword. */
  lemma DefaultKeywordSkipsDetails(page: Page, defaultKeyword: Option<string>, url: string, enc: string -> string)
    requires PageContext(page) == "" && Truthy(defaultKeyword)
    ensures ResolveKeyword(page, defaultKeyword) == defaultKeyword.value
    ensures DetailUrl(url, page, enc) == url
  {
  }

  /** With a page context the default keyword plays no part at all. */
  lemma PageContextOverridesDefault(page: Page, d1: Option<string>, d2: Option<string>)
    requires PageContext(page) != ""
    ensures ResolveKeyword(page, d1) == ResolveKeyword(page, d2) == PageContext(page)
  {
  }

  /** `init`'s option processing: the defaults, the theme and the main URL
      with the `tag` parameter. The options object must carry a `cssMap`;
      without one `init` raises a TypeError. */
  function ResolveOptions(o: Options, page: Page, enc: string -> string): (r: Result<Settings, string>)
    ensures o.cssMap.None? <==> r.Failure?
    ensures r.Success? ==>
      && r.value.mainMode == OrElse(o.mainMode, "inline")
      && r.value.mainModeDisplay == OrElse(o.mainModeDisplay, "grid")
      && r.value.detailMode == OrElse(o.detailMode, "modal")
      && r.value.target == o.target
      && r.value.theme == ResolveTheme(o.cssMap.value)
      && r.value.serviceUrl == WithKeyword(OrElse(o.serviceUrl, DefaultServiceUrl), "tag", ResolveKeyword(page, o.defaultKeyword), enc)
  {
    match o.cssMap
    case None => Failure("TypeError: options.cssMap is undefined")
    case Some(m) =>
      var keyword := ResolveKeyword(page, o.defaultKeyword);
      Success(Settings(
        OrElse(o.mainMode, "inline"),
        OrElse(o.mainModeDisplay, "grid"),
        OrElse(o.detailMode, "modal"),
        o.target,
        WithKeyword(OrElse(o.serviceUrl, DefaultServiceUrl), "tag", keyword, enc),
        ResolveTheme(m)))
  }

  // ---------------------------------------------------------------------
  // Main view and detail handler
  // ---------------------------------------------------------------------

  /** `loadModal(url)`: an overlay with a "Close" control and a content node
      that fetches `url`. */
  function ModalOverlay(url: string): (o: Overlay)
    ensures GetAttr(o.dynamic, "hx-get") == Some(url)
    ensures o.overlayId == "mf-modal" && o.closeLabel == "Close"
  {
    LoadingOverlay("mf-modal", "Close", url)
  }

  /** The outcome of the main-mode branch of `init`. */
  datatype MainView =
    | InlineMain(container: Element, handler: DetailHandler)
    | ModalMain(overlay: Overlay)
    | MissingTarget
    | TargetNotFound
    | UnsupportedMainMode

  /** The detail handler for an inline main view: `modal` and `inline` get
      their handlers, any other detail mode (`inlineOnModal` included) none. */
  function HandlerFor(detailMode: string): (h: DetailHandler)
    ensures h == ModalDetails <==> detailMode == "modal"
    ensures h == InlineDetails <==> detailMode == "inline"
    ensures h == NoDetails <==> detailMode != "modal" && detailMode != "inline"
  {
    if detailMode == "modal" then ModalDetails
    else if detailMode == "inline" then InlineDetails
    else NoDetails
  }

  /** The main-mode branch of `init`. `lookup` is `document.querySelector`. */
  function Dispatch(st: Settings, lookup: string -> Option<Element>): (v: MainView)
    ensures st.mainMode == "inline" && !Truthy(st.target) ==> v == MissingTarget
    ensures st.mainMode == "inline" && Truthy(st.target) && lookup(st.target.value).None? ==> v == TargetNotFound
    ensures st.mainMode == "inline" && Truthy(st.target) && lookup(st.target.value).Some? ==>
      v == InlineMain(LoadInto(lookup(st.target.value).value, st.serviceUrl), HandlerFor(st.detailMode))
    ensures st.mainMode == "modal" ==> v == ModalMain(ModalOverlay(st.serviceUrl))
    ensures st.mainMode != "inline" && st.mainMode != "modal" ==> v == UnsupportedMainMode
  {
    if st.mainMode == "inline" then
      if !Truthy(st.target) then MissingTarget
      else match lookup(st.target.value)
        case None => TargetNotFound
        case Some(container) => InlineMain(LoadInto(container, st.serviceUrl), HandlerFor(st.detailMode))
    else if st.mainMode == "modal" then ModalMain(ModalOverlay(st.serviceUrl))
    else UnsupportedMainMode
  }

  /** An inline main view is only ever set up on a container that the
      target selector found; every error path installs no handler. */
  lemma InlineMainNeedsTarget(st: Settings, lookup: string -> Option<Element>)
    ensures Dispatch(st, lookup).InlineMain? <==>
      st.mainMode == "inline" && Truthy(st.target) && lookup(st.target.value).Some?
    ensures Dispatch(st, lookup).ModalMain? <==> st.mainMode == "modal"
  {
  }

  /** What `init` sets up once the transport library is present. */
  datatype Session = Session(settings: Settings, stylesheet: string, main: MainView)

  /** `init`: option processing, then the stylesheet from the service's
      origin, then the main view. The three passes are installed whatever
      the main view turns out to be. */
  function Init(o: Options, page: Page, enc: string -> string, origin: string, lookup: string -> Option<Element>): (r: Result<Session, string>)
    ensures r.Failure? <==> o.cssMap.None?
    ensures r.Success? ==> r.value.stylesheet == origin + "/static/css/style.css"
    ensures r.Success? ==> r.value.main == Dispatch(r.value.settings, lookup)
  {
    var st :- ResolveOptions(o, page, enc);
    Success(Session(st, origin + "/static/css/style.css", Dispatch(st, lookup)))
  }

  // ---------------------------------------------------------------------
  // Detail clicks
  // ---------------------------------------------------------------------

  /** Where the walk from the clicked element must stop: the index of the
      container in the ancestor path, or the end of the path. */
  function WalkLimit(path: seq<Element>, container: nat): (n: nat)
    ensures n <= |path|
    ensures forall j :: 0 <= j < n ==> path[j].node != container
    ensures n < |path| ==> path[n].node == container
  {
    if |path| == 0 then 0
    else if path[0].node == container then 0
    else 1 + WalkLimit(path[1..], container)
  }

  /** The loop of the click listener: from the event target through its
      parents, stopping before the container, the first element with class
      `mf-detail`. */
  function FindDetail(path: seq<Element>, container: nat): (r: Option<nat>)
    ensures r.Some? ==> r.value < WalkLimit(path, container) && "mf-detail" in path[r.value].classes
    ensures r.Some? ==> forall j :: 0 <= j < r.value ==> "mf-detail" !in path[j].classes
    ensures r.None? ==> forall j :: 0 <= j < WalkLimit(path, container) ==> "mf-detail" !in path[j].classes
  {
    if |path| == 0 || path[0].node == container then None
    else if "mf-detail" in path[0].classes then Some(0)
    else match FindDetail(path[1..], container)
      case None => None
      case Some(i) => Some(i + 1)
  }

  /** The detail URL of a trigger with the keyword added. The keyword is the
      page context alone: the default keyword is not consulted here. */
  function DetailUrl(url: string, page: Page, enc: string -> string): (r: string)
    ensures PageContext(page) == "" ==> r == url
    ensures PageContext(page) != "" ==> r == url + Separator(url) + "keyword=" + enc(PageContext(page))
  {
    var k := PageContext(page);
    assert k != "" ==> WithKeyword(url, "keyword", k, enc) == url + Separator(url) + "keyword=" + enc(k) by {
      if k != "" {
        var r, tail := WithKeyword(url, "keyword", k, enc), Separator(url) + "keyword=" + enc(k);
        assert Separator(url) + "keyword" + "=" + enc(k) == tail;
        assert r == r[..|url|] + r[|url|..];
      }
    }
    WithKeyword(url, "keyword", k, enc)
  }

  /** The listener `attachDetailModal` installs. */
  function ModalClick(path: seq<Element>, container: nat, page: Page, enc: string -> string): (e: ClickEffect)
    ensures FindDetail(path, container).None? <==> e == NotADetailClick
    ensures FindDetail(path, container).Some? ==>
      var url := GetAttr(path[FindDetail(path, container).value], "data-detail-url");
      && (!Truthy(url) ==> e == MissingDetailUrl)
      && (Truthy(url) ==> e == OpenOverlay(ModalOverlay(DetailUrl(url.value, page, enc))))
  {
    match FindDetail(path, container)
    case None => NotADetailClick
    case Some(i) =>
      var url := GetAttr(path[i], "data-detail-url");
      if Truthy(url) then OpenOverlay(ModalOverlay(DetailUrl(url.value, page, enc))) else MissingDetailUrl
  }

  /** The listener `attachDetailInline` installs; `pane` is the result of
      looking up `#mf-detail-container`. */
  function InlineClick(path: seq<Element>, container: nat, page: Page, enc: string -> string, pane: Option<Element>): (e: ClickEffect)
    ensures FindDetail(path, container).None? <==> e == NotADetailClick
    ensures FindDetail(path, container).Some? ==>
      var url := GetAttr(path[FindDetail(path, container).value], "data-detail-url");
      && (!Truthy(url) ==> e == MissingDetailUrl)
      && (Truthy(url) && pane.None? ==> e == MissingDetailContainer)
      && (Truthy(url) && pane.Some? ==> e == LoadDetailPane(LoadInto(pane.value, DetailUrl(url.value, page, enc))))
    ensures !e.OpenOverlay?
  {
    match FindDetail(path, container)
    case None => NotADetailClick
    case Some(i) =>
      var url := GetAttr(path[i], "data-detail-url");
      if !Truthy(url) then MissingDetailUrl
      else match pane
        case None => MissingDetailContainer
        case Some(p) => LoadDetailPane(LoadInto(p, DetailUrl(url.value, page, enc)))
  }

  // ---------------------------------------------------------------------
  // Pass 1: origin qualification of hx-get / hx-post
  // ---------------------------------------------------------------------

  /** An origin as the URL parser produces it: no whitespace anywhere. */
  predicate ValidOrigin(origin: string)
  {
    forall i :: 0 <= i < |origin| ==> !IsWhitespace(origin[i])
  }

  /** The rewrite of one attribute value: the trimmed value, and if that does
      not start with the origin, the origin, a `/` unless the value starts
      with one, and the value. An empty value becomes the origin and `/`. */
  function QualifyValue(value: string, origin: string): (r: string)
    ensures StartsWith(Trim(value), origin) ==> r == value
    ensures !StartsWith(Trim(value), origin) ==> StartsWith(r, origin) && r[|origin|..] == (if StartsWith(Trim(value), "/") then "" else "/") + Trim(value)
    ensures Trim(value) == "" && origin != "" ==> r == origin + "/"
  {
    var current := Trim(value);
    if StartsWith(current, origin) then value
    else
      var tail := (if StartsWith(current, "/") then "" else "/") + current;
      StartsWithAppend(origin, tail);
      origin + tail
  }

  /** An origin followed by a tail whose last character is not whitespace
      is trimmed. */
  lemma OriginPlusTailTrimmed(origin: string, tail: string)
    requires ValidOrigin(origin) && origin != ""
    requires |tail| > 0 && !IsWhitespace(tail[|tail| - 1])
    ensures Trimmed(origin + tail)
  {
    var r := origin + tail;
    assert r[0] == origin[0];
    assert r[|r| - 1] == tail[|tail| - 1];
  }

  /** The tail the rewrite puts after the origin ends in a non-whitespace
      character. */
  lemma QualifyTailEnds(current: string)
    requires Trimmed(current)
    ensures var tail := (if StartsWith(current, "/") then "" else "/") + current;
      |tail| > 0 && !IsWhitespace(tail[|tail| - 1])
  {
    var tail := (if StartsWith(current, "/") then "" else "/") + current;
    if current != "" {
      assert tail[|tail| - 1] == current[|current| - 1];
    } else {
      assert tail == "/";
    }
  }

  /** After one rewrite, the trimmed value starts with the origin, so a
      second rewrite keeps it. */
  lemma QualifyValueIdempotent(value: string, origin: string)
    requires ValidOrigin(origin)
    ensures StartsWith(Trim(QualifyValue(value, origin)), origin)
    ensures QualifyValue(QualifyValue(value, origin), origin) == QualifyValue(value, origin)
  {
    var current := Trim(value);
    if !StartsWith(current, origin) {
      var tail := (if StartsWith(current, "/") then "" else "/") + current;
      var r := origin + tail;
      assert QualifyValue(value, origin) == r;
      QualifyTailEnds(current);
      OriginPlusTailTrimmed(origin, tail);
      TrimOfTrimmed(r);
      StartsWithAppend(origin, tail);
      assert StartsWith(Trim(r), origin);
    }
  }

  /** One attribute of one element: only present attributes are touched. */
  function QualifyAttr(e: Element, attr: string, origin: string): (r: Element)
    ensures r.node == e.node && r.classes == e.classes && r.text == e.text
    ensures r.attrs.Keys == e.attrs.Keys
    ensures attr in e.attrs ==> r.attrs[attr] == QualifyValue(e.attrs[attr], origin)
    ensures forall a :: a in e.attrs && a != attr ==> r.attrs[a] == e.attrs[a]
  {
    if attr in e.attrs then SetAttr(e, attr, QualifyValue(e.attrs[attr], origin)) else e
  }

  /** `hx-get` and `hx-post` qualified where present; every other
      attribute, the classes and the text kept. */
  function QualifyElement(e: Element, origin: string): (r: Element)
    ensures r.node == e.node && r.classes == e.classes && r.text == e.text
    ensures r.attrs.Keys == e.attrs.Keys
    ensures "hx-get" in e.attrs ==> r.attrs["hx-get"] == QualifyValue(e.attrs["hx-get"], origin)
    ensures "hx-post" in e.attrs ==> r.attrs["hx-post"] == QualifyValue(e.attrs["hx-post"], origin)
    ensures forall a :: a in e.attrs && a != "hx-get" && a != "hx-post" ==> r.attrs[a] == e.attrs[a]
  {
    QualifyAttr(QualifyAttr(e, "hx-get", origin), "hx-post", origin)
  }

  /** `updateElements()`: every `.mf-has-url` element has its `hx-get` and
      `hx-post` qualified; nothing else changes. */
  function BaseUrlPass(doc: seq<Element>, origin: string): (r: seq<Element>)
    ensures |r| == |doc|
    ensures forall i :: 0 <= i < |doc| && "mf-has-url" !in doc[i].classes ==> r[i] == doc[i]
    ensures forall i :: 0 <= i < |doc| && "mf-has-url" in doc[i].classes ==> r[i] == QualifyElement(doc[i], origin)
  {
    ForEachWithClass(doc, "mf-has-url", e => QualifyElement(e, origin))
  }

  lemma QualifyElementIdempotent(e: Element, origin: string)
    requires ValidOrigin(origin)
    ensures QualifyElement(QualifyElement(e, origin), origin) == QualifyElement(e, origin)
  {
    var once := QualifyElement(e, origin);
    var twice := QualifyElement(once, origin);
    forall a | a in once.attrs
      ensures twice.attrs[a] == once.attrs[a]
    {
      if a == "hx-get" || a == "hx-post" {
        QualifyValueIdempotent(e.attrs[a], origin);
      }
    }
    assert twice.attrs == once.attrs;
  }

  /** Re-running the pass on its own output, as the mutation observer does,
      changes nothing. */
  lemma BaseUrlPassIdempotent(doc: seq<Element>, origin: string)
    requires ValidOrigin(origin)
    ensures BaseUrlPass(BaseUrlPass(doc, origin), origin) == BaseUrlPass(doc, origin)
  {
    forall e: Element | "mf-has-url" in e.classes
      ensures QualifyElement(QualifyElement(e, origin), origin) == QualifyElement(e, origin)
    {
      QualifyElementIdempotent(e, origin);
    }
    ForEachWithClassIdempotent(doc, "mf-has-url", e => QualifyElement(e, origin));
  }

  // ---------------------------------------------------------------------
  // Pass 2: description truncation at 75 characters
  // ---------------------------------------------------------------------

  const DescriptionMax := 75

  /** `truncateText` on one element: only a text whose trimmed form is longer
      than `max` is rewritten, to its first `max` characters and "...";
      shorter texts keep their surrounding whitespace. */
  function TruncateIfLong(e: Element, max: nat): (r: Element)
    ensures r.node == e.node && r.classes == e.classes && r.attrs == e.attrs
    ensures |Trim(e.text)| <= max ==> r.text == e.text
    ensures |Trim(e.text)| > max ==> r.text == Trim(e.text)[..max] + "..."
    ensures |Trim(r.text)| <= max + 3
  {
    var t := Trim(e.text);
    if |t| > max then
      var r := e.(text := t[..max] + "...");
      TruncatedIsTrimmed(t, max);
      r
    else
      TrimIdempotent(e.text);
      e
  }

  /** A truncated text is already trimmed: it starts where the trimmed text
      starts (or with the ellipsis) and ends with a dot. */
  lemma TruncatedIsTrimmed(t: string, max: nat)
    requires Trimmed(t) && |t| > max
    ensures Trimmed(t[..max] + "...")
    ensures Trim(t[..max] + "...") == t[..max] + "..."
  {
    var r := t[..max] + "...";
    if max > 0 {
      assert r[0] == t[0];
    }
    assert r[|r| - 1] == '.';
    TrimOfTrimmed(r);
  }

  lemma TruncateIfLongIdempotent(e: Element, max: nat)
    ensures TruncateIfLong(TruncateIfLong(e, max), max) == TruncateIfLong(e, max)
  {
    var t := Trim(e.text);
    var once := TruncateIfLong(e, max);
    if |t| > max {
      var r := t[..max] + "...";
      assert once.text == r;
      TruncatedIsTrimmed(t, max);
      assert Trim(once.text) == r;
      assert r[..max] + "..." == r;
      assert once.(text := r) == once;
    } else {
      assert once == e;
    }
  }

  /** `truncateText(".mf-course-card__description", 75)`: every description element is cut, the rest
      are kept. */
  function TruncatePass(doc: seq<Element>): (r: seq<Element>)
    ensures |r| == |doc|
    ensures forall i :: 0 <= i < |doc| && "mf-course-card__description" !in doc[i].classes ==> r[i] == doc[i]
    ensures forall i :: 0 <= i < |doc| && "mf-course-card__description" in doc[i].classes ==>
      r[i] == TruncateIfLong(doc[i], DescriptionMax) && |Trim(r[i].text)| <= DescriptionMax + 3
  {
    ForEachWithClass(doc, "mf-course-card__description", e => TruncateIfLong(e, DescriptionMax))
  }

  /** A second truncation pass leaves the document as the first one left it. */
  lemma TruncatePassIdempotent(doc: seq<Element>)
    ensures TruncatePass(TruncatePass(doc)) == TruncatePass(doc)
  {
    forall e: Element | "mf-course-card__description" in e.classes
      ensures TruncateIfLong(TruncateIfLong(e, DescriptionMax), DescriptionMax) == TruncateIfLong(e, DescriptionMax)
    {
      TruncateIfLongIdempotent(e, DescriptionMax);
    }
    ForEachWithClassIdempotent(doc, "mf-course-card__description", e => TruncateIfLong(e, DescriptionMax));
  }

  // ---------------------------------------------------------------------
  // Pass 3: display rewrite
  // ---------------------------------------------------------------------

  const ModalView := "?view=modal"

  /** The class suffix given to the course list. */
  function ListClass(display: string, detail: string): (c: string)
    ensures detail == "inlineOnModal" ==> c == "mf-course-list__scrollable-vertical"
    ensures detail != "inlineOnModal" ==> c == "mf-course-list__" + display
  {
    "mf-course-list__" + (if detail == "inlineOnModal" then "scrollable-vertical" else display)
  }

  /** The course-list class never coincides with a card button class, so
      adding it selects no new buttons. */
  lemma ListClassIsNotCardClass(display: string, detail: string)
    ensures ListClass(display, detail) != "mf-course-card__button"
  {
    assert ListClass(display, detail)[10] == 'l';
  }

  /** `getElementById(id)`: the first element in document order whose `id`
      attribute is `id`. */
  function FirstWithId(doc: seq<Element>, id: string): (r: Option<nat>)
    ensures r.Some? ==> r.value < |doc| && GetAttr(doc[r.value], "id") == Some(id)
    ensures r.Some? ==> forall j :: 0 <= j < r.value ==> GetAttr(doc[j], "id") != Some(id)
    ensures r.None? ==> forall j :: 0 <= j < |doc| ==> GetAttr(doc[j], "id") != Some(id)
  {
    if |doc| == 0 then None
    else if GetAttr(doc[0], "id") == Some(id) then Some(0)
    else match FirstWithId(doc[1..], id)
      case None => None
      case Some(i) => Some(i + 1)
  }

  /** Two documents whose elements carry the same `id` attributes, position
      by position, find the same element by id. */
  lemma {:induction false} FirstWithIdSameIds(a: seq<Element>, b: seq<Element>, id: string)
    requires |a| == |b|
    requires forall i :: 0 <= i < |a| ==> GetAttr(a[i], "id") == GetAttr(b[i], "id")
    ensures FirstWithId(a, id) == FirstWithId(b, id)
  {
    if |a| > 0 {
      FirstWithIdSameIds(a[1..], b[1..], id);
    }
  }

  /** `getElementById(id)?.classList.add(cls)`: only the first element with
      the id gains the class. When there is one and `cls` is not a valid
      token, `add` throws and `None` stands for the exception. */
  function AddClass(doc: seq<Element>, id: string, cls: string): (r: Option<seq<Element>>)
    ensures r.None? <==> FirstWithId(doc, id).Some? && !ValidToken(cls)
    ensures r.Some? ==> |r.value| == |doc|
    ensures r.Some? ==> forall i :: 0 <= i < |doc| ==>
      r.value[i].attrs == doc[i].attrs && r.value[i].text == doc[i].text && r.value[i].node == doc[i].node
    ensures r.Some? ==> forall i :: 0 <= i < |doc| ==>
      r.value[i].classes == (if FirstWithId(doc, id) == Some(i) then doc[i].classes + {cls} else doc[i].classes)
  {
    match FirstWithId(doc, id)
    case None => Some(doc)
    case Some(i) => if ValidToken(cls) then Some(doc[i := doc[i].(classes := doc[i].classes + {cls})]) else None
  }

  /** A display value with a space in it is not a valid class token. */
  lemma SpacedDisplayIsInvalid(display: string, detail: string)
    requires detail != "inlineOnModal" && ' ' in display
    ensures !ValidToken(ListClass(display, detail))
  {
    var i :| 0 <= i < |display| && display[i] == ' ';
    assert ListClass(display, detail)[16 + i] == ' ';
  }

  /** A card button in the inline detail modes: every "?view=modal" is
      removed from `hx-get` and the target becomes the detail pane. */
  function StripModalView(e: Element): (r: Element)
    ensures r.node == e.node && r.classes == e.classes && r.text == e.text
    ensures GetAttr(r, "hx-target") == Some("#mf-detail-container")
    ensures var hx := GetAttr(e, "hx-get").GetOr("");
      && (Contains(hx, ModalView) ==> GetAttr(r, "hx-get") == Some(RemoveAll(hx, ModalView)))
      && (!Contains(hx, ModalView) ==> GetAttr(r, "hx-get") == GetAttr(e, "hx-get"))
  {
    var hx := GetAttr(e, "hx-get").GetOr("");
    var e1 := if Contains(hx, ModalView) then SetAttr(e, "hx-get", RemoveAll(hx, ModalView)) else e;
    SetAttr(e1, "hx-target", "#mf-detail-container")
  }

  /** A card title in the modal detail mode: "?view=modal" is appended to
      `hx-get` unless already there, and the target becomes the modal. */
  function AddModalView(e: Element): (r: Element)
    ensures r.node == e.node && r.classes == e.classes && r.text == e.text
    ensures GetAttr(r, "hx-target") == Some("#mf-modal")
    ensures var hx := GetAttr(e, "hx-get").GetOr("");
      && (!Contains(hx, ModalView) ==> GetAttr(r, "hx-get") == Some(hx + ModalView))
      && (Contains(hx, ModalView) ==> GetAttr(r, "hx-get") == GetAttr(e, "hx-get"))
    ensures Contains(GetAttr(r, "hx-get").GetOr(""), ModalView)
  {
    var hx := GetAttr(e, "hx-get").GetOr("");
    var e1 := if Contains(hx, ModalView) then e else (ContainsAppended(hx, ModalView); SetAttr(e, "hx-get", hx + ModalView));
    SetAttr(e1, "hx-target", "#mf-modal")
  }

  /** Whether `updateDisplay()` selects the element for a rewrite. */
  predicate IsRewritten(detail: string, e: Element)
  {
    || ((detail == "inline" || detail == "inlineOnModal") && "mf-course-card__button" in e.classes)
    || (detail == "modal" && "mf-course-card__title" in e.classes)
  }

  /** The rewrite `updateDisplay()` applies to one element once the class
      has been added: card buttons in the inline modes, card titles in the
      modal mode, nothing otherwise. */
  function DisplayRewrite(detail: string, e: Element): (r: Element)
    ensures (detail == "inline" || detail == "inlineOnModal") && "mf-course-card__button" in e.classes ==> r == StripModalView(e)
    ensures detail == "modal" && "mf-course-card__title" in e.classes ==> r == AddModalView(e)
    ensures !IsRewritten(detail, e) ==> r == e
  {
    if (detail == "inline" || detail == "inlineOnModal") && "mf-course-card__button" in e.classes then StripModalView(e)
    else if detail == "modal" && "mf-course-card__title" in e.classes then AddModalView(e)
    else e
  }

  /** `updateDisplay()`: the course-list class, then the button rewrite for
      the inline modes or the title rewrite for the modal mode. When adding
      the class throws, the call ends there and the document is unchanged. */
  function DisplayPass(doc: seq<Element>, display: string, detail: string): (r: seq<Element>)
    ensures |r| == |doc|
    ensures AddClass(doc, "mf-course-list", ListClass(display, detail)).None? ==> r == doc
    ensures AddClass(doc, "mf-course-list", ListClass(display, detail)).Some? ==>
      var listed := AddClass(doc, "mf-course-list", ListClass(display, detail)).value;
      forall i :: 0 <= i < |doc| ==> r[i] == DisplayRewrite(detail, listed[i])
  {
    match AddClass(doc, "mf-course-list", ListClass(display, detail))
    case None => doc
    case Some(listed) =>
      if detail == "inline" || detail == "inlineOnModal" then
        ForEachWithClass(listed, "mf-course-card__button", StripModalView)
      else if detail == "modal" then
        ForEachWithClass(listed, "mf-course-card__title", AddModalView)
      else listed
  }

  /** A display option holding a space makes `classList.add` throw once the
      list exists, so the pass then rewrites no button and no title. */
  lemma SpacedDisplayChangesNothing(doc: seq<Element>, display: string, detail: string)
    requires detail != "inlineOnModal" && ' ' in display
    requires FirstWithId(doc, "mf-course-list").Some?
    ensures DisplayPass(doc, display, detail) == doc
  {
    SpacedDisplayIsInvalid(display, detail);
  }

  lemma AddModalViewIdempotent(e: Element)
    ensures AddModalView(AddModalView(e)) == AddModalView(e)
  {
    var once := AddModalView(e);
    assert once.attrs["hx-target"] == "#mf-modal";
    assert once.attrs[ "hx-target" := "#mf-modal"] == once.attrs;
  }

  /** The button rewrite is stable once its result no longer contains the
      marker: stripping every occurrence can create a new one, so this is a
      condition on the value, not a fact about every input. */
  predicate StripStable(e: Element)
  {
    var hx := GetAttr(e, "hx-get").GetOr("");
    !Contains(hx, ModalView) || !Contains(RemoveAll(hx, ModalView), ModalView)
  }

  lemma StripModalViewIdempotent(e: Element)
    requires StripStable(e)
    ensures StripModalView(StripModalView(e)) == StripModalView(e)
  {
    var once := StripModalView(e);
    assert once.attrs["hx-target" := "#mf-detail-container"] == once.attrs;
  }

  /** The value that stripping turns into the marker: "?view", the marker,
      then "=modal". */
  const Recreating := "?view" + ModalView + "=modal"

  /** The marker does not start in any of the first five positions of the
      recreating value. */
  lemma NoEarlyModalView()
    ensures forall i :: 0 <= i < 5 ==> !OccursAt(Recreating, ModalView, i)
  {
    var h := "?view";
    var s := Recreating;
    assert s[..11][5] == ModalView[0];
    assert ModalView[0] != ModalView[5];
    forall i | 1 <= i < 5
      ensures !OccursAt(s, ModalView, i)
    {
      assert s[i] == h[i];
      assert h[i] != '?';
      assert s[i..i + 11][0] == s[i];
    }
  }

  /** Deleting the marker from the recreating value leaves the marker. */
  lemma RemoveModalViewRecreates()
    ensures Contains(Recreating, ModalView)
    ensures RemoveAll(Recreating, ModalView) == ModalView
  {
    var s := Recreating;
    assert OccursAt(s, ModalView, 5) by { assert s[5..16] == ModalView; }
    NoEarlyModalView();
    RemoveAllSkip(s, ModalView, 5);
    var t := s[5..];
    assert t[..11] == ModalView;
    assert t[11..] == "=modal";
    assert RemoveAll(t, ModalView) == RemoveAll("=modal", ModalView);
    assert s[..5] == "?view";
  }

  /** Deleting the marker from the marker itself leaves nothing. */
  lemma RemoveModalViewSelf()
    ensures Contains(ModalView, ModalView)
    ensures RemoveAll(ModalView, ModalView) == ""
  {
    assert OccursAt(ModalView, ModalView, 0);
    assert ModalView[..11] == ModalView;
    assert ModalView[11..] == "";
  }

  /** The one input class on which the inline branch is not idempotent: a
      value in which deleting the marker produces the marker again. */
  lemma StripModalViewNotIdempotent()
    ensures var e := Element(0, {"mf-course-card__button"}, map["hx-get" := Recreating], "");
      && GetAttr(StripModalView(e), "hx-get") == Some(ModalView)
      && GetAttr(StripModalView(StripModalView(e)), "hx-get") == Some("")
  {
    RemoveModalViewRecreates();
    RemoveModalViewSelf();
  }

  /** The display pass keeps every element's `id` in place, so a second pass
      finds the same course list. */
  lemma DisplayPassSameList(doc: seq<Element>, display: string, detail: string)
    ensures FirstWithId(DisplayPass(doc, display, detail), "mf-course-list") == FirstWithId(doc, "mf-course-list")
  {
    var once := DisplayPass(doc, display, detail);
    var added := AddClass(doc, "mf-course-list", ListClass(display, detail));
    if added.Some? {
      forall i | 0 <= i < |doc|
        ensures GetAttr(once[i], "id") == GetAttr(doc[i], "id")
      {
        assert once[i] == DisplayRewrite(detail, added.value[i]);
      }
      FirstWithIdSameIds(once, doc, "mf-course-list");
    }
  }

  /** One element of the display pass is unchanged by a second pass. */
  lemma DisplayPassStableAt(doc: seq<Element>, display: string, detail: string, i: nat)
    requires i < |doc|
    requires (detail == "inline" || detail == "inlineOnModal") && "mf-course-card__button" in doc[i].classes ==> StripStable(doc[i])
    ensures DisplayPass(DisplayPass(doc, display, detail), display, detail)[i] == DisplayPass(doc, display, detail)[i]
  {
    var cls := ListClass(display, detail);
    var once := DisplayPass(doc, display, detail);
    var added := AddClass(doc, "mf-course-list", cls);
    if added.Some? {
      var listed := added.value;
      DisplayPassSameList(doc, display, detail);
      var readded := AddClass(once, "mf-course-list", cls);
      assert readded.Some?;
      var relisted := readded.value;
      assert once[i] == DisplayRewrite(detail, listed[i]);
      assert relisted[i].classes == once[i].classes;
      assert relisted[i] == once[i];
      if (detail == "inline" || detail == "inlineOnModal") && "mf-course-card__button" in listed[i].classes {
        ListClassIsNotCardClass(display, detail);
        assert "mf-course-card__button" in doc[i].classes;
        assert GetAttr(listed[i], "hx-get") == GetAttr(doc[i], "hx-get");
        StripModalViewIdempotent(listed[i]);
      } else if detail == "modal" && "mf-course-card__title" in listed[i].classes {
        AddModalViewIdempotent(listed[i]);
      }
    }
  }

  /** With the modal detail mode the display pass is idempotent; with the
      inline modes it is idempotent on every document whose buttons are
      stable under stripping. A pass whose class cannot be added changes
      nothing, so it is idempotent too. */
  lemma DisplayPassIdempotent(doc: seq<Element>, display: string, detail: string)
    requires detail == "inline" || detail == "inlineOnModal" ==>
      forall i :: 0 <= i < |doc| && "mf-course-card__button" in doc[i].classes ==> StripStable(doc[i])
    ensures DisplayPass(DisplayPass(doc, display, detail), display, detail) == DisplayPass(doc, display, detail)
  {
    var once := DisplayPass(doc, display, detail);
    forall i | 0 <= i < |doc|
      ensures DisplayPass(once, display, detail)[i] == once[i]
    {
      DisplayPassStableAt(doc, display, detail, i);
    }
  }
}
