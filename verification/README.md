# Micro-frontend toolkit: a Dafny model

The toolkit serves a course catalogue as HTML fragments and embeds them into host pages with a JavaScript loader. This project models the two parts of it that make decisions and rewrite data:

- **The loader.** There are two versions, v1 (`assets/sdk/micro-frontend-sdk.js`) and v2 (`assets/sdk/micro-frontend-sdk-v2.js`). The model covers:
  - option defaults and colour validation;
  - keyword detection and the `?`/`&` query-parameter rule;
  - the v2 theme-variable block;
  - the choice of main view and detail handler;
  - the click walk that finds a detail trigger;
  - the passes that the mutation observers re-run on every change: origin qualification of `hx-get`/`hx-post`, description truncation, and v1's display rewrite of card buttons and titles.
- **The Go server after I/O.** The model covers:
  - the code-to-label table;
  - the flattening of GraphQL edges into course views;
  - the single-course view;
  - grouping of the curriculum by module;
  - the status-code and section logic of the course handlers;
  - the bearer-token middleware.

The DOM is abstract. An element is a record of a node identity, a class set, an attribute map and its text. A document is the sequence of its elements in document order. A click is the path from the clicked element up through its ancestors.

Some browser and library calls become function parameters:

- `encodeURIComponent` (`enc`);
- `querySelector` (`lookup`, `probe`);
- the HTML sanitiser (`sanitize`);
- the JSON decoders (`decode`, `asArray`, `asString`);
- the course lookup of the handlers (`fetch`).

`new URL(u).origin` is an input string. The HTTP exchange is an input: a transport result that carries the status and the body.

Files:
- `wrappers.dfy`: `Option`, `Result`.
- `strings.dfy`: JavaScript trimming, prefix and substring tests, `replaceAll` with the empty string, `strings.Join`, `fmt.Sprint` and `strconv.Atoi` for integers.
- `dom.dfy`: elements, the fetch directives, the detail overlay, the class-selected pass and the query-parameter rule.
- `color.dfy`: the colour regular expression.
- `loader_v1.dfy`, `loader_v2.dfy`: the two loaders.
- `courses.dfy`: records, `formatValue` and the two views.
- `handlers.dfy`: `groupByModule` and the handlers.
- `auth.dfy`: the middleware.
- `versions.dfy`: where the two loader versions decide differently.

Each truncation pass reaches a fixed point after one pass: a second run over its own output changes nothing. Both origin-qualification passes are idempotent too: v1 needs an origin without whitespace, which the URL parser guarantees, and v2 needs no assumption. v1's button rewrite is idempotent only for values whose stripped form no longer contains the marker (see Left out).

## Model

| member | source | states |
|---|---|---|
| Strings.Trim | assets/sdk/micro-frontend-sdk.js:127 | `String.prototype.trim`: the result has no ECMAScript whitespace or line terminator at either end and is no longer than the input |
| Strings.TrimIsInfix | assets/sdk/micro-frontend-sdk.js:127 | the input is some whitespace, then the trimmed text, then some whitespace |
| Strings.TrimIdempotent | assets/sdk/micro-frontend-sdk-v2.js:394 | trimming a trimmed text changes nothing |
| Strings.RemoveAll | assets/sdk/micro-frontend-sdk.js:256 | `replaceAll(p, "")` with a non-empty pattern: never longer than the input, and unchanged when the pattern does not occur |
| Strings.RemoveAllDeletesLeftmost | assets/sdk/micro-frontend-sdk.js:256 | the leftmost occurrence is deleted, the text before it is kept, and removal goes on after it, so occurrences are deleted left to right without overlap |
| Strings.RemoveAllSkip | assets/sdk/micro-frontend-sdk.js:256 | a prefix in which no occurrence starts is kept as it is, and removal goes on after it |
| Strings.AsciiLower | assets/sdk/micro-frontend-sdk.js:130 | `toLowerCase` on the page text: same length, upper-case ASCII letters mapped to lower case |
| Strings.Join | graph/getCourses.go:197 | `strings.Join`: the empty list gives "", one element gives itself |
| Strings.JoinSnoc | graph/getCourses.go:197-204 | joining a list with one more element appends the separator and that element, as the append loop does |
| Strings.IntText | graph/getCourses.go:208 | `fmt.Sprint` of an `int`: digits only for non-negative values, a minus sign and digits otherwise |
| Strings.Atoi | handlers/course.go:38 | `strconv.Atoi`: an optional sign followed by at least one digit gives the signed value of the digits when it fits in 64 bits, and "value out of range" when it does not; any other text fails with "value out of range" when a digit prefix after the sign already exceeds `uint64` (read left to right, before the bad character), and with "invalid syntax" otherwise |
| Strings.ParseError | handlers/course.go:38 | the error for malformed text: "value out of range" exactly when some all-digit prefix exceeds `uint64`, "invalid syntax" otherwise |
| Strings.OverflowIffRunOverflows | handlers/course.go:38 | some all-digit prefix overflows exactly when the whole leading digit run does |
| Strings.OverflowBeforeBadCharacter | handlers/course.go:38 | a digit run beyond `uint64` is a range error whatever characters follow it |
| Strings.AtoiOfIntText | graph/getCourses.go:208 | the id text of a view parses back to the id, for every 64-bit id |
| Dom.OrElse | assets/sdk/micro-frontend-sdk.js:18-21 | `o \|\| default`: the value when present and non-empty, otherwise the default |
| Dom.SetAttr | assets/sdk/micro-frontend-sdk.js:169 | `setAttribute`: the attribute is set and no other attribute, class or text changes |
| Dom.LoadInto | assets/sdk/micro-frontend-sdk.js:352-359 | the three fetch directives are set to the URL, "load" and "innerHTML", and every other attribute is kept |
| Dom.ForEachWithClass | assets/sdk/micro-frontend-sdk.js:160-173 | `querySelectorAll(".cls").forEach(f)`: exactly the elements with the class are rewritten, in place |
| Dom.ForEachWithClassIdempotent | assets/sdk/micro-frontend-sdk.js:160-173 | a per-element rewrite that keeps the class and is a fixed point on its own output makes the whole pass idempotent |
| Dom.Separator | assets/sdk/micro-frontend-sdk.js:36 | "&" exactly when the URL already contains "?", otherwise "?" |
| Dom.WithParam | assets/sdk/micro-frontend-sdk-v2.js:66-69 | the URL is a strict prefix of the result, followed by the separator, the name, "=" and the value |
| Dom.WithParamThenAmpersand | assets/sdk/micro-frontend-sdk.js:36-37 | once a parameter has been added, the next one is joined with "&" |
| Dom.WithKeyword | assets/sdk/micro-frontend-sdk.js:35-38 | an empty keyword leaves the URL unchanged; otherwise the URL is followed by the separator, the name, "=" and the encoded keyword |
| ColorGrammar.ScanIffDerives | assets/sdk/micro-frontend-sdk.js:99 | on well-formed patterns, the greedy scanner accepts exactly the strings the regular-expression alternative derives |
| ColorGrammar.RgbWellFormed | assets/sdk/micro-frontend-sdk.js:99 | in the `rgb(...)` alternative every repetition is followed by a token that cannot continue it |
| ColorGrammar.RgbaWellFormed | assets/sdk/micro-frontend-sdk.js:99 | the same for `rgba(...)` |
| ColorGrammar.HslWellFormed | assets/sdk/micro-frontend-sdk.js:99 | the same for `hsl(...)` |
| ColorGrammar.HslaWellFormed | assets/sdk/micro-frontend-sdk.js:99 | the same for `hsla(...)` |
| ColorGrammar.ScanMatchesSyntax | assets/sdk/micro-frontend-sdk.js:98-100 | hex or the four functional forms, recognised by scanning, are exactly the colour syntax |
| ColorGrammar.ValidateColor | assets/sdk/micro-frontend-sdk.js:97-101 | returns the colour unchanged exactly when it matches the syntax, and null exactly when it does not |
| LoaderV1.ColorOr | assets/sdk/micro-frontend-sdk.js:23-28 | a colour option is kept when present and valid, and is replaced by the default otherwise |
| LoaderV1.ResolveTheme | assets/sdk/micro-frontend-sdk.js:22-28 | font family defaults to "sans-serif"; text and button colours default to "#00b074"; button text defaults to "#fff" |
| LoaderV1.ResolvedColorsValid | assets/sdk/micro-frontend-sdk.js:23-28 | every colour written to the style block satisfies the colour syntax |
| LoaderV1.PageContext | assets/sdk/micro-frontend-sdk.js:124-134 | a non-empty meta content gives its trimmed value; otherwise "course" if the lower-cased body contains "course"; otherwise "" |
| LoaderV1.PageContextIsTrimmed | assets/sdk/micro-frontend-sdk.js:124-134 | the page context never has whitespace at either end |
| LoaderV1.ResolveKeyword | assets/sdk/micro-frontend-sdk.js:31-34 | the page context, or the default keyword when the context is empty |
| LoaderV1.PageContextOverridesDefault | assets/sdk/micro-frontend-sdk.js:31-34 | with a non-empty page context the default keyword makes no difference |
| LoaderV1.DefaultKeywordSkipsDetails | assets/sdk/micro-frontend-sdk.js:31-37 | with an empty page context the default keyword is the service URL's tag, yet a detail URL gets no keyword at all |
| LoaderV1.ResolveOptions | assets/sdk/micro-frontend-sdk.js:16-38 | fails exactly when no `cssMap` is given; otherwise every default is applied and the keyword is added as `tag` to the service URL |
| LoaderV1.ModalOverlay | assets/sdk/micro-frontend-sdk.js:364-414 | the overlay "mf-modal" with a "Close" control and a content node that fetches the URL |
| LoaderV1.HandlerFor | assets/sdk/micro-frontend-sdk.js:78-82 | modal handler iff "modal"; inline handler iff "inline"; none for any other mode, including "inlineOnModal" |
| LoaderV1.Dispatch | assets/sdk/micro-frontend-sdk.js:62-90 | inline mode needs a truthy target that is found, and otherwise nothing is loaded; "modal" opens an overlay; any other mode is an error |
| LoaderV1.InlineMainNeedsTarget | assets/sdk/micro-frontend-sdk.js:62-82 | an inline main view is set up iff the mode is inline, the target is truthy and the target is found |
| LoaderV1.Init | assets/sdk/micro-frontend-sdk.js:16-91 | fails iff `cssMap` is missing; the stylesheet comes from the service origin; the main view is the dispatch of the resolved settings |
| LoaderV1.WalkLimit | assets/sdk/micro-frontend-sdk.js:423 | the walk stops at the container, or at the end of the ancestor path |
| LoaderV1.FindDetail | assets/sdk/micro-frontend-sdk.js:421-443 | the first "mf-detail" element strictly below the container, and none exactly when no element before the container has the class |
| LoaderV1.ModalClick | assets/sdk/micro-frontend-sdk.js:420-445 | no trigger: default action; a trigger without a URL: an error; otherwise an overlay on the URL plus the page-context keyword |
| LoaderV1.DetailUrl | assets/sdk/micro-frontend-sdk.js:428-433 | with an empty page context the URL is unchanged; otherwise it is followed by the separator, "keyword=" and the encoded context |
| LoaderV1.InlineClick | assets/sdk/micro-frontend-sdk.js:451-490 | as the modal click, but loads the detail pane, reports a missing pane, and never opens an overlay |
| LoaderV1.QualifyValue | assets/sdk/micro-frontend-sdk.js:162-170 | a trimmed value that starts with the origin is kept; otherwise origin, "/" unless present, then the trimmed value; an empty value becomes origin + "/" |
| LoaderV1.QualifyValueIdempotent | assets/sdk/micro-frontend-sdk.js:162-170 | for a whitespace-free origin, qualifying a qualified value changes nothing |
| LoaderV1.QualifyAttr | assets/sdk/micro-frontend-sdk.js:161-172 | only present attributes are rewritten; other attributes, classes and text are kept |
| LoaderV1.QualifyElement | assets/sdk/micro-frontend-sdk.js:160-173 | `hx-get` and `hx-post` are qualified where present; no attribute is added or removed; every other attribute, the classes and the text are kept |
| LoaderV1.QualifyElementIdempotent | assets/sdk/micro-frontend-sdk.js:160-173 | rewriting `hx-get` and `hx-post` of one element twice equals once |
| LoaderV1.BaseUrlPass | assets/sdk/micro-frontend-sdk.js:159-174 | exactly the `.mf-has-url` elements are qualified, in place; every other element is kept |
| LoaderV1.BaseUrlPassIdempotent | assets/sdk/micro-frontend-sdk.js:159-174 | the origin-qualification pass over the document is idempotent |
| LoaderV1.TruncateIfLong | assets/sdk/micro-frontend-sdk.js:201-208 | a trimmed text longer than 75 becomes its first 75 characters and "..."; shorter texts are left exactly as they were; the trimmed result is at most max + 3 long |
| LoaderV1.TruncateIfLongIdempotent | assets/sdk/micro-frontend-sdk.js:202-207 | truncating a truncated element changes nothing |
| LoaderV1.TruncatePass | assets/sdk/micro-frontend-sdk.js:201-211 | exactly the description elements are cut at 75 characters, and their trimmed text is at most 78 long; every other element of the flat document is kept (descriptions are leaves, see Left out) |
| LoaderV1.TruncatePassIdempotent | assets/sdk/micro-frontend-sdk.js:201-211 | the description pass at 75 characters is idempotent |
| LoaderV1.ListClass | assets/sdk/micro-frontend-sdk.js:244-246 | "scrollable-vertical" for "inlineOnModal", the display value otherwise |
| LoaderV1.ListClassIsNotCardClass | assets/sdk/micro-frontend-sdk.js:244-251 | the list class is never the card button class, so adding it selects no new buttons |
| LoaderV1.FirstWithId | assets/sdk/micro-frontend-sdk.js:242 | `getElementById`: the first element in document order with that id, or none |
| LoaderV1.AddClass | assets/sdk/micro-frontend-sdk.js:242-246 | fails, as `classList.add` throws, exactly when an element has the id and the class is empty or holds whitespace; otherwise only the first element with the id gains the class and nothing else changes |
| LoaderV1.SpacedDisplayIsInvalid | assets/sdk/micro-frontend-sdk.js:244-246 | a display option holding a space gives a list class that `classList.add` rejects |
| LoaderV1.SpacedDisplayChangesNothing | assets/sdk/micro-frontend-sdk.js:240-275 | with such a display option and an existing list, the display pass leaves the document unchanged |
| LoaderV1.StripModalView | assets/sdk/micro-frontend-sdk.js:253-259 | the target becomes "#mf-detail-container"; `hx-get` loses every "?view=modal" when it contains one, and is otherwise unchanged |
| LoaderV1.AddModalView | assets/sdk/micro-frontend-sdk.js:267-272 | the target becomes "#mf-modal"; `hx-get` gains "?view=modal" only when absent, and afterwards always contains it |
| LoaderV1.DisplayRewrite | assets/sdk/micro-frontend-sdk.js:248-275 | buttons are stripped in the inline modes, titles are marked in the modal mode, and every other element, or every element in any other mode, is kept |
| LoaderV1.DisplayPass | assets/sdk/micro-frontend-sdk.js:240-275 | the list class first; if adding it fails the document is unchanged; otherwise each element gets the display rewrite of the mode |
| LoaderV1.AddModalViewIdempotent | assets/sdk/micro-frontend-sdk.js:264-275 | the title rewrite is idempotent |
| LoaderV1.StripModalViewIdempotent | assets/sdk/micro-frontend-sdk.js:253-259 | the button rewrite is idempotent on values whose stripped form no longer contains the marker |
| LoaderV1.StripModalViewNotIdempotent | assets/sdk/micro-frontend-sdk.js:255-257 | "?view?view=modal=modal" strips to "?view=modal" and then to "": the button rewrite is not idempotent in general |
| LoaderV1.DisplayPassIdempotent | assets/sdk/micro-frontend-sdk.js:240-275 | the display pass is idempotent for the modal mode, and for the inline modes when every button's value is stable |
| LoaderV2.SelectorOr | assets/sdk/micro-frontend-sdk-v2.js:47-51 | an absent selector object, or an absent or empty field, gives the default selector |
| LoaderV2.CssMapOr | assets/sdk/micro-frontend-sdk-v2.js:52-57 | the four variable names, each the caller's when truthy, else "--mf-font-family", "--mf-text-color", "--mf-button-text" or "--mf-button-bg" |
| LoaderV2.MergeConfig | assets/sdk/micro-frontend-sdk-v2.js:40-59 | every field is the caller's value when truthy, else its default; a falsy target becomes null |
| LoaderV2.MergeConfigFixpoint | assets/sdk/micro-frontend-sdk-v2.js:40-59 | merging a merged configuration again gives it back |
| LoaderV2.CssEntries | assets/sdk/micro-frontend-sdk-v2.js:115 | exactly four entries, in the order fontFamily, color, buttonColor, buttonBg, and every key is one of the four configuration keys |
| LoaderV2.DetectKeyword | assets/sdk/micro-frontend-sdk-v2.js:629-632 | the trimmed meta content when non-empty, otherwise the default keyword |
| LoaderV2.BlankMetaFallsThrough | assets/sdk/micro-frontend-sdk-v2.js:631 | a whitespace-only meta content gives the default keyword |
| LoaderV2.PrepareServiceUrl | assets/sdk/micro-frontend-sdk-v2.js:64-71 | an empty keyword leaves the URL unchanged; otherwise the URL is a strict prefix followed by the separator, "keyword=" and the encoded keyword |
| LoaderV2.AddKeywordParamAsWritten | assets/sdk/micro-frontend-sdk-v2.js:620-624 | as written: unchanged for an empty keyword, otherwise the separator, "keyword=" and the literal placeholder text |
| LoaderV2.AddKeywordParamIgnoresKeyword | assets/sdk/micro-frontend-sdk-v2.js:620-624 | as written, every non-empty keyword gives the same detail URL |
| LoaderV2.AddKeywordParam | assets/sdk/micro-frontend-sdk-v2.js:620-624 | as intended: the same rule as the service URL, with the encoded keyword |
| LoaderV2.AddKeywordParamDiffers | assets/sdk/micro-frontend-sdk-v2.js:620-624 | written and intended detail URLs differ for every keyword whose encoding is not the placeholder text |
| LoaderV2.CapturedField | assets/sdk/micro-frontend-sdk-v2.js:118 | for the four configuration keys, `styles[role]?.[prop]` is the captured fontFamily or color of a captured role, and absent for an uncaptured role and for any key other than fontFamily and color |
| LoaderV2.ExtractParentStyles | assets/sdk/micro-frontend-sdk-v2.js:94-108 | fails iff a selector is rejected; otherwise the keys are among "body" and "button", and each is present exactly when its selector finds an element |
| LoaderV2.NormalizeProp | assets/sdk/micro-frontend-sdk-v2.js:128-130 | deleting words never lengthens the name |
| LoaderV2.NormalizeKeepsPrefix | assets/sdk/micro-frontend-sdk-v2.js:128-130 | a prefix in which no deleted word can start passes through unchanged |
| LoaderV2.NormalizeDropsWord | assets/sdk/micro-frontend-sdk-v2.js:128-130 | "Color", "Bg" or "FontFamily" at the front is deleted and normalisation carries on after it |
| LoaderV2.NormalizedKeys | assets/sdk/micro-frontend-sdk-v2.js:128-130 | "fontFamily" and "color" are unchanged; "buttonColor" and "buttonBg" become "button" |
| LoaderV2.StyleFallback | assets/sdk/micro-frontend-sdk-v2.js:135-143 | the four-entry fallback table for the four configuration keys |
| LoaderV2.VarValue | assets/sdk/micro-frontend-sdk-v2.js:117-118 | the captured field under the normalised role when truthy, otherwise the fallback |
| LoaderV2.Declarations | assets/sdk/micro-frontend-sdk-v2.js:115-120 | one "name: value;" per entry, starting with the first entry; a single entry gives exactly its declaration |
| LoaderV2.DeclarationsAppend | assets/sdk/micro-frontend-sdk-v2.js:115-120 | the declarations of two lists in a row are those of the first list followed by those of the second, so each entry contributes its own declaration in order |
| LoaderV2.GenerateCssVariables | assets/sdk/micro-frontend-sdk-v2.js:113-123 | ":host {", the declarations of the four entries in order, then "}" |
| LoaderV2.NothingCapturedIsFallback | assets/sdk/micro-frontend-sdk-v2.js:117-118 | with no captured styles every variable takes its fallback |
| LoaderV2.PlainKeysMiss | assets/sdk/micro-frontend-sdk-v2.js:96-104 | "fontFamily" and "color" name roles that extraction never produces |
| LoaderV2.ButtonKeysMiss | assets/sdk/micro-frontend-sdk-v2.js:100-104 | the button record has no "buttonColor" or "buttonBg" field |
| LoaderV2.ThemeIsAlwaysFallback | assets/sdk/micro-frontend-sdk-v2.js:113-130 | for any extracted styles, the block equals the one generated from no styles: every variable takes its fallback |
| LoaderV2.FallbackCssDeclaresFallbacks | assets/sdk/micro-frontend-sdk-v2.js:158-167 | the fixed fallback text declares each value of the fallback table, under `--mf-font`, `--mf-text`, `--mf-btn-text` and `--mf-btn-bg` |
| LoaderV2.FallbackCssNamesDiffer | assets/sdk/micro-frontend-sdk-v2.js:158-167 | none of those names is the default variable name the generated block declares for the same key |
| LoaderV2.AdaptStyles | assets/sdk/micro-frontend-sdk-v2.js:80-89 | the fixed fallback text when extraction throws, otherwise the all-fallback block |
| LoaderV2.ModalOverlay | assets/sdk/micro-frontend-sdk-v2.js:317-360 | the overlay "mf-modal-overlay" with a "×" control and a content node that fetches the URL |
| LoaderV2.Dispatch | assets/sdk/micro-frontend-sdk-v2.js:182-206 | inline iff mainMode is "inline": the wrapper loads the URL, with the modal handler iff detailMode is "modal" and the inline one otherwise; any other mode gives one overlay and no handler |
| LoaderV2.Closest | assets/sdk/micro-frontend-sdk-v2.js:535 | `closest(".mf-detail")`: the first marked element on the whole ancestor path, not stopping at the container |
| LoaderV2.ModalClick | assets/sdk/micro-frontend-sdk-v2.js:533-552 | no trigger: default action; a trigger without a truthy URL: nothing; otherwise an overlay on the URL extended by `_addKeywordParam` as written |
| LoaderV2.InlineClick | assets/sdk/micro-frontend-sdk-v2.js:506-565 | a missing pane is reported; a missing URL loads "undefined" without a keyword and throws with one; otherwise the pane loads the URL extended by `_addKeywordParam` as written |
| LoaderV2.ClicksIgnoreKeyword | assets/sdk/micro-frontend-sdk-v2.js:533-565 | as written, both click handlers behave the same for every non-empty keyword |
| LoaderV2.ModalClickMissesKeyword | assets/sdk/micro-frontend-sdk-v2.js:533-552 | as written, the overlay never opens on the URL with the encoded keyword added, whenever that encoding is not the placeholder text |
| LoaderV2.Init | assets/sdk/micro-frontend-sdk-v2.js:20-31 | fails iff the target, or "null", finds no container; otherwise keyword, service URL, stylesheet, theme and main view are as above |
| LoaderV2.QualifyValue | assets/sdk/micro-frontend-sdk-v2.js:418-423 | a truthy value that does not start with the origin gets the origin and "/" unless present; other values, including empty and missing ones, are untouched; no trimming |
| LoaderV2.QualifyValueIdempotent | assets/sdk/micro-frontend-sdk-v2.js:418-423 | qualifying a qualified value changes nothing, for every origin |
| LoaderV2.QualifyAttr | assets/sdk/micro-frontend-sdk-v2.js:417-424 | the attribute becomes the qualified value and every other attribute is kept |
| LoaderV2.QualifyElement | assets/sdk/micro-frontend-sdk-v2.js:416-426 | `hx-get` and `hx-post` are qualified; every other attribute, the classes and the text are kept |
| LoaderV2.QualifyElementIdempotent | assets/sdk/micro-frontend-sdk-v2.js:416-426 | rewriting one element twice equals once |
| LoaderV2.BaseUrlPass | assets/sdk/micro-frontend-sdk-v2.js:414-427 | exactly the `.mf-has-url` elements are qualified, in place; every other element is kept |
| LoaderV2.BaseUrlPassIdempotent | assets/sdk/micro-frontend-sdk-v2.js:414-427 | the origin-qualification pass is idempotent |
| LoaderV2.Truncate | assets/sdk/micro-frontend-sdk-v2.js:389-397 | the text is always trimmed, and cut to max characters plus "..." when longer; the result is trimmed and at most max + 3 long |
| LoaderV2.TruncateIdempotent | assets/sdk/micro-frontend-sdk-v2.js:389-397 | truncating a truncated element changes nothing |
| LoaderV2.TruncatePass | assets/sdk/micro-frontend-sdk-v2.js:389-398 | exactly the description elements are rewritten, each to a trimmed text of at most max + 3 characters; every other element of the flat document is kept (descriptions are leaves, see Left out) |
| LoaderV2.TruncatePassIdempotent | assets/sdk/micro-frontend-sdk-v2.js:389-398 | the description pass, at 60 in the shadow root or 75 in the document, is idempotent |
| Versions.DetailHandlersAcrossVersions | assets/sdk/micro-frontend-sdk.js:78-82 | with an inline main view both loaders wire the same handler for "modal" and "inline"; for every other detail mode, "inlineOnModal" included, v1 wires none and v2 the inline one |
| Versions.UnknownMainModeAcrossVersions | assets/sdk/micro-frontend-sdk.js:83-89 | a main mode other than "inline" and "modal" is an error in v1 and an overlay on the service URL in v2 |
| Courses.MapProse | graph/getCourseById.go:183-198 | each of the sixteen long-text fields of the view is the sanitised field of the course |
| Courses.FormatValue | graph/getCourses.go:225-233 | the label for a known category and an exact, case-sensitive code; the value unchanged otherwise |
| Courses.LabelsAreNotCodes | graph/getCourses.go:51-68 | no label of a category is also a code of that category |
| Courses.FormatValueIdempotent | graph/getCourses.go:51-68 | formatting a formatted value changes nothing |
| Courses.FormatAll | graph/getCourses.go:193-196 | one formatted value per code, in order |
| Courses.JoinFormatted | graph/getCourses.go:192-205 | the append loop gives the ", "-join of the formatted codes; "" for no codes; the label alone for one |
| Courses.ListView | graph/getCourses.go:189-218 | decimal id text, joined formatted delivery and frequency, only overview and job outcomes sanitised, other view fields empty |
| Courses.GetCourses | graph/getCourses.go:169-221 | transport errors are passed on; a non-200 status is an error; a decoding error is wrapped; succeeds exactly when the reply is 200 and decodes, with one list view per edge, in order |
| Courses.StatusBeforeDecode | graph/getCourses.go:169-184 | with a non-200 status the result is an error that does not depend on the decoder |
| Courses.TagFilterUnused | graph/getCourses.go:70-131 | the result does not depend on the tag filter |
| Courses.ListIdsRoundTrip | graph/getCourses.go:208 | every list view's id text parses back to its course id |
| Courses.DecodeArrayOrString | graph/getCourseById.go:150-165 | empty gives nothing; an array is taken; otherwise a non-empty string is decoded as an array; every failure gives nothing |
| Courses.DetailView | graph/getCourseById.go:139-199 | decimal id text, raw joined delivery, the first testimonial or "", the formatted geo-targeting, and every long-text field sanitised |
| Courses.GetCourseById | graph/getCourseById.go:125-199 | transport and decoding errors are passed on; succeeds exactly when the reply decodes; no edge gives the zero view and no error; otherwise exactly the detail view of the first edge |
| Courses.DetailIgnoresStatus | graph/getCourseById.go:118-130 | the HTTP status never affects the single-course result |
| Courses.DetailUsesFirstEdge | graph/getCourseById.go:138-139 | edges after the first never affect the result |
| Courses.DetailGeoStable | graph/getCourseById.go:174-175 | the geo-targeting of a detail view is a fixed point of formatting |
| Handlers.Clean | handlers/course.go:108-112 | a listed subject keeps its code and name, has its details sanitised, and has no module |
| Handlers.CleanAll | handlers/course.go:108-112 | each subject keeps its code and name, has its details sanitised, and has no module |
| Handlers.AddToLast | handlers/course.go:116-122 | only the latest group changes, gaining one subject at its end |
| Handlers.Step | handlers/course.go:104-123 | one iteration: a module-bearing item opens a new group; another item joins the latest group, or is dropped when there is none |
| Handlers.StepModules | handlers/course.go:104-123 | one iteration adds a module name exactly for a module-bearing item |
| Handlers.StepFlatten | handlers/course.go:104-123 | one iteration that keeps its item appends it, cleaned, to the listed subjects |
| Handlers.Group | handlers/course.go:99-127 | never more groups than items, and a module-bearing last item opens the last group alone |
| Handlers.GroupModules | handlers/course.go:99-127 | the groups' modules are the module-bearing items' modules, one each, in order |
| Handlers.GroupsNonEmpty | handlers/course.go:106-113 | every group has at least one subject |
| Handlers.NoModuleNoGroups | handlers/course.go:116 | items without a module and with no earlier group are dropped: with no module-bearing item there are no groups |
| Handlers.GroupFlatten | handlers/course.go:103-124 | concatenating the groups' subjects gives the cleaned items from the first module-bearing item onward, in order |
| Handlers.GroupByModule | handlers/course.go:99-127 | the loop gives the grouping, one group per module-bearing item in order, all non-empty |
| Handlers.CourseHandler | handlers/course.go:36-93 | a non-integer id gives 400 "Invalid course ID"; 0 gives 400 "ID is required"; a lookup error writes nothing; a zero-id course gives 404; otherwise the page with the grouped curriculum and the enquiry URL or its default |
| Handlers.CourseHandlerBadRequest | handlers/course.go:37-48 | the page answers 400 exactly when the id does not parse or is zero |
| Handlers.CoursePageShowsFetchedCourse | handlers/course.go:50-87 | a rendered page shows the course the lookup returned for the parsed, non-zero id, and that course's id is non-zero |
| Handlers.CourseHandlerZeroNotFetched | handlers/course.go:44-50 | with id 0 the lookup is never consulted |
| Handlers.Partial | handlers/course.go:150-293 | the section-to-field choice of the five handlers; every fragment is sanitised except the partner name |
| Handlers.UnknownSectionIsDefault | handlers/course.go:150-293 | an unknown or absent section gives the handler's default fragment |
| Handlers.SectionSanitisesTwice | handlers/course.go:152-160 | fragments of a looked-up course are the raw fields sanitised twice; the partner name is raw |
| Handlers.SectionHandler | handlers/course.go:129-166 | a non-integer id gives 400; a lookup error writes nothing; a zero-id course gives 404; otherwise 200 with the fragment |
| Handlers.SectionAcceptsZeroId | handlers/course.go:129-147 | unlike the page, a section handler passes id 0 to the lookup and can answer 200 |
| Handlers.NoEdgeIsNotFound | handlers/course.go:144-147 | a lookup reply with no edge makes every section handler answer 404 |
| Auth.TrimPrefix | middleware/auth.go:20 | `strings.TrimPrefix`: the prefix plus the result gives the input when the prefix is present; otherwise the input unchanged |
| Auth.Authorize | middleware/auth.go:13-28 | a header without the exact "Bearer " prefix gives 401 "Unauthorized"; exactly "Bearer " gives 401 "Invalid token"; the request goes on iff the header is longer than the prefix |
| Auth.AnyTokenPasses | middleware/auth.go:20-27 | every non-empty token passes, whatever it says; every refusal is 401 |
| Auth.SchemeIsExact | middleware/auth.go:15 | the scheme is matched case-sensitively, with the trailing space |

## Left out

- I/O and transport: HTTP and GraphQL requests, environment variables, the gin context and template rendering. The reply, the decoded edges, the lookup and the environment value are inputs. Render errors (status 500) are not modelled.
- JSON decoding: the decoders are parameters. A Go decode that fails part-way can leave a partly filled slice; the model treats every failed decode as producing nothing.
- The HTML sanitiser is an opaque function. Nothing is assumed about it, so double sanitisation is stated as it is, not simplified.
- Courses.GetCourses: does not model the GraphQL query text or the tag filter's absence from it; the lemma states only that the result does not depend on the filter.
- Browser plumbing:
  - HTMX processing and the CDN script load;
  - `MutationObserver` scheduling, including the observers re-triggering themselves: the truncation passes write `textContent` (assets/sdk/micro-frontend-sdk.js:204-205, assets/sdk/micro-frontend-sdk-v2.js:394-395 and 453-455), which is itself a child-list mutation of the observed subtree (assets/sdk/micro-frontend-sdk.js:221-222, assets/sdk/micro-frontend-sdk-v2.js:400-401 and 459-469); the model states only that a second pass changes nothing. The injected `<script>` and `<style>` elements themselves (only the pass functions inside them are modelled);
  - shadow-root attachment and removal;
  - `getComputedStyle` (part of `probe`);
  - the CSS text of the modal, the close button and v1's `inlineOnModal` two-pane layout;
  - the `shadowParts` extension, which is global mutable state around an external library.
- URL parsing: `new URL(u).origin` is an input, and a service URL the parser rejects (an exception in both loaders) is not modelled.
- LoaderV1.AddClass: the display and detail options are spliced into the injected script's string literals (assets/sdk/micro-frontend-sdk.js:244-246); a `"`, a backslash or a line terminator in them makes the script a syntax error, so nothing of it runs. The model treats the options as plain text and models only the `classList.add` failure.
- LoaderV1.TruncatePass: description elements are treated as leaves. Assigning `textContent` (v1:205) also removes every element nested inside a description; the document is a flat list without a parent relation, so those nested elements are kept.
- LoaderV2.TruncatePass: description elements are treated as leaves. The `textContent` assignment (v2:395, v2:455) is made for every description, short ones included, and removes every element nested inside it; the flat document keeps them.
- LoaderV2.StyleFallback: only the four configuration keys are modelled (CapturedField, VarValue and Declarations require them too). Any other name would read an inherited `Object.prototype` member in `_getStyleFallback` and `styles[role]?.[prop]`, which the model does not represent.
- LoaderV2.ModalClick and LoaderV2.InlineClick use the detail-URL rule as written; the corrected rule is stated by AddKeywordParam and compared with it under Findings.
- Selector syntax errors in `querySelector` are modelled only for the v2 style extraction. The other lookups return an element or none.
- LoaderV1.TruncateIfLong: lengths and the cut count Unicode characters. JavaScript counts UTF-16 code units, so a text with characters outside the Basic Multilingual Plane is cut at a different place.
- LoaderV2.Truncate: the same difference in how lengths are counted.
- Strings.AsciiLower: lower-cases ASCII letters only. This is enough to decide whether the page text contains "course".
- LoaderV1.StripModalViewIdempotent: holds only when the stripped value contains no "?view=modal". Removing every occurrence can create a new one, as `StripModalViewNotIdempotent` shows, so the button branch of the display pass is not idempotent for every input.
- LoaderV1.DisplayPassIdempotent: for the inline modes it requires every button value to be stable in the sense above.
- LoaderV2.NormalizeProp: its contract states only the length bound; the deletion rule is stated by `NormalizeKeepsPrefix`, `NormalizeDropsWord` and `NormalizedKeys`, which cover every name the configuration can hold.
- `assets/js/app.js` (carousel scrolling and a random shuffle) is UI and randomness.
- `handlers/auth.go`, `handlers/home.go`, `routes/routes.go` and `main.go` are wiring without decisions of their own.
- `CloseModal` answers 200 with no body and is not modelled.

## Findings

| source | as written | input that shows it | evidently intended | confidence | as-written member | corrected member |
|---|---|---|---|---|---|---|
| assets/sdk/micro-frontend-sdk-v2.js:623 | the template literal escapes `\${`, so `_addKeywordParam` appends the literal text `${encodeURIComponent(this.keyword)}` | keyword "course" and URL "/d": the result is "/d?keyword=${encodeURIComponent(this.keyword)}" | append the encoded keyword, as `_prepareServiceUrl` does at lines 64-71 | high, not executed | LoaderV2.AddKeywordParamAsWritten | LoaderV2.AddKeywordParam |
