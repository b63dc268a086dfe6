/** An abstract DOM for the embedding loader: an element is a node identity,
    a class set, an attribute map and its text. A document (or the subtree
    under a shadow root) is the sequence of its elements in document order;
    the ancestors of a clicked element are the sequence from the element
    itself up through its parents. */
module Dom {
  import opened Wrappers
  import opened Strings

  /** JavaScript truthiness of an optional string: present and non-empty. */
  predicate Truthy(o: Option<string>)
  {
    o.Some? && o.value != ""
  }

  /** `o || default` on an optional string. */
  function OrElse(o: Option<string>, default: string): (r: string)
    ensures Truthy(o) ==> r == o.value
    ensures !Truthy(o) ==> r == default
  {
    if Truthy(o) then o.value else default
  }

  datatype Element = Element(node: nat, classes: set<string>, attrs: map<string, string>, text: string)

  /** A newly created element: no classes, only an `id`. Its node identity is
      never compared, so it is fixed at 0. */
  function NewElement(id: string): Element
  {
    Element(0, {}, map["id" := id], "")
  }

  /** ASCII whitespace as the DOM defines it: tab, line feed, form feed,
      carriage return and space. */
  predicate IsAsciiWhitespace(c: char)
  {
    c as int == 9 || c as int == 10 || c as int == 12 || c as int == 13 || c as int == 32
  }

  /** A token `classList.add` accepts: non-empty and without ASCII
      whitespace. Any other token makes it throw. */
  predicate ValidToken(t: string)
  {
    |t| > 0 && forall i :: 0 <= i < |t| ==> !IsAsciiWhitespace(t[i])
  }

  /** `getAttribute(name)`: `None` stands for `null`. */
  function GetAttr(e: Element, name: string): (r: Option<string>)
    ensures r.Some? <==> name in e.attrs
    ensures r.Some? ==> r.value == e.attrs[name]
  {
    if name in e.attrs then Some(e.attrs[name]) else None
  }

  /** `setAttribute(name, value)`: only that attribute changes. */
  function SetAttr(e: Element, name: string, value: string): (r: Element)
    ensures r.node == e.node && r.classes == e.classes && r.text == e.text
    ensures r.attrs.Keys == e.attrs.Keys + {name}
    ensures r.attrs[name] == value
    ensures forall a :: a in e.attrs && a != name ==> r.attrs[a] == e.attrs[a]
  {
    e.(attrs := e.attrs[name := value])
  }

  /** The three directives that make the transport library fetch `url` when
      the element is processed and swap the response into it. */
  function LoadInto(e: Element, url: string): (r: Element)
    ensures r.node == e.node && r.classes == e.classes && r.text == e.text
    ensures GetAttr(r, "hx-get") == Some(url)
    ensures GetAttr(r, "hx-trigger") == Some("load")
    ensures GetAttr(r, "hx-swap") == Some("innerHTML")
    ensures forall a :: a in e.attrs && a !in {"hx-get", "hx-trigger", "hx-swap"} ==> a in r.attrs && r.attrs[a] == e.attrs[a]
  {
    SetAttr(SetAttr(SetAttr(e, "hx-get", url), "hx-trigger", "load"), "hx-swap", "innerHTML")
  }

  /** `querySelectorAll("." + cls).forEach(f)`: every element carrying the
      class is replaced by `f` of it, the rest are kept, order is kept. */
  function ForEachWithClass(doc: seq<Element>, cls: string, f: Element -> Element): (r: seq<Element>)
    ensures |r| == |doc|
    ensures forall i :: 0 <= i < |doc| && cls !in doc[i].classes ==> r[i] == doc[i]
    ensures forall i :: 0 <= i < |doc| && cls in doc[i].classes ==> r[i] == f(doc[i])
  {
    seq(|doc|, i requires 0 <= i < |doc| => if cls in doc[i].classes then f(doc[i]) else doc[i])
  }

  /** A per-element rewrite that keeps the selecting class and is a fixed
      point on its own output makes the whole-document pass idempotent. */
  lemma ForEachWithClassIdempotent(doc: seq<Element>, cls: string, f: Element -> Element)
    requires forall e: Element :: cls in e.classes ==> cls in f(e).classes && f(f(e)) == f(e)
    ensures ForEachWithClass(ForEachWithClass(doc, cls, f), cls, f) == ForEachWithClass(doc, cls, f)
  {
    var once := ForEachWithClass(doc, cls, f);
    var twice := ForEachWithClass(once, cls, f);
    forall i | 0 <= i < |doc|
      ensures twice[i] == once[i]
    {
      if cls in doc[i].classes {
        assert once[i] == f(doc[i]);
        assert cls in once[i].classes;
      }
    }
  }

  // ---------------------------------------------------------------------
  // Query parameters
  // ---------------------------------------------------------------------

  /** `"&"` when the URL already has a `?`, `"?"` otherwise. */
  function Separator(url: string): (r: string)
    ensures r == "&" <==> Contains(url, "?")
    ensures r == "?" <==> !Contains(url, "?")
  {
    if Contains(url, "?") then "&" else "?"
  }

  /** `url + separator + name + "=" + value`. */
  function WithParam(url: string, name: string, value: string): (r: string)
    ensures StartsWith(r, url) && |r| > |url|
    ensures r[|url|..] == Separator(url) + name + "=" + value
  {
    StartsWithAppend(url, Separator(url) + name + "=" + value);
    url + Separator(url) + name + "=" + value
  }

  /** Once a parameter has been added, the URL has a query string, so any
      further parameter is joined with `&`. */
  lemma WithParamThenAmpersand(url: string, name: string, value: string)
    ensures Separator(WithParam(url, name, value)) == "&"
  {
    var r := WithParam(url, name, value);
    var sep := Separator(url);
    if Contains(url, "?") {
      var i :| 0 <= i <= |url| && OccursAt(url, "?", i);
      assert r[i..i + 1] == url[i..i + 1];
      assert OccursAt(r, "?", i);
    } else {
      assert r[|url|..|url| + 1] == "?";
      assert OccursAt(r, "?", |url|);
    }
  }

  /** Adds `name=enc(keyword)` by the separator rule when the keyword is not
      empty. */
  function WithKeyword(url: string, name: string, keyword: string, enc: string -> string): (r: string)
    ensures keyword == "" ==> r == url
    ensures keyword != "" ==> StartsWith(r, url) && r[|url|..] == Separator(url) + name + "=" + enc(keyword)
  {
    if keyword == "" then url else WithParam(url, name, enc(keyword))
  }

  // ---------------------------------------------------------------------
  // Overlays and click outcomes
  // ---------------------------------------------------------------------

  /** A modal overlay appended to the document body: the overlay node, one
      content node holding exactly one close control, and the node into which
      the content is fetched. Closing removes the overlay from the body. */
  datatype Overlay = Overlay(overlayId: string, contentId: string, closeLabel: string, dynamic: Element)

  /** An overlay whose dynamic content node, "mf-modal-dynamic-content"
      inside "mf-modal-content", fetches `url` as soon as it is processed. */
  function LoadingOverlay(overlayId: string, closeLabel: string, url: string): (o: Overlay)
    ensures o.overlayId == overlayId && o.closeLabel == closeLabel && o.contentId == "mf-modal-content"
    ensures GetAttr(o.dynamic, "id") == Some("mf-modal-dynamic-content")
    ensures GetAttr(o.dynamic, "hx-get") == Some(url) && GetAttr(o.dynamic, "hx-trigger") == Some("load")
  {
    Overlay(overlayId, "mf-modal-content", closeLabel, LoadInto(NewElement("mf-modal-dynamic-content"), url))
  }

  /** Which click-delegation handler the loader installs on its container. */
  datatype DetailHandler = ModalDetails | InlineDetails | NoDetails

  /** What one click inside the container does. */
  datatype ClickEffect =
    | NotADetailClick                 // no marked element found: the default action proceeds
    | NothingLoaded                   // default prevented, nothing loaded, nothing logged
    | MissingDetailUrl                // default prevented, an error is logged
    | MissingDetailContainer          // default prevented, an error is logged
    | OpenOverlay(overlay: Overlay)   // a new overlay fetching the detail URL
    | LoadDetailPane(pane: Element)   // the detail pane with fresh directives
    | HandlerThrows                   // the handler raises a TypeError
}
