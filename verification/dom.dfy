/** Explicit records standing for the parts of the document tree the page
    script reads: attribute values, section geometry, navigation links and
    the outcome of a `querySelector` lookup. */
module Dom {

  /** An optional value. For an attribute, `None` is the `null` that
      `getAttribute` returns when the attribute is absent. */
  datatype Option<+T> = None | Some(value: T)

  /** An element carrying the `section` class: its `offsetTop`, its
      `offsetHeight` and its `id` attribute. */
  datatype Section = Section(top: int, height: int, id: Option<string>)

  /** An element carrying the `nav-link` class: its `href` attribute,
      whether it has the `active` class, and whether it sits inside the
      desktop navigation (`.desktop-nav .nav-link`). */
  datatype NavLink = NavLink(href: Option<string>, active: bool, inDesktopNav: bool)

  /** What `document.querySelector(selector)` does: find an element (whose
      `offsetTop` is recorded), find nothing, or throw because the selector
      is not valid CSS. */
  datatype Query = Element(offsetTop: int) | NoMatch | SyntaxError

  /** Host layout read by the handlers at the moment they run. */
  datatype Layout = Layout(
    navbarHeight: nat,
    sections: seq<Section>,
    elements: map<string, Query>)

  /** `document.querySelector(selector)`: a selector the layout does not
      mention matches nothing. */
  function QuerySelector(layout: Layout, selector: string): Query
  {
    if selector in layout.elements then layout.elements[selector] else NoMatch
  }

  /** `String(v)` for an attribute value, as a template literal or a
      selector argument converts it: `null` becomes the text "null". */
  function JsString(v: Option<string>): string
  {
    match v
    case None => "null"
    case Some(s) => s
  }

  /** JavaScript truthiness of an attribute value: `null` and "" are falsy. */
  predicate Truthy(v: Option<string>)
  {
    v.Some? && v.value != ""
  }
}
