/**
 * One read of the host page. The content script locates two elements by
 * attribute markers; everything it reads from them is captured here, so
 * the rest of the model never touches the document.
 */
module Snapshot {
  import opened Wrappers

  /** `title` is the inner text of the title element when that element
      exists; `address` is the inner texts of the address element's
      children, in order, when that element exists. */
  datatype Page = Page(title: Option<string>, address: Option<seq<string>>)

  /** `getPlaceName`: the title text, or null when there is no title element. */
  function PlaceName(p: Page): (r: Option<string>)
    ensures r.Some? <==> p.title.Some?
    ensures r.Some? ==> r.value == p.title.value
  {
    match p.title
    case None => None
    case Some(text) => Some(text)
  }

  /** `getPlaceAddress`: the second child's text, or null when the address
      element is missing or has fewer than two children. */
  function PlaceAddress(p: Page): (r: Option<string>)
    ensures r.Some? <==> p.address.Some? && |p.address.value| > 1
    ensures r.Some? ==> r.value == p.address.value[1]
  {
    if p.address.Some? && |p.address.value| > 1 then Some(p.address.value[1]) else None
  }

  /** The element test shared by `waitForElements` and
      `retryUpdatePlaceInfo`: both elements exist and the address element
      has more than one child. It holds exactly when both projections
      return a value, whatever the texts are (an empty text still counts). */
  predicate ElementsReady(p: Page)
    ensures ElementsReady(p) <==> PlaceName(p).Some? && PlaceAddress(p).Some?
  {
    p.title.Some? && p.address.Some? && |p.address.value| > 1
  }
}
