/**
 How the request callback chooses a handler from the method and the url.
 */
module Routing {
  import opened JsValues
  import opened IndexParsing

  datatype Route = ListRoute | AddRoute | UpdateRoute | DeleteRoute | NoRoute

  const CollectionPath: string := "/shopping-list"
  const ItemPathPrefix: string := "/shopping-list/"

  /** The callback's if/else-if chain: GET and POST need the collection path
      exactly, PUT and DELETE any url that starts with the item prefix, and
      every other request is unmatched. */
  function Dispatch(httpMethod: string, url: string): (r: Route)
    ensures r == ListRoute <==> httpMethod == "GET" && url == CollectionPath
    ensures r == AddRoute <==> httpMethod == "POST" && url == CollectionPath
    ensures r == UpdateRoute <==> httpMethod == "PUT" && ItemPathPrefix <= url
    ensures r == DeleteRoute <==> httpMethod == "DELETE" && ItemPathPrefix <= url
    ensures r == NoRoute <==>
              && !(httpMethod in {"GET", "POST"} && url == CollectionPath)
              && !(httpMethod in {"PUT", "DELETE"} && ItemPathPrefix <= url)
  {
    if httpMethod == "GET" && url == CollectionPath then ListRoute
    else if httpMethod == "POST" && url == CollectionPath then AddRoute
    else if httpMethod == "PUT" && ItemPathPrefix <= url then UpdateRoute
    else if httpMethod == "DELETE" && ItemPathPrefix <= url then DeleteRoute
    else NoRoute
  }

  /** After the item prefix, a segment without '/' is the url's last segment. */
  lemma ItemUrlSegment(seg: string)
    requires '/' !in seg
    ensures LastSegment(ItemPathPrefix + seg) == seg
  {
    assert ItemPathPrefix + seg == CollectionPath + "/" + seg;
    LastSegmentAfterSlash(CollectionPath, seg);
  }

  /** The url a client builds for the item at position `n`, optionally
      followed by a tail such as a query string, names index `n`; it passes
      the bounds check exactly when `n` is below the length. */
  lemma ItemUrlNamesIndex(n: nat, tail: string, length: nat)
    requires '/' !in tail && (tail == [] || !IsDigit(tail[0]))
    ensures RequestedIndex(ItemPathPrefix + Decimal(n) + tail) == Some(n as int)
    ensures IsBadIndex(RequestedIndex(ItemPathPrefix + Decimal(n) + tail), length) <==> n >= length
  {
    var ds := Decimal(n);
    var seg := ds + tail;
    assert '/' !in seg by {
      assert forall i :: 0 <= i < |ds| ==> IsDigit(ds[i]);
    }
    assert ItemPathPrefix + ds + tail == ItemPathPrefix + seg;
    ItemUrlSegment(seg);
    ParseIntDecimal(n, tail);
  }

  /** With a minus sign the url names -n, which the bounds check rejects
      unless n is 0 (`"-0"` reads as zero). */
  lemma NegativeItemUrl(n: nat, tail: string, length: nat)
    requires '/' !in tail && (tail == [] || !IsDigit(tail[0]))
    ensures RequestedIndex(ItemPathPrefix + "-" + Decimal(n) + tail) == Some(-(n as int))
    ensures IsBadIndex(RequestedIndex(ItemPathPrefix + "-" + Decimal(n) + tail), length) <==> n > 0 || length == 0
  {
    var ds := Decimal(n);
    var seg := "-" + ds + tail;
    assert '/' !in ds by {
      assert forall i :: 0 <= i < |ds| ==> IsDigit(ds[i]);
    }
    assert '/' !in seg;
    assert ItemPathPrefix + "-" + ds + tail == ItemPathPrefix + seg;
    ItemUrlSegment(seg);
    ParseIntNegatedDecimal(n, tail);
  }
}
