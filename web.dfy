/**
 * What the scraper sees of the web once fetching and HTML parsing are
 * abstracted away: a fetch either yields a page or fails, and a page
 * offers its anchors in document order.
 */
module Web {
  import opened Text

  datatype Option<+T> = None | Some(value: T)

  /** The outcome of `requests.get(url)` followed by `raise_for_status()`. */
  datatype Fetch<+P> = Fetched(page: P) | Failed

  /** An `<a>` element: its `href` attribute, if any, and its `get_text(strip=True)`. */
  datatype Anchor = Anchor(href: Option<string>, text: string)

  /** The href filter `lambda x: x and marker in x` used with `find('a', href=...)`. */
  predicate LinksTo(a: Anchor, marker: string) {
    a.href.Some? && Contains(a.href.value, marker)
  }

  /** `find('a', href=...)`: the first anchor, in document order, whose href contains `marker`. */
  function FirstAnchor(anchors: seq<Anchor>, marker: string): (r: Option<Anchor>)
    ensures r.None? <==> forall i | 0 <= i < |anchors| :: !LinksTo(anchors[i], marker)
    ensures r.Some? ==> exists i | 0 <= i < |anchors| ::
      (anchors[i] == r.value && LinksTo(r.value, marker)
       && forall j | 0 <= j < i :: !LinksTo(anchors[j], marker))
  {
    if anchors == [] then None
    else if LinksTo(anchors[0], marker) then Some(anchors[0])
    else
      var r := FirstAnchor(anchors[1..], marker);
      assert r.Some? ==> exists i | 0 <= i < |anchors[1..]| ::
        (anchors[1..][i] == r.value && forall j | 0 <= j < i :: !LinksTo(anchors[1..][j], marker));
      assert forall i | 1 <= i < |anchors| :: anchors[i] == anchors[1..][i - 1];
      r
  }
}
