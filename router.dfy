/** Hash routing: `getHashPath` and the `RouterView` if-chain, over a
    route table given as data so that both copies of the app share it. */
module Router {
  import opened Text

  /** What a page is made of; each constructor stands for one component */
  datatype Section =
    | Hero | CategoryGrid | TrustBar | HelpPage | AboutPage | FaqPage
    | PrivacyPolicy | ShippingReturns | TermsConditions | LegalPolicy
    | ContactForm | QuoteForm | ProductPage(id: string) | NotFound

  /** One `if (base === path) return view;` line of `RouterView` */
  datatype RouteEntry = RouteEntry(path: string, view: seq<Section>)

  const ProductPrefix := "/product/"

  /** `getHashPath()`: the fragment as the browser reports it, "#/" when it
      is empty, with one leading '#' removed */
  function HashPath(hash: string): (path: string)
    ensures hash == "" ==> path == "/"
    ensures hash != "" && hash[0] == '#' ==> "#" + path == hash
    ensures hash != "" && hash[0] != '#' ==> path == hash
  {
    var raw := if hash == "" then "#/" else hash;
    if StartsWith(raw, "#") then raw[1..] else raw
  }

  /** `path.split("?")[0]`: the path up to its first '?', or all of it */
  function BasePath(path: string): (base: string)
    ensures '?' !in base && StartsWith(path, base)
    ensures '?' in path ==> |base| < |path| && path[|base|] == '?'
    ensures '?' !in path ==> base == path
  {
    BeforeFirst(path, '?')
  }

  lemma ProductSegments(rest: string)
    ensures Split(ProductPrefix + rest, '/') == ["", "product"] + Split(rest, '/')
  {
    assert ProductPrefix + rest == "" + ['/'] + ("product" + ['/'] + rest);
    SplitAfter("", "product" + ['/'] + rest, '/');
    SplitAfter("product", rest, '/');
  }

  /** `base.split("/")[2]` for a base under "/product/": the text after the
      prefix up to the next '/' */
  function ProductId(base: string): (id: string)
    requires StartsWith(base, ProductPrefix)
    ensures id == BeforeFirst(base[|ProductPrefix|..], '/')
    ensures '/' !in id
  {
    assert base == ProductPrefix + base[|ProductPrefix|..];
    ProductSegments(base[|ProductPrefix|..]);
    Split(base, '/')[2]
  }

  /** The exact routes tried in order; the view of the first whose path is
      the base, or None */
  function MatchExact(routes: seq<RouteEntry>, base: string): (r: Option<seq<Section>>)
    ensures r.None? <==> forall i | 0 <= i < |routes| :: routes[i].path != base
    ensures r.Some? ==> exists i | 0 <= i < |routes| ::
      (routes[i].path == base && r.value == routes[i].view
       && forall j | 0 <= j < i :: routes[j].path != base)
    decreases |routes|
  {
    if routes == [] then None
    else if routes[0].path == base then Some(routes[0].view)
    else
      var r := MatchExact(routes[1..], base);
      assert forall i | 1 <= i < |routes| :: routes[i] == routes[1..][i - 1];
      if r.Some? then
        var i :| 0 <= i < |routes[1..]| && routes[1..][i].path == base && r.value == routes[1..][i].view
          && forall j | 0 <= j < i :: routes[1..][j].path != base;
        assert forall j | 0 <= j < i + 1 :: routes[j].path != base by {
          forall j | 0 <= j < i + 1 ensures routes[j].path != base {
            if j > 0 { assert routes[j] == routes[1..][j - 1]; }
          }
        }
        assert routes[i + 1] == routes[1..][i];
        r
      else r
  }

  /** The `RouterView` decision on a base path: the first exact route that
      matches, else the product page for a base under "/product/", else the
      404 page; never anything else */
  function Dispatch(routes: seq<RouteEntry>, base: string): (view: seq<Section>)
    ensures forall i | 0 <= i < |routes| && routes[i].path == base
      && (forall j | 0 <= j < i :: routes[j].path != base) :: view == routes[i].view
    ensures (forall i | 0 <= i < |routes| :: routes[i].path != base) ==>
      view == (if StartsWith(base, ProductPrefix) then [ProductPage(ProductId(base))] else [NotFound])
  {
    match MatchExact(routes, base)
    case Some(v) => v
    case None =>
      if StartsWith(base, ProductPrefix) then [ProductPage(ProductId(base))] else [NotFound]
  }

  /** `RouterView` for the fragment the browser reports: one exact route's
      view, a product page, or the 404 page, and nothing else */
  function RouterView(routes: seq<RouteEntry>, hash: string): (view: seq<Section>)
    ensures || (exists i | 0 <= i < |routes| :: view == routes[i].view)
            || (exists id :: view == [ProductPage(id)])
            || view == [NotFound]
  {
    var base := BasePath(HashPath(hash));
    DispatchShape(routes, base);
    Dispatch(routes, base)
  }

  lemma DispatchShape(routes: seq<RouteEntry>, base: string)
    ensures var view := Dispatch(routes, base);
      || (exists i | 0 <= i < |routes| :: view == routes[i].view)
      || (exists id :: view == [ProductPage(id)])
      || view == [NotFound]
  {
    var m := MatchExact(routes, base);
    if m.Some? {
      var i :| 0 <= i < |routes| && routes[i].path == base && m.value == routes[i].view
        && forall j | 0 <= j < i :: routes[j].path != base;
      assert Dispatch(routes, base) == routes[i].view;
    } else if StartsWith(base, ProductPrefix) {
      assert Dispatch(routes, base) == [ProductPage(ProductId(base))];
    }
  }

  /** No two exact routes share a path */
  ghost predicate DistinctPaths(routes: seq<RouteEntry>) {
    forall i, j | 0 <= i < j < |routes| :: routes[i].path != routes[j].path
  }

  /** With distinct paths, each exact route's own path selects its own view */
  lemma ExactPathSelectsView(routes: seq<RouteEntry>, k: int)
    requires DistinctPaths(routes) && 0 <= k < |routes|
    ensures Dispatch(routes, routes[k].path) == routes[k].view
  {
  }

  /** Appending a query to a non-empty fragment never changes the page:
      only the text before the first '?' selects the route.  The empty
      fragment is the exception: it reads as "/", the home page, while
      "?" plus a query reads as the base "" */
  lemma QueryNeverChangesView(routes: seq<RouteEntry>, hash: string, query: string)
    requires hash != ""
    ensures RouterView(routes, hash + "?" + query) == RouterView(routes, hash)
  {
    var full := hash + "?" + query;
    assert full[0] == hash[0];
    assert StartsWith(full, "#") <==> StartsWith(hash, "#");
    if StartsWith(hash, "#") {
      assert full[1..] == hash[1..] + ['?'] + query;
      BeforeFirstIgnoresSuffix(hash[1..], '?', query);
    } else {
      BeforeFirstIgnoresSuffix(hash, '?', query);
    }
  }

  /** The fragment "#" followed by an exact route's path (and any query)
      shows that route's view */
  lemma FragmentSelectsView(routes: seq<RouteEntry>, k: int, query: string)
    requires DistinctPaths(routes) && 0 <= k < |routes| && '?' !in routes[k].path
    ensures RouterView(routes, "#" + routes[k].path) == routes[k].view
    ensures RouterView(routes, "#" + routes[k].path + "?" + query) == routes[k].view
  {
    var hash := "#" + routes[k].path;
    assert HashPath(hash) == routes[k].path;
    QueryNeverChangesView(routes, hash, query);
  }

  /** "#/product/<id>" shows the product page for id, whatever query
      follows, when no exact route lies under the prefix */
  lemma ProductFragment(routes: seq<RouteEntry>, id: string, query: string)
    requires forall i | 0 <= i < |routes| :: !StartsWith(routes[i].path, ProductPrefix)
    requires '/' !in id && '?' !in id
    ensures RouterView(routes, "#" + ProductPrefix + id) == [ProductPage(id)]
    ensures RouterView(routes, "#" + ProductPrefix + id + "?" + query) == [ProductPage(id)]
  {
    var hash := "#" + ProductPrefix + id;
    var base := ProductPrefix + id;
    assert HashPath(hash) == base;
    assert '?' !in base;
    assert BasePath(base) == base;
    assert StartsWith(base, ProductPrefix);
    assert base[|ProductPrefix|..] == id;
    assert forall i | 0 <= i < |routes| :: routes[i].path != base;
    QueryNeverChangesView(routes, hash, query);
  }

  lemma ProductIdOfSubpath(id: string, rest: string)
    requires '/' !in id
    ensures StartsWith(ProductPrefix + id + "/" + rest, ProductPrefix)
    ensures ProductId(ProductPrefix + id + "/" + rest) == id
  {
    var base := ProductPrefix + id + "/" + rest;
    assert base[..|ProductPrefix|] == ProductPrefix;
    assert base[|ProductPrefix|..] == id + ['/'] + rest;
    BeforeFirstIgnoresSuffix(id, '/', rest);
    NoSeparator(id, '/');
  }

  /** Segments after the id are ignored as well: "#/product/<id>/<rest>"
      shows the product page for id */
  lemma ProductSubpath(routes: seq<RouteEntry>, id: string, rest: string)
    requires forall i | 0 <= i < |routes| :: !StartsWith(routes[i].path, ProductPrefix)
    requires '/' !in id && '?' !in id && '?' !in rest
    ensures RouterView(routes, "#" + ProductPrefix + id + "/" + rest) == [ProductPage(id)]
  {
    var base := ProductPrefix + id + "/" + rest;
    assert HashPath("#" + ProductPrefix + id + "/" + rest) == base;
    assert '?' !in base;
    NoSeparator(base, '?');
    ProductIdOfSubpath(id, rest);
    assert forall i | 0 <= i < |routes| :: routes[i].path != base;
  }

  /** A base that no exact route names and that is not under the product
      prefix shows the 404 page */
  lemma Unrouted(routes: seq<RouteEntry>, base: string)
    requires forall i | 0 <= i < |routes| :: routes[i].path != base
    requires !StartsWith(base, ProductPrefix)
    ensures Dispatch(routes, base) == [NotFound]
  {
  }
}
