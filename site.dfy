/** One copy of the app as data: its exact routes, product table, category
    cards, header and footer links, EmailJS credentials and mail-body
    separator, with the guarantees that hold for any copy built that way. */
module Site {
  import opened Text
  import Router
  import Catalogue
  import Forms
  import Gateway
  import UriComponent

  /** One card of `Categories` */
  datatype Category = Category(id: string, name: string, img: string, fallback: string)

  datatype Site = Site(
    routes: seq<Router.RouteEntry>,
    products: map<string, Catalogue.ProductCopy>,
    categories: seq<Category>,
    links: seq<string>,
    credentials: Gateway.Credentials,
    separator: string)

  /** `navigate(to)`: the fragment it sets */
  function Navigate(to: string): string {
    "#" + to
  }

  /** `getHashPath` reads the fragment `navigate(to)` sets back as `to`,
      for a non-empty target that the browser stores as written: printable
      ASCII other than space, '"', '<', '>' and '`' (the URL Standard's
      fragment percent-encode set, whose C0 controls, DEL and non-ASCII
      characters are excluded along with tab and newline) */
  lemma NavigateReadsBack(to: string)
    requires to != ""
    requires forall i | 0 <= i < |to| :: '!' <= to[i] <= '~' && to[i] !in "\"<>`"
    ensures Router.HashPath(Navigate(to)) == to
  {
  }

  /** Where a card, its "View" button and Enter on it lead */
  function CardTarget(c: Category): string {
    Navigate(Router.ProductPrefix + c.id)
  }

  /** The page shown for a fragment, product lookups included */
  datatype Page = Sections(sections: seq<Router.Section>) | Product(view: Catalogue.ProductView)

  /** A product page is looked up in the table; every other view is shown
      as the router gives it */
  function PageFor(site: Site, hash: string): (page: Page)
    ensures page.Product? <==> exists id :: Router.RouterView(site.routes, hash) == [Router.ProductPage(id)]
    ensures var view := Router.RouterView(site.routes, hash);
      |view| == 1 && view[0].ProductPage? ==> page == Product(Catalogue.ProductPage(site.products, view[0].id))
    ensures page.Sections? ==> page.sections == Router.RouterView(site.routes, hash)
  {
    var view := Router.RouterView(site.routes, hash);
    if |view| == 1 && view[0].ProductPage? then
      assert view == [Router.ProductPage(view[0].id)];
      Product(Catalogue.ProductPage(site.products, view[0].id))
    else Sections(view)
  }

  /** Exact routes with distinct, plain paths outside the product prefix,
      none of whose views is the 404 or a product page, and a quote route */
  ghost predicate RoutesWellFormed(routes: seq<Router.RouteEntry>) {
    && Router.DistinctPaths(routes)
    && (forall i | 0 <= i < |routes| ::
          && '?' !in routes[i].path
          && !StartsWith(routes[i].path, Router.ProductPrefix)
          && Router.NotFound !in routes[i].view
          && forall j | 0 <= j < |routes[i].view| :: !routes[i].view[j].ProductPage?)
    && (exists q | 0 <= q < |routes| :: routes[q] == Router.RouteEntry("/quote", [Router.QuoteForm]))
  }

  /** Every card names a declared product by a plain id */
  ghost predicate CardsDeclared(products: map<string, Catalogue.ProductCopy>, categories: seq<Category>) {
    forall c | c in categories :: c.id in products && '/' !in c.id && '?' !in c.id
  }

  /** The route table and the category cards fit together */
  ghost predicate WellFormed(site: Site) {
    RoutesWellFormed(site.routes) && CardsDeclared(site.products, site.categories)
  }

  /** Every header and footer link shows a page other than 404, and every
      product it names is in the table */
  ghost predicate LinksResolve(site: Site) {
    forall l | l in site.links ::
      && Router.RouterView(site.routes, l) != [Router.NotFound]
      && PageFor(site, l) != Product(Catalogue.ProductNotFound)
  }

  /** A link to an exact route's path shows that route's view, never 404 */
  lemma RouteLinkResolves(site: Site, k: int)
    requires WellFormed(site) && 0 <= k < |site.routes|
    ensures Router.RouterView(site.routes, Navigate(site.routes[k].path)) == site.routes[k].view
    ensures site.routes[k].view != [Router.NotFound]
  {
    Router.FragmentSelectsView(site.routes, k, "");
    assert Router.NotFound !in site.routes[k].view;
  }

  /** "#/product/<id>" for a declared, plain id shows that product's
      details */
  lemma ProductLinkResolves(site: Site, id: string)
    requires WellFormed(site) && id in site.products && '/' !in id && '?' !in id
    ensures Router.RouterView(site.routes, Navigate(Router.ProductPrefix + id)) == [Router.ProductPage(id)]
    ensures PageFor(site, Navigate(Router.ProductPrefix + id)).view.ProductDetails?
  {
    var hash := Navigate(Router.ProductPrefix + id);
    assert hash == "#" + Router.ProductPrefix + id;
    Router.ProductFragment(site.routes, id, "");
    var view := Router.RouterView(site.routes, hash);
    assert view[0].id == id;
    assert PageFor(site, hash) == Product(Catalogue.ProductPage(site.products, id));
  }

  /** Every category card opens the product page of its own id, and that
      page has details */
  lemma CardOpensProduct(site: Site, c: Category)
    requires WellFormed(site) && c in site.categories
    ensures Router.RouterView(site.routes, CardTarget(c)) == [Router.ProductPage(c.id)]
    ensures PageFor(site, CardTarget(c)) == Product(Catalogue.ProductPage(site.products, c.id))
    ensures PageFor(site, CardTarget(c)).view.ProductDetails?
  {
    ProductLinkResolves(site, c.id);
  }

  lemma QuoteHrefRegroup(product: string)
    ensures Forms.QuoteHref(product) == "#" + "/quote" + "?" + ("product=" + UriComponent.EncodeURIComponent(product))
  {
    assert "#/quote?product=" == "#" + "/quote" + "?" + "product=";
  }

  /** A quote link, from a card's name or a product's title, opens the quote
      form with exactly that text as the product */
  lemma QuoteLinkOpensQuoteForm(site: Site, product: string)
    requires WellFormed(site)
    ensures Router.RouterView(site.routes, Forms.QuoteHref(product)) == [Router.QuoteForm]
    ensures Forms.InitialProduct(Forms.QuoteHref(product)) == product
  {
    var q :| 0 <= q < |site.routes| && site.routes[q] == Router.RouteEntry("/quote", [Router.QuoteForm]);
    QuoteHrefRegroup(product);
    Router.FragmentSelectsView(site.routes, q, "product=" + UriComponent.EncodeURIComponent(product));
    Forms.QuoteHrefPrefills(product);
  }

  /** A product page's own quote link opens the quote form pre-filled with
      the product's title */
  lemma ProductQuoteLink(site: Site, id: string)
    requires WellFormed(site) && id in site.products
    ensures var view := Catalogue.ProductPage(site.products, id);
      && Router.RouterView(site.routes, view.quoteHref) == [Router.QuoteForm]
      && Forms.InitialProduct(view.quoteHref) == site.products[id].title
  {
    var view := Catalogue.ProductPage(site.products, id);
    assert view.quoteHref == Forms.QuoteHref(site.products[id].title);
    QuoteLinkOpensQuoteForm(site, site.products[id].title);
  }

  /** The fragment of an exact route */
  ghost predicate IsRouteLink(site: Site, l: string) {
    exists k | 0 <= k < |site.routes| :: l == Navigate(site.routes[k].path)
  }

  /** The fragment of a declared product with a plain id */
  ghost predicate IsProductLink(site: Site, l: string) {
    exists id | id in site.products && '/' !in id && '?' !in id :: l == Navigate(Router.ProductPrefix + id)
  }

  /** Links that each name an exact route or a declared product never lead
      to a 404 or to "Product not found" */
  lemma LinksResolveByShape(site: Site)
    requires WellFormed(site)
    requires forall l | l in site.links :: IsRouteLink(site, l) || IsProductLink(site, l)
    ensures LinksResolve(site)
  {
    forall l | l in site.links
      ensures Router.RouterView(site.routes, l) != [Router.NotFound]
      ensures PageFor(site, l) != Product(Catalogue.ProductNotFound)
    {
      if IsRouteLink(site, l) {
        var k :| 0 <= k < |site.routes| && l == Navigate(site.routes[k].path);
        RouteLinkResolves(site, k);
        var view := site.routes[k].view;
        if |view| == 1 {
          assert !view[0].ProductPage?;
        }
      } else {
        var id :| id in site.products && '/' !in id && '?' !in id && l == Navigate(Router.ProductPrefix + id);
        ProductLinkResolves(site, id);
      }
    }
  }
}
