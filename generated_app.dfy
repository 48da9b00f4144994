/** The app that `setup-flashfy.js` writes (its template text, lines
    88-627): eleven exact routes with a help page, five products with
    extra paragraphs, five category cards, and a real line break between
    the entries of the fallback mail body. */
module GeneratedApp {
  import opened Text
  import opened Router
  import Catalogue
  import Gateway
  import Site

  const FallbackHero := "https://source.unsplash.com/1200x800/?warehouse,logistics"
  const FallbackAhu := "https://source.unsplash.com/1200x800/?filter,hvac"
  const FallbackLights := "https://source.unsplash.com/1200x800/?emergency,light"
  const FallbackGauges := "https://source.unsplash.com/1200x800/?temperature,gauge"
  const FallbackBaro := "https://source.unsplash.com/1200x800/?barometer,weather"
  const FallbackOtherLights := "https://source.unsplash.com/1200x800/?led,lighting"
  const FallbackLogo := "https://source.unsplash.com/400x120/?lightning,bolt"

  /** The if-chain of `RouterView`, in its order */
  const Routes: seq<RouteEntry> := [
    RouteEntry("/", [Hero, CategoryGrid, TrustBar]),
    RouteEntry("/categories", [CategoryGrid, TrustBar]),
    RouteEntry("/help", [HelpPage]),
    RouteEntry("/about", [AboutPage]),
    RouteEntry("/faq", [FaqPage]),
    RouteEntry("/privacy", [PrivacyPolicy]),
    RouteEntry("/shipping", [ShippingReturns]),
    RouteEntry("/terms", [TermsConditions]),
    RouteEntry("/legal", [LegalPolicy]),
    RouteEntry("/contact", [ContactForm]),
    RouteEntry("/quote", [QuoteForm])
  ]

  const AhuBullets: seq<string> := [
    "Grades: G4, F7, F9, H13 (EN ISO 16890 & EN1822)",
    "Formats: pleated panels, bag filters, HEPA cassettes",
    "Custom sizes made-to-order (lead time 5\U{2013}15 working days)"
  ]
  const AhuParagraphs: seq<string> := [
    "Our AHU filter range covers pre-filtration through high-efficiency HEPA for clean supply and extract air in commercial buildings, healthcare and industry.",
    "Provide us with your panel size, pocket count, media type or an OEM part number; we cross-reference and supply EU-compliant equivalents with certificates on request."
  ]

  const LightsBullets: seq<string> := [
    "LED bulkheads, exit signs, twinspots",
    "Self-test & maintained/non-maintained options",
    "IP65, IK10 models for industrial settings"
  ]
  const LightsParagraphs: seq<string> := [
    "Emergency luminaires designed for reliability and compliance with EU safety standards.",
    "Choose from maintained or non-maintained variants, pictogram exit signs, and vandal-resistant housings for harsh environments."
  ]

  const GaugesBullets: seq<string> := [
    "Bimetal dial, digital and remote-probe options",
    "Ranges for HVAC and process monitoring",
    "Optional calibration certificates"
  ]
  const GaugesParagraphs: seq<string> := [
    "Robust temperature gauges for HVAC plant rooms and light process applications, available in multiple dial sizes, connection threads and stem lengths.",
    "Supply your required range, accuracy and process connection\U{2014}we\U{2019}ll match a compatible model with lead times and certificates if needed."
  ]

  const BaroBullets: seq<string> := [
    "Precision measurement for labs & weather",
    "Wall, bench & digital models",
    "Optional data logging"
  ]
  const BaroParagraphs: seq<string> := [
    "Laboratory and meteorological barometers with stable, accurate sensing for environmental monitoring and research.",
    "We offer classic aneroid and modern digital variants, with optional data interfaces for analysis."
  ]

  const OtherLightsBullets: seq<string> := [
    "LED battens for linear illumination",
    "Spot lights for accent/task lighting",
    "Bulbs & accessories in common bases"
  ]
  const OtherLightsParagraphs: seq<string> := [
    "A complementary lighting category covering linear battens for corridors and workshops, spot luminaires for focused lighting, and high-efficiency bulbs in common fittings.",
    "Share quantities, lumen output targets, CCT requirements and IP ratings; we\U{2019}ll source suitable EU-compliant options with competitive lead times."
  ]

  const AhuCopy := Catalogue.ProductCopy("AHU Filters", "/images/ahu.jpg",
    FallbackAhu, AhuBullets, AhuParagraphs)
  const LightsCopy := Catalogue.ProductCopy("Emergency Lights", "/images/lights.jpg",
    FallbackLights, LightsBullets, LightsParagraphs)
  const GaugesCopy := Catalogue.ProductCopy("Temperature Gauges", "/images/gauges.jpg",
    FallbackGauges, GaugesBullets, GaugesParagraphs)
  const BaroCopy := Catalogue.ProductCopy("Barometers", "/images/baro.jpg",
    FallbackBaro, BaroBullets, BaroParagraphs)
  const OtherLightsCopy := Catalogue.ProductCopy("Other Lights (Batten, Spots, Bulbs)", "/images/other_lights.jpg",
    FallbackOtherLights, OtherLightsBullets, OtherLightsParagraphs)

  const ProductCopy: map<string, Catalogue.ProductCopy> := map[
    "ahu" := AhuCopy,
    "lights" := LightsCopy,
    "gauges" := GaugesCopy,
    "baro" := BaroCopy,
    "otherlights" := OtherLightsCopy
  ]

  const Categories: seq<Site.Category> := [
    Site.Category("ahu", "AHU Filters", "/images/ahu.jpg", FallbackAhu),
    Site.Category("lights", "Emergency Lights", "/images/lights.jpg", FallbackLights),
    Site.Category("gauges", "Temperature Gauges", "/images/gauges.jpg", FallbackGauges),
    Site.Category("baro", "Barometers", "/images/baro.jpg", FallbackBaro),
    Site.Category("otherlights", "Other Lights", "/images/other_lights.jpg", FallbackOtherLights)
  ]

  /** The logo, header and hero links that name an exact route */
  const RouteLinks: seq<string> := [
    "#/",
    "#/", "#/categories", "#/help", "#/about", "#/contact", "#/faq",
    "#/about", "#/privacy", "#/shipping", "#/terms", "#/legal",
    "#/help", "#/faq", "#/contact",
    "#/quote", "#/categories"
  ]

  /** The footer's category links */
  const ProductLinks: seq<string> := [
    "#/product/ahu", "#/product/lights", "#/product/gauges", "#/product/baro", "#/product/otherlights"
  ]

  const Credentials := Gateway.Credentials("YOUR_SERVICE_ID", "YOUR_TEMPLATE_ID", "YOUR_PUBLIC_KEY")

  /** `"\\n"` inside the template text is written out as `"\n"`, a line
      break */
  const Separator := "\n"

  const App := Site.Site(Routes, ProductCopy, Categories, RouteLinks + ProductLinks, Credentials, Separator)

  lemma DistinctRoutes()
    ensures DistinctPaths(Routes)
  {
  }

  lemma RoutesArePlain()
    ensures forall i | 0 <= i < |Routes| ::
      && '?' !in Routes[i].path
      && !StartsWith(Routes[i].path, ProductPrefix)
      && NotFound !in Routes[i].view
  {
    RoutesOutsideProducts();
    RoutesWithoutQuery();
  }

  lemma RoutesOutsideProducts()
    ensures forall i | 0 <= i < |Routes| :: !StartsWith(Routes[i].path, ProductPrefix)
  {
    forall i | 0 <= i < |Routes| ensures !StartsWith(Routes[i].path, ProductPrefix) {
      StartsWithChars(Routes[i].path, ProductPrefix);
      assert |Routes[i].path| < |ProductPrefix| || Routes[i].path[1] != ProductPrefix[1];
    }
  }

  lemma RoutesWithoutQuery()
    ensures forall i | 0 <= i < |Routes| :: '?' !in Routes[i].path && NotFound !in Routes[i].view
  {
  }

  /** The ids the table declares */
  lemma ProductIds()
    ensures ProductCopy.Keys == {"ahu", "lights", "gauges", "baro", "otherlights"}
  {
  }

  lemma CardIds()
    ensures |Categories| == 5
    ensures Categories[0].id == "ahu" && Categories[1].id == "lights" && Categories[2].id == "gauges"
    ensures Categories[3].id == "baro" && Categories[4].id == "otherlights"
  {
  }

  /** The declared ids hold neither '/' nor '?' */
  lemma IdsArePlain()
    ensures forall id | id in ProductCopy :: '/' !in id && '?' !in id
  {
    ProductIds();
  }

  lemma CardsAreDeclared()
    ensures forall c | c in Categories :: c.id in ProductCopy && '/' !in c.id && '?' !in c.id
  {
    CardIds();
    ProductIds();
    IdsArePlain();
    forall c | c in Categories ensures c.id in ProductCopy {
      var i :| 0 <= i < 5 && Categories[i] == c;
      assert c.id in {"ahu", "lights", "gauges", "baro", "otherlights"} by {
        assert i == 0 || i == 1 || i == 2 || i == 3 || i == 4;
      }
    }
  }

  lemma RoutesWellFormed()
    ensures Site.RoutesWellFormed(Routes)
  {
    DistinctRoutes();
    RoutesArePlain();
    assert Routes[10] == RouteEntry("/quote", [QuoteForm]);
  }

  /** The route table and the cards of this copy fit together */
  lemma WellFormedApp()
    ensures Site.WellFormed(App)
  {
    RoutesWellFormed();
    CardsAreDeclared();
  }

  /** The route each route link names, by index into `Routes` */
  const LinkTargets: seq<int> := [0, 0, 1, 2, 3, 9, 4, 3, 5, 6, 7, 8, 2, 4, 9, 10, 1]

  lemma RouteLinkShapes()
    ensures |LinkTargets| == |RouteLinks|
    ensures forall i | 0 <= i < |RouteLinks| ::
      0 <= LinkTargets[i] < |Routes| && RouteLinks[i] == Site.Navigate(Routes[LinkTargets[i]].path)
  {
  }

  lemma ProductLinkShapes()
    ensures |ProductLinks| == |Categories|
    ensures forall i | 0 <= i < |ProductLinks| :: ProductLinks[i] == Site.Navigate(ProductPrefix + Categories[i].id)
  {
  }

  /** Every logo, header, footer and hero link shows a real page, and every
      footer category link a product with details */
  lemma LinksResolve()
    ensures Site.LinksResolve(App)
  {
    WellFormedApp();
    RouteLinkShapes();
    ProductLinkShapes();
    forall l | l in App.links ensures Site.IsRouteLink(App, l) || Site.IsProductLink(App, l) {
      var i :| 0 <= i < |App.links| && App.links[i] == l;
      if i < |RouteLinks| {
        assert l == RouteLinks[i];
        assert l == Site.Navigate(Routes[LinkTargets[i]].path);
      } else {
        var c := Categories[i - |RouteLinks|];
        assert l == ProductLinks[i - |RouteLinks|];
        assert c in Categories;
        assert l == Site.Navigate(ProductPrefix + c.id);
      }
    }
    Site.LinksResolveByShape(App);
  }

  /** The shipped service id holds the placeholder marker, so every
      submission takes the mail fallback */
  lemma ShippedCredentialsFallBack()
    ensures !Gateway.Configured(Credentials)
  {
    assert OccursAt(Credentials.serviceId, Gateway.PlaceholderMarker, 0);
  }

  /** Whatever the form holds and whatever the remote service would do, the
      shipped app makes no remote call, opens the mail address, and
      resolves */
  lemma ShippedSubmission(fields: seq<(string, string)>, params: seq<(string, string)>, remote: Gateway.RemoteOutcome)
    ensures Gateway.SendEmailJs(App.credentials, App.separator, fields, params, remote)
      == Gateway.Submission([], Some(Gateway.FallbackHref(fields, Separator)), Gateway.Resolved(Gateway.FallbackUsed))
  {
    AppMail();
    ShippedCredentialsFallBack();
  }

  lemma AppMail()
    ensures App.credentials == Credentials && App.separator == Separator
  {
  }

  /** Product details exist exactly for the five declared ids */
  lemma ProductKeys(id: string)
    ensures Catalogue.ProductPage(ProductCopy, id).ProductDetails? <==> id in {"ahu", "lights", "gauges", "baro", "otherlights"}
  {
    ProductIds();
  }

  /** An empty fragment shows the home page, trust bar included */
  lemma EmptyHashIsHome()
    ensures RouterView(Routes, "") == [Hero, CategoryGrid, TrustBar]
  {
  }

  /** The categories page shows the trust bar too */
  lemma CategoriesView()
    ensures RouterView(Routes, "#/categories") == [CategoryGrid, TrustBar]
  {
    RouteLinkShapes();
    assert RouteLinks[2] == "#/categories" == Site.Navigate(Routes[1].path);
    DistinctRoutes();
    RoutesArePlain();
    FragmentSelectsView(Routes, 1, "");
  }

  /** This copy has a help page */
  lemma HelpIsRouted()
    ensures RouterView(Routes, "#/help") == [HelpPage]
  {
    HelpRoute();
    DistinctRoutes();
    FragmentSelectsView(Routes, 2, "");
  }

  lemma HelpRoute()
    ensures Routes[2] == RouteEntry("/help", [HelpPage]) && '?' !in Routes[2].path
  {
  }

  lemma BareProductBase()
    ensures BasePath(HashPath("#/product")) == "/product"
  {
    assert HashPath("#/product") == "/product";
    NoSeparator("/product", '?');
  }

  lemma BareProductDispatch()
    ensures Dispatch(Routes, "/product") == [NotFound]
  {
    Unrouted(Routes, "/product");
  }

  /** "/product" without the trailing '/' is not under the prefix */
  lemma BareProductIsNotFound()
    ensures RouterView(Routes, "#/product") == [NotFound]
  {
    BareProductBase();
    BareProductDispatch();
  }

  /** Each entry of the fallback body is a line of its own */
  lemma BodyLines(fields: seq<(string, string)>)
    requires |fields| >= 1
    requires forall i | 0 <= i < |fields| :: '\n' !in fields[i].0 && '\n' !in fields[i].1
    ensures Split(Gateway.MailBody(fields, Separator), '\n') == Gateway.EntryLines(fields)
  {
    Gateway.BodyLines(fields);
  }
}
