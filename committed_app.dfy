/** The committed app, `src/App.jsx`: ten exact routes, four products
    without extra paragraphs, four category cards. */
module CommittedApp {
  import opened Text
  import opened Router
  import Catalogue
  import Gateway
  import Site

  const FallbackHero := "https://source.unsplash.com/1200x800/?warehouse,logistics"
  const FallbackAhu := "https://source.unsplash.com/1200x800/?filter,hvac"
  const FallbackLights := "https://source.unsplash.com/1200x800/?emergency,light"
  const FallbackThermo := "https://source.unsplash.com/1200x800/?thermometer"
  const FallbackBaro := "https://source.unsplash.com/1200x800/?barometer,weather"

  /** The if-chain of `RouterView`, in its order */
  const Routes: seq<RouteEntry> := [
    RouteEntry("/", [Hero, CategoryGrid]),
    RouteEntry("/categories", [CategoryGrid]),
    RouteEntry("/about", [AboutPage]),
    RouteEntry("/faq", [FaqPage]),
    RouteEntry("/privacy", [PrivacyPolicy]),
    RouteEntry("/shipping", [ShippingReturns]),
    RouteEntry("/terms", [TermsConditions]),
    RouteEntry("/legal", [LegalPolicy]),
    RouteEntry("/contact", [ContactForm]),
    RouteEntry("/quote", [QuoteForm])
  ]

  const AhuBullets: seq<string> := [
    "Grades: G4, F7, F9, H13 (EN ISO 16890 & EN1822)",
    "Formats: pleated panels, bag filters, HEPA cassettes",
    "Custom sizes made-to-order (lead time 5\U{2013}15 working days)"
  ]

  const LightsBullets: seq<string> := [
    "LED bulkheads, exit signs, twinspots",
    "Self-test & maintained/non-maintained options",
    "IP65, IK10 models for industrial settings"
  ]

  const ThermoBullets: seq<string> := [
    "Digital and analog models",
    "Industrial & lab-grade accuracy",
    "Optional calibration certificates"
  ]

  const BaroBullets: seq<string> := [
    "Precision measurement for labs & weather",
    "Wall, bench & digital models",
    "Optional data logging"
  ]

  const AhuCopy := Catalogue.ProductCopy("AHU Filters", "/images/ahu.webp", FallbackAhu, AhuBullets, [])
  const LightsCopy := Catalogue.ProductCopy("Emergency Lights", "/images/lights.webp",
    FallbackLights, LightsBullets, [])
  const ThermoCopy := Catalogue.ProductCopy("Thermometers", "/images/thermo.webp",
    FallbackThermo, ThermoBullets, [])
  const BaroCopy := Catalogue.ProductCopy("Barometers", "/images/baro.webp", FallbackBaro, BaroBullets, [])

  const ProductCopy: map<string, Catalogue.ProductCopy> := map[
    "ahu" := AhuCopy,
    "lights" := LightsCopy,
    "thermo" := ThermoCopy,
    "baro" := BaroCopy
  ]

  const Categories: seq<Site.Category> := [
    Site.Category("ahu", "AHU Filters", "/images/ahu.webp", FallbackAhu),
    Site.Category("lights", "Emergency Lights", "/images/lights.webp", FallbackLights),
    Site.Category("thermo", "Thermometers", "/images/thermo.webp", FallbackThermo),
    Site.Category("baro", "Barometers", "/images/baro.webp", FallbackBaro)
  ]

  /** The header, footer and hero links */
  const Links: seq<string> := [
    "#/", "#/categories", "#/about", "#/contact", "#/faq",
    "#/about", "#/privacy", "#/shipping", "#/terms", "#/legal",
    "#/faq", "#/contact",
    "#/quote", "#/categories"
  ]

  const Credentials := Gateway.Credentials("YOUR_SERVICE_ID", "YOUR_TEMPLATE_ID", "YOUR_PUBLIC_KEY")

  /** The separator as written: `"\\n"` in an ordinary string literal is a
      backslash followed by the letter n */
  const AsWrittenSeparator := "\\n"

  /** The separator the author meant, and the one the generated copy uses */
  const CorrectedSeparator := "\n"

  /** The committed copy as it stands, its mail body joined by the separator
      as written */
  const App := Site.Site(Routes, ProductCopy, Categories, Links, Credentials, AsWrittenSeparator)

  lemma DistinctRoutes()
    ensures DistinctPaths(Routes)
  {
  }

  lemma RoutesArePlain()
    ensures forall i | 0 <= i < |Routes| ::
      && '?' !in Routes[i].path
      && !StartsWith(Routes[i].path, ProductPrefix)
      && NotFound !in Routes[i].view
  {
    RoutesOutsideProducts();
    RoutesWithoutQuery();
  }

  lemma RoutesOutsideProducts()
    ensures forall i | 0 <= i < |Routes| :: !StartsWith(Routes[i].path, ProductPrefix)
  {
    forall i | 0 <= i < |Routes| ensures !StartsWith(Routes[i].path, ProductPrefix) {
      StartsWithChars(Routes[i].path, ProductPrefix);
      assert |Routes[i].path| < |ProductPrefix| || Routes[i].path[1] != ProductPrefix[1];
    }
  }

  lemma RoutesWithoutQuery()
    ensures forall i | 0 <= i < |Routes| :: '?' !in Routes[i].path && NotFound !in Routes[i].view
  {
  }

  lemma CardsAreDeclared()
    ensures forall c | c in Categories :: c.id in ProductCopy && '/' !in c.id && '?' !in c.id
  {
  }

  lemma RoutesWellFormed()
    ensures Site.RoutesWellFormed(Routes)
  {
    DistinctRoutes();
    RoutesArePlain();
    assert Routes[9] == RouteEntry("/quote", [QuoteForm]);
  }

  /** The route table and the cards of this copy fit together */
  lemma WellFormedApp()
    ensures Site.WellFormed(App)
  {
    RoutesWellFormed();
    CardsAreDeclared();
  }

  /** The route each link names, by index into `Routes` */
  const LinkTargets: seq<int> := [0, 1, 2, 8, 3, 2, 4, 5, 6, 7, 3, 8, 9, 1]

  lemma LinkShapes()
    ensures |LinkTargets| == |Links|
    ensures forall i | 0 <= i < |Links| :: 0 <= LinkTargets[i] < |Routes| && Links[i] == Site.Navigate(Routes[LinkTargets[i]].path)
  {
  }

  /** Every header, footer and hero link shows a real page */
  lemma LinksResolve()
    ensures Site.LinksResolve(App)
  {
    WellFormedApp();
    LinkShapes();
    forall l | l in Links ensures Site.IsRouteLink(App, l) {
      var i :| 0 <= i < |Links| && Links[i] == l;
      assert l == Site.Navigate(Routes[LinkTargets[i]].path);
    }
    Site.LinksResolveByShape(App);
  }

  /** The shipped service id holds the placeholder marker, so every
      submission takes the mail fallback */
  lemma ShippedCredentialsFallBack()
    ensures !Gateway.Configured(Credentials)
  {
    assert OccursAt(Credentials.serviceId, Gateway.PlaceholderMarker, 0);
  }

  /** Whatever the form holds and whatever the remote service would do, the
      shipped app makes no remote call, opens the mail address whose body is
      joined by the backslash-n separator, and resolves */
  lemma ShippedSubmission(fields: seq<(string, string)>, params: seq<(string, string)>, remote: Gateway.RemoteOutcome)
    ensures Gateway.SendEmailJs(App.credentials, App.separator, fields, params, remote)
      == Gateway.Submission([], Some(Gateway.FallbackHref(fields, AsWrittenSeparator)), Gateway.Resolved(Gateway.FallbackUsed))
  {
    AppMail();
    ShippedCredentialsFallBack();
  }

  lemma AppMail()
    ensures App.credentials == Credentials && App.separator == AsWrittenSeparator
  {
  }

  /** The ids the table declares */
  lemma ProductIds()
    ensures ProductCopy.Keys == {"ahu", "lights", "thermo", "baro"}
  {
  }

  /** Product details exist exactly for the four declared ids */
  lemma ProductKeys(id: string)
    ensures Catalogue.ProductPage(ProductCopy, id).ProductDetails? <==> id in {"ahu", "lights", "thermo", "baro"}
  {
    ProductIds();
  }

  /** An empty fragment shows the home page */
  lemma EmptyHashIsHome()
    ensures RouterView(Routes, "") == [Hero, CategoryGrid]
  {
  }

  lemma HelpBase()
    ensures BasePath(HashPath("#/help")) == "/help"
  {
    assert HashPath("#/help") == "/help";
    NoSeparator("/help", '?');
  }

  lemma HelpDispatch()
    ensures Dispatch(Routes, "/help") == [NotFound]
  {
    Unrouted(Routes, "/help");
  }

  /** This copy has no help page */
  lemma HelpIsNotFound()
    ensures RouterView(Routes, "#/help") == [NotFound]
  {
    HelpBase();
    HelpDispatch();
  }

  lemma BareProductBase()
    ensures BasePath(HashPath("#/product")) == "/product"
  {
    assert HashPath("#/product") == "/product";
    NoSeparator("/product", '?');
  }

  lemma BareProductDispatch()
    ensures Dispatch(Routes, "/product") == [NotFound]
  {
    Unrouted(Routes, "/product");
  }

  /** "/product" without the trailing '/' is not under the prefix */
  lemma BareProductIsNotFound()
    ensures RouterView(Routes, "#/product") == [NotFound]
  {
    BareProductBase();
    BareProductDispatch();
  }

  lemma EmptyIdFragment()
    ensures "#" + ProductPrefix + "" == "#/product/"
  {
  }

  /** "/product/" gives the empty id, which the table does not declare */
  lemma EmptyProductId()
    ensures RouterView(Routes, "#/product/") == [ProductPage("")]
    ensures Catalogue.ProductPage(ProductCopy, "") == Catalogue.ProductNotFound
  {
    EmptyIdRoute();
    EmptyIdUndeclared();
  }

  lemma EmptyIdRoute()
    ensures RouterView(Routes, "#/product/") == [ProductPage("")]
  {
    RoutesArePlain();
    ProductFragment(Routes, "", "");
    EmptyIdFragment();
  }

  lemma EmptyIdUndeclared()
    ensures Catalogue.ProductPage(ProductCopy, "") == Catalogue.ProductNotFound
  {
    ProductIds();
  }

  /** As written, the fallback body is a single line whenever no field
      holds a line break of its own: the entries are glued by a backslash
      and an 'n', never by a line break */
  lemma AsWrittenBodyIsOneLine(fields: seq<(string, string)>)
    requires forall i | 0 <= i < |fields| :: '\n' !in fields[i].0 && '\n' !in fields[i].1
    ensures '\n' !in Gateway.MailBody(fields, AsWrittenSeparator)
    ensures Split(Gateway.MailBody(fields, AsWrittenSeparator), '\n') == [Gateway.MailBody(fields, AsWrittenSeparator)]
  {
    var lines := Gateway.EntryLines(fields);
    forall i | 0 <= i < |lines| ensures '\n' !in lines[i] {
      assert lines[i] == fields[i].0 + ": " + fields[i].1;
    }
    Gateway.JoinHasNoLineBreak(lines, AsWrittenSeparator);
    NoSeparator(Gateway.MailBody(fields, AsWrittenSeparator), '\n');
  }

  /** A contact message as a concrete case */
  const ContactExample: seq<(string, string)> := [("name", "Ann"), ("email", "ann@example.com"), ("message", "Hi")]

  lemma ContactExampleLines()
    ensures Gateway.EntryLines(ContactExample) == ["name: Ann", "email: ann@example.com", "message: Hi"]
  {
    var lines := Gateway.EntryLines(ContactExample);
    assert lines[0] == "name" + ": " + "Ann" == "name: Ann";
    assert lines[1] == "email" + ": " + "ann@example.com" == "email: ann@example.com";
    assert lines[2] == "message" + ": " + "Hi" == "message: Hi";
  }

  lemma ContactExampleJoin()
    ensures Join(["name: Ann", "email: ann@example.com", "message: Hi"], AsWrittenSeparator)
      == "name: Ann\\nemail: ann@example.com\\nmessage: Hi"
  {
    JoinThree("name: Ann", "email: ann@example.com", "message: Hi", AsWrittenSeparator);
    ContactExampleText();
  }

  lemma ContactExampleText()
    ensures "name: Ann" + AsWrittenSeparator + "email: ann@example.com" + AsWrittenSeparator + "message: Hi"
      == "name: Ann\\nemail: ann@example.com\\nmessage: Hi"
  {
    assert "name: Ann" + AsWrittenSeparator == "name: Ann\\n";
    assert "message: Hi" == "message: Hi";
    assert "name: Ann\\n" + "email: ann@example.com" == "name: Ann\\nemail: ann@example.com";
    assert "name: Ann\\nemail: ann@example.com" + AsWrittenSeparator == "name: Ann\\nemail: ann@example.com\\n";
  }

  lemma ContactExampleBody()
    ensures Gateway.MailBody(ContactExample, AsWrittenSeparator) == "name: Ann\\nemail: ann@example.com\\nmessage: Hi"
  {
    ContactExampleLines();
    ContactExampleJoin();
  }

  lemma ContactExampleHasNoLineBreak()
    ensures forall i | 0 <= i < |ContactExample| :: '\n' !in ContactExample[i].0 && '\n' !in ContactExample[i].1
  {
  }

  /** For the contact example the message arrives as one line holding the
      two characters backslash and n between the entries */
  lemma AsWrittenContactExample()
    ensures Gateway.MailBody(ContactExample, AsWrittenSeparator) == "name: Ann\\nemail: ann@example.com\\nmessage: Hi"
    ensures |Split(Gateway.MailBody(ContactExample, AsWrittenSeparator), '\n')| == 1
  {
    ContactExampleBody();
    ContactExampleHasNoLineBreak();
    AsWrittenBodyIsOneLine(ContactExample);
  }

  /** With the corrected separator each entry is a line of its own */
  lemma CorrectedBodyLines(fields: seq<(string, string)>)
    requires |fields| >= 1
    requires forall i | 0 <= i < |fields| :: '\n' !in fields[i].0 && '\n' !in fields[i].1
    ensures Split(Gateway.MailBody(fields, CorrectedSeparator), '\n') == Gateway.EntryLines(fields)
    ensures |Split(Gateway.MailBody(fields, CorrectedSeparator), '\n')| == |fields|
  {
    Gateway.BodyLines(fields);
  }
}
