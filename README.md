# Flashfy storefront logic in Dafny

Flashfy is a single-page marketing storefront. Its pages are chosen by the
URL fragment (`#/about`, `#/product/ahu`, `#/quote?product=...`). Two forms
send requests by EmailJS, or, while the EmailJS credentials are
placeholders, by opening a `mailto:` address. The app exists in two copies:

- the committed `src/App.jsx`;
- a newer app that `setup-flashfy.js` holds as template text and writes
  into `src/App.jsx`.

This project models the decision logic of both copies:

- `getHashPath` and the `RouterView` if-chain;
- the `PRODUCT_COPY` table and `ProductPage`;
- the category cards and the header, footer and hero links;
- the `SafeImg` fallback image;
- `sendEmailJS`, with its remote path and its `mailto:` fallback;
- the quote and contact forms: the product prefill, `onChange`, and the
  idle/sending/sent/error status.

The logic is written once, over a `Site.Site` value that holds a copy's
route table, product table, cards, links, credentials and mail-body
separator. `CommittedApp` and `GeneratedApp` each build that value from the
constants of one copy and prove the copy-specific facts.

Modules, bottom up:

- `Text`: the JavaScript string operations the code relies on. These are
  `startsWith`, `includes`, `split` on one character and `join`, plus
  name/value lists.
- `Utf8`: UTF-8 encoding, and the UTF-8 decoder of the WHATWG Encoding
  Standard, section 8.1.1 (malformed input becomes U+FFFD).
- `UriComponent`: `encodeURIComponent`, and percent-decoding as in
  RFC 3986 section 2.1.
- `UrlSearchParams`: `application/x-www-form-urlencoded` parsing, per
  section 5.1 of the WHATWG URL Standard.
- `Router`: hash path, base path, product id and dispatch.
- `Catalogue`: the product page built from a table entry.
- `SafeImage`: the image element's state. `useState(src)` reads the source
  only at mount, so a render with new props (moving from one product page
  to another) keeps the image shown and changes only the placeholder.
- `Gateway`: `sendEmailJS`, and a reader for `mailto:` URIs per RFC 6068
  section 2.
- `Forms`: the form state as a class.
- `Site`: one copy of the app as data, and the link guarantees that follow
  from its well-formedness.
- `CommittedApp` and `GeneratedApp`: the two copies.

The two copies differ as follows:

- The newer copy has a `/help` route. Its home page adds the trust bar, and
  so does `/categories`.
- The newer copy has five products, `gauges` and `otherlights` replacing
  `thermo`, each with SEO paragraphs.
- The committed copy joins the fallback mail body with a backslash and an
  `n`, not a line break (see Findings). `CommittedApp.App` keeps that
  separator as written; the corrected one appears only in
  `CommittedApp.CorrectedBodyLines`.

## Model

| member | source | states |
|---|---|---|
| Text.Includes | src/App.jsx:268 | `includes` is true exactly when the marker occurs at some position of the text |
| Text.Split | src/App.jsx:322 | `split` gives at least one piece, no piece holds the separator, and the pieces joined by the separator give back the input |
| Text.SplitJoin | src/App.jsx:333 | splitting undoes joining when no piece holds the separator |
| Text.SplitConcat | src/App.jsx:277 | splitting two texts joined by the separator gives the pieces of the first followed by the pieces of the second |
| Text.JoinEnds | src/App.jsx:270 | a join of no pieces is empty; any other join starts with the first piece and ends with the last |
| Text.BeforeFirst | src/App.jsx:322 | the first piece of a split holds no separator, is a prefix of the input, is the whole input exactly when there is no separator, and otherwise is followed by the first separator |
| Text.BeforeFirstIgnoresSuffix | src/App.jsx:322 | whatever follows the first separator never changes the first piece |
| Text.Lookup | src/App.jsx:278 | looking up a name gives nothing exactly when the name is absent, and otherwise the value of the first pair with that name |
| Text.LookupAppend | src/App.jsx:278 | looking a name up in two pair lists one after the other finds it in the first list when it is there, and otherwise in the second |
| Text.JoinHasChar | src/App.jsx:270 | a character the separator lacks occurs in a join exactly when it occurs in one of the pieces |
| Utf8.EncodeChar | src/App.jsx:121 | a character takes one to four UTF-8 bytes, one byte exactly for ASCII (the character itself), and every later byte is a continuation byte |
| Utf8.EncodeAppend | src/App.jsx:121 | the encoding of a concatenation is the concatenation of the encodings |
| Utf8.DecodeChar | src/App.jsx:277 | the decoder reads one character's encoding back as that character and returns to its initial state |
| Utf8.DecodeEncode | src/App.jsx:277 | decoding the UTF-8 encoding of any string gives that string back |
| UriComponent.EncodeURIComponent | src/App.jsx:121 | the encoding holds only unreserved characters and '%' |
| UriComponent.PercentBytesDecode | src/App.jsx:277 | percent-decoding `%XX` triplets gives back the encoded bytes and then decodes whatever follows |
| UriComponent.PercentDecodeEncode | src/App.jsx:277 | percent-decoding the encoding of a string gives the string's UTF-8 bytes |
| UriComponent.DecodeEncode | src/App.jsx:277 | decoding the encoding of any string gives that string back |
| UriComponent.EncodeUnreserved | src/App.jsx:121 | text made only of unreserved characters is encoded as itself |
| UriComponent.EncodedHasNoDelimiters | src/App.jsx:121 | an encoded value never holds '?', '&', '=', '+', '#' or '/', so it cannot break the fragment or the query around it |
| UrlSearchParams.PlusToSpace | src/App.jsx:277 | form decoding turns each '+' into a space and leaves every other character alone |
| UrlSearchParams.EncodedPairRoundTrip | src/App.jsx:277-278 | for a plain name, `get(name)` on the query `name=` plus an encoded text gives back exactly that text |
| UrlSearchParams.ParsePair | src/App.jsx:277 | a piece without '=' is a name with an empty value |
| UrlSearchParams.ParsePieces | src/App.jsx:277 | the pieces give at most one pair each |
| UrlSearchParams.ParsePiecesInOrder | src/App.jsx:277 | pieces none of which is empty give one pair each, in order, each read from its own piece; pieces that are all empty give no pairs |
| UrlSearchParams.ParsePiecesAppend | src/App.jsx:277 | the pairs of two piece lists one after the other are the pairs of the first followed by those of the second |
| UrlSearchParams.Parse | src/App.jsx:277 | an empty query, or a lone '?', gives no pairs; a query with no '&' and no leading '?' gives exactly one pair, read from the whole query |
| UrlSearchParams.ParseAppend | src/App.jsx:277 | a query `a&b` gives the pairs of `a` followed by the pairs of `b` |
| UrlSearchParams.EncodedPairParts | src/App.jsx:277 | for a plain name, `name=` plus an encoded text is a single piece, holds no '&', and reads as the pair of that name and that text |
| UrlSearchParams.LaterPairFound | src/App.jsx:277-278 | a plain-named parameter with an encoded value that follows other parameters is found with exactly its text, provided none of those has the same name |
| Router.HashPath | src/App.jsx:16 | an empty fragment reads as "/"; a leading '#' is removed exactly once; any other fragment is kept as it is |
| Router.BasePath | src/App.jsx:322 | the base holds no '?', is a prefix of the path, and ends exactly at the first '?': it is the whole path when there is none, and otherwise the next character is that '?' |
| Router.ProductId | src/App.jsx:333 | the product id is the text after "/product/" up to the next '/', and holds no '/' |
| Router.MatchExact | src/App.jsx:323-332 | no match exactly when no route has the base as its path; otherwise the view of the first route in order whose path is the base |
| Router.Dispatch | src/App.jsx:323-334 | the first exact route that names the base wins; with none, a base under "/product/" shows that product's page, and every other base shows the 404 page |
| Router.RouterView | src/App.jsx:319-334 | for any fragment the page is one exact route's view, a product page, or the 404 page, and nothing else |
| Router.ExactPathSelectsView | src/App.jsx:323-332 | with distinct paths, each route's own path selects its own view |
| Router.QueryNeverChangesView | src/App.jsx:322 | appending any query to a non-empty fragment never changes the page shown |
| Router.FragmentSelectsView | src/App.jsx:322-332 | "#" plus a route's path, with or without a query, shows that route's view |
| Router.ProductFragment | src/App.jsx:333 | "#/product/" plus a plain id, with or without a query, shows that id's product page when no exact route lies under the prefix |
| Router.ProductSubpath | src/App.jsx:333 | segments after the id are ignored: "#/product/<id>/<rest>" still shows the product page of id |
| Router.Unrouted | src/App.jsx:334 | a base that no route names and that is not under "/product/" shows the 404 page |
| Catalogue.ProductPage | src/App.jsx:112-121 | "Product not found" exactly for an id outside the table; otherwise the entry's title, image, placeholder, bullets and paragraphs in order, and a quote link that pre-fills the entry's title |
| SafeImage.SafeImg.constructor | src/App.jsx:13 | a mounted image shows its own source and has not swapped |
| SafeImage.SafeImg.OnError | src/App.jsx:14 | after an error the placeholder is shown; an error on the placeholder changes nothing, so between two renders the image swaps at most once |
| SafeImage.SafeImg.Rerender | src/App.jsx:12-14 | a render of the mounted image with new props adopts the new placeholder and keeps showing the image it showed, whatever the new source |
| Gateway.EntryLines | src/App.jsx:270 | one `name: value` line per field, in the form's order |
| Gateway.Configured | src/App.jsx:268 | the remote path is taken exactly when all three credentials are non-empty and the placeholder marker occurs at no position of the service id |
| Gateway.MailBody | src/App.jsx:270 | with a separator free of line breaks, the body holds a line break exactly when some field's name or value does |
| Gateway.FallbackHref | src/App.jsx:269-271 | the fallback address starts with the support address and the subject field, and holds no space and no line break, whatever the form holds |
| Gateway.SendEmailJs | src/App.jsx:267-275 | when configured: exactly one remote call with the template parameters, no navigation, and the remote outcome passed on unchanged; otherwise: no remote call, navigation to the fallback address, and a promise that resolves to the fallback marker; it rejects only on the remote path |
| Gateway.SubjectBodyRoundTrip | src/App.jsx:271 | a `mailto:` address with encoded subject and body reads back, per RFC 6068 section 2, as exactly that subject and body |
| Gateway.FallbackHrefRoundTrip | src/App.jsx:269-271 | the fallback address reads back as a message to the support address with the fixed subject and exactly the joined body |
| Gateway.BodyLines | setup-flashfy.js:529 | joined with a line break, the body splits back into exactly the entry lines when no field holds a line break |
| Gateway.JoinHasNoLineBreak | src/App.jsx:270 | with a separator and pieces free of line breaks, the joined body holds no line break |
| Forms.Assign | src/App.jsx:281 | an update keeps an existing name in its place with the new value, adds a new name at the end, and leaves every other name's value as it was |
| Forms.TemplateParamsExtendFields | src/App.jsx:282 | the remote call receives the form's own fields unchanged, followed by `form_type` |
| Forms.TemplateParams | src/App.jsx:282 | the remote parameters hold the form type under `form_type` and every other name with the form's own value |
| Forms.QueryOfParts | src/App.jsx:277 | the query read by the quote form is the text between the first and second '?' |
| Forms.QueryOf | src/App.jsx:277 | the query read by the quote form holds no '?', and it is empty for a fragment without '?' |
| Forms.InitialProduct | src/App.jsx:277-278 | the prefill is empty when the query has no `product` parameter, and is otherwise the value of the first `product` parameter |
| Forms.ProductAfterOtherParameters | src/App.jsx:277-278 | "#/quote?" plus other parameters, none named `product`, then "&product=" and an encoded name pre-fills the product with exactly that name |
| Forms.SecondQueryIgnored | src/App.jsx:277 | whatever follows a second '?' never changes the prefilled product |
| Forms.NoQueryNoProduct | src/App.jsx:277-278 | a fragment without a query leaves the product empty |
| Forms.QuoteHrefPrefills | src/App.jsx:277-279 | the fragment "#/quote?product=" plus an encoded name pre-fills the product with exactly that name |
| Forms.QuoteHref | src/App.jsx:92 | a quote link is "#/quote?product=" followed by text with no '?', '&', '#' or '/', whatever the product name holds, so it stays the quote route with one parameter |
| Forms.QuoteFieldNames | src/App.jsx:279 | the quote form starts with name, email, company, product and details, in that order, and only the product is prefilled |
| Forms.ContactFieldNames | src/App.jsx:300 | the contact form starts with name, email and message, in that order |
| Forms.FormController.Quote | src/App.jsx:277-280 | the quote form mounts idle, with its five fields and the product read from the fragment |
| Forms.FormController.Contact | src/App.jsx:300-301 | the contact form mounts idle with its three empty fields |
| Forms.FormController.OnChange | src/App.jsx:281 | typing sets the named field, leaves the others and the status alone, and keeps the form's field list |
| Forms.FormController.Submit | src/App.jsx:282 | while a send is in flight nothing happens; otherwise the status becomes sending and `sendEmailJS` runs on the current fields plus `form_type`; the fields are never cleared, so the form keeps its field list |
| Forms.FormController.Settle | src/App.jsx:282 | the status becomes sent when the promise resolves and error when it rejects; the fields stay, so the form keeps its field list |
| Forms.ErrorOnlyFromRemote | src/App.jsx:282 | a submission resolves exactly when the credentials are not configured or the remote call succeeds |
| Site.PageFor | src/App.jsx:333 | a product page is shown exactly when dispatch chose the product page of some id, and then it is that id's table lookup; every other view is shown as dispatch gives it |
| Site.NavigateReadsBack | src/App.jsx:16-17 | `getHashPath` reads the fragment `navigate(to)` sets back as `to`, for a non-empty target of printable ASCII other than space, '"', '<', '>' and '`', so outside the fragment percent-encode set |
| Site.RouteLinkResolves | src/App.jsx:24-28 | a link to an exact route's path shows that route's view, which is never the 404 page |
| Site.ProductLinkResolves | src/App.jsx:333 | a link to a declared, plain product id shows that product's details |
| Site.CardOpensProduct | src/App.jsx:85-91 | every category card, its View button and Enter on it open the product page of its own id, with details |
| Site.QuoteLinkOpensQuoteForm | src/App.jsx:92 | a card's Quote Now link opens the quote form pre-filled with the card's name |
| Site.ProductQuoteLink | src/App.jsx:121 | a product page's quote link opens the quote form pre-filled with the product's title |
| Site.LinksResolveByShape | src/App.jsx:24-47 | links that each name an exact route or a declared product never lead to the 404 page or to "Product not found" |
| CommittedApp.DistinctRoutes | src/App.jsx:323-332 | the ten exact routes have distinct paths |
| CommittedApp.RoutesArePlain | src/App.jsx:323-332 | no route path holds '?' or lies under "/product/", and no route shows the 404 page |
| CommittedApp.CardsAreDeclared | src/App.jsx:74-77 | every category card's id is a key of the product table, with no '/' or '?' |
| CommittedApp.WellFormedApp | src/App.jsx:73-77 | the committed route table and cards fit together, the quote route included |
| CommittedApp.LinksResolve | src/App.jsx:24-65 | every header, footer and hero link shows a page other than 404 |
| CommittedApp.ShippedCredentialsFallBack | src/App.jsx:264-268 | the shipped service id holds the placeholder marker, so the app is not configured |
| CommittedApp.ShippedSubmission | src/App.jsx:264-271 | whatever the form holds and whatever the remote service would do, the committed app makes no remote call, opens the fallback address with the body joined by backslash-n, and resolves |
| CommittedApp.ProductIds | src/App.jsx:101-110 | the table declares exactly ahu, lights, thermo and baro |
| CommittedApp.ProductKeys | src/App.jsx:112-114 | product details exist exactly for ahu, lights, thermo and baro |
| CommittedApp.EmptyHashIsHome | src/App.jsx:323 | an empty fragment shows the hero and the category grid |
| CommittedApp.HelpIsNotFound | src/App.jsx:334 | this copy has no help page: "#/help" shows the 404 page |
| CommittedApp.BareProductIsNotFound | src/App.jsx:333-334 | "#/product" without the trailing '/' shows the 404 page |
| CommittedApp.EmptyProductId | src/App.jsx:113-114 | "#/product/" gives the empty id, which shows "Product not found" |
| CommittedApp.AsWrittenBodyIsOneLine | src/App.jsx:270 | as written, the fallback body holds no line break, and so is a single line, whenever no field holds a line break of its own |
| CommittedApp.AsWrittenContactExample | src/App.jsx:270 | for a three-field contact message the body is a single line with backslash-n between the entries |
| CommittedApp.CorrectedBodyLines | src/App.jsx:270 | with a line break as separator, the body has one line per field, each exactly that field's entry |
| GeneratedApp.DistinctRoutes | setup-flashfy.js:601-611 | the eleven exact routes have distinct paths |
| GeneratedApp.RoutesArePlain | setup-flashfy.js:601-611 | no route path holds '?' or lies under "/product/", and no route shows the 404 page |
| GeneratedApp.ProductIds | setup-flashfy.js:259-330 | the table declares exactly ahu, lights, gauges, baro and otherlights |
| GeneratedApp.CardsAreDeclared | setup-flashfy.js:228-232 | every category card's id is a key of the product table, with no '/' or '?' |
| GeneratedApp.WellFormedApp | setup-flashfy.js:601-612 | the generated route table and cards fit together, the quote route included |
| GeneratedApp.LinksResolve | setup-flashfy.js:136-194 | every logo, header, footer and hero link shows a page other than 404, and every footer category link shows a product with details |
| GeneratedApp.ShippedCredentialsFallBack | setup-flashfy.js:521-527 | the shipped service id holds the placeholder marker, so the app is not configured |
| GeneratedApp.ShippedSubmission | setup-flashfy.js:521-531 | the shipped app makes no remote call, opens the fallback address and resolves |
| GeneratedApp.ProductKeys | setup-flashfy.js:332-334 | product details exist exactly for the five declared ids |
| GeneratedApp.EmptyHashIsHome | setup-flashfy.js:601 | an empty fragment shows the hero, the category grid and the trust bar |
| GeneratedApp.CategoriesView | setup-flashfy.js:602 | "#/categories" shows the category grid and the trust bar |
| GeneratedApp.HelpIsRouted | setup-flashfy.js:603 | "#/help" shows the help page |
| GeneratedApp.BareProductIsNotFound | setup-flashfy.js:612-613 | "#/product" without the trailing '/' shows the 404 page |
| GeneratedApp.BodyLines | setup-flashfy.js:529 | the fallback body has one line per field, each exactly that field's entry, when no field holds a line break |

## Left out

- The file-writing statements of `setup-flashfy.js` (lines 5-11, 14-86,
  630-640) are left out: they are file system I/O and console output.
- JSX markup, styling and static prose are left out. This covers the About,
  FAQ, Help, TrustBar and policy pages. Each page appears only as a
  `Router.Section` constructor.
- The `emailjs.send` call is not modelled. Its outcome is an input,
  `Gateway.RemoteOutcome`.
- Browser side effects are recorded rather than performed:
  - the `window.location.href` assignment is the `navigation` field of a
    `Gateway.Submission`;
  - `navigate` is `Site.Navigate`, which gives the fragment it would set;
  - `console.error` is not modelled.
- The `hashchange` listener and its removal are not modelled. Each
  fragment is read afresh by `Router.RouterView`.
- Asynchronous timing is reduced to a separate step:
  `Forms.FormController.Settle` is the moment the awaited promise settles.
  State updates after unmount are not modelled.
- `new Date().getFullYear()` in the footers is not modelled.
- Inherited JavaScript object keys such as `constructor` used as a product
  id are not modelled. The product table is a finite map of the declared
  keys only.
- The `desc` texts of the cards and the image `alt` texts are left out.
  They are display-only.
- The logo and hero images are not instantiated as `SafeImage.SafeImg`
  objects. They behave like any other `SafeImg`.
- Router.HashPath: the fragment is taken as the browser reports it. The
  browser's own percent-encoding of characters typed into the address bar
  is not modelled. A fragment of exactly "#" reads as "" and so shows the
  404 page. This matches the code: the browser never reports "#", since an
  empty fragment is reported as "", which reads as "/".
- Site.NavigateReadsBack: holds only for a non-empty target made of
  printable ASCII other than space, '"', '<', '>' and '`'.
  `navigate("")` leaves an empty fragment, which the browser reports as ""
  and which reads as "/". The fragment setter percent-encodes the URL
  Standard's fragment percent-encode set: the C0 controls,
  DEL, every non-ASCII character, space, '"', '<', '>' and '`'. The URL
  parser also removes tab, line feed and carriage return. So such targets
  read back changed. `Site.Navigate` does not model that encoding or that
  removal. The app only navigates to "/product/" plus a declared id.
- Utf8.EncodeChar: strings are sequences of Unicode scalar values, so lone
  surrogates cannot occur. `encodeURIComponent` throws on them; that path is
  not modelled.
- Catalogue.ProductPage: the committed copy's entries have no `seo` field.
  They are modelled with an empty paragraph list, which renders the same.
- Forms.FormController.Quote: the prefill is read from the fragment only at
  mount. A fragment change that keeps the quote form mounted, such as
  editing "#/quote?product=AHU%20Filters" in the address bar to another
  product, leaves the fields as they were. The model has no step for that
  render.
- Forms.FormController.Settle requires the status to be sending. In the
  source a promise only settles after the submit that set that status.
- Forms.FormController.Submit: a submit while sending is modelled as doing
  nothing, because the submit button is disabled (src/App.jsx:292 and 311,
  setup-flashfy.js:557 and 585). The handler itself has no such guard.

## Findings

| source | as written | input that shows it | evidently intended | confidence | as-written member | corrected member |
|---|---|---|---|---|---|---|
| src/App.jsx:270 | the entry lines of the fallback mail body are joined by the two characters backslash and `n`, because the separator is written with an escaped backslash inside an ordinary string literal | the contact form with name "Ann", email "ann@example.com" and message "Hi": the body is the single line `name: Ann\nemail: ann@example.com\nmessage: Hi` with a literal backslash-n | one line per entry, joined by a line break, as the newer copy produces (setup-flashfy.js:529) | not executed | CommittedApp.AsWrittenContactExample | CommittedApp.CorrectedBodyLines |
