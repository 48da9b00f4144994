/** The quote and contact forms: their field lists, the product prefill
    read from the fragment's query, the `{...form, [name]: value}` update,
    and the idle/sending/sent/error status around `sendEmailJS`. */
module Forms {
  import opened Text
  import UriComponent
  import UrlSearchParams
  import Gateway

  datatype Status = Idle | Sending | Sent | Error

  /** `{...form, [name]: value}`: an existing name keeps its place and gets
      the new value, a new name is added at the end, every other name keeps
      its value */
  function Assign(fields: seq<(string, string)>, name: string, value: string): (r: seq<(string, string)>)
    ensures Keys(r) == if name in Keys(fields) then Keys(fields) else Keys(fields) + [name]
    ensures Lookup(r, name) == Some(value)
    ensures forall k | k != name :: Lookup(r, k) == Lookup(fields, k)
    decreases |fields|
  {
    if fields == [] then [(name, value)]
    else if fields[0].0 == name then
      var r := [(name, value)] + fields[1..];
      assert r[1..] == fields[1..];
      r
    else
      var tail := Assign(fields[1..], name, value);
      AssignCons(fields, name, value, tail);
      [fields[0]] + tail
  }

  /** The step of `Assign` past a first pair with another name */
  lemma AssignCons(fields: seq<(string, string)>, name: string, value: string, tail: seq<(string, string)>)
    requires fields != [] && fields[0].0 != name
    requires Keys(tail) == if name in Keys(fields[1..]) then Keys(fields[1..]) else Keys(fields[1..]) + [name]
    requires Lookup(tail, name) == Some(value)
    requires forall k | k != name :: Lookup(tail, k) == Lookup(fields[1..], k)
    ensures var r := [fields[0]] + tail;
      && Keys(r) == (if name in Keys(fields) then Keys(fields) else Keys(fields) + [name])
      && Lookup(r, name) == Some(value)
      && forall k | k != name :: Lookup(r, k) == Lookup(fields, k)
  {
    AssignConsKeys(fields, name, tail);
    assert fields == [fields[0]] + fields[1..];
    LookupCons(fields[0], tail, name);
    forall k | k != name ensures Lookup([fields[0]] + tail, k) == Lookup(fields, k) {
      LookupCons(fields[0], tail, k);
      LookupCons(fields[0], fields[1..], k);
    }
  }

  lemma AssignConsKeys(fields: seq<(string, string)>, name: string, tail: seq<(string, string)>)
    requires fields != [] && fields[0].0 != name
    requires Keys(tail) == if name in Keys(fields[1..]) then Keys(fields[1..]) else Keys(fields[1..]) + [name]
    ensures Keys([fields[0]] + tail) == (if name in Keys(fields) then Keys(fields) else Keys(fields) + [name])
  {
    var head, rest := fields[0].0, Keys(fields[1..]);
    assert fields == [fields[0]] + fields[1..];
    KeysCons(fields[0], fields[1..]);
    KeysCons(fields[0], tail);
    assert Keys(fields) == [head] + rest;
    assert name in Keys(fields) <==> name in rest;
    if name !in rest {
      assert [head] + (rest + [name]) == ([head] + rest) + [name];
    }
  }

  lemma KeysCons(p: (string, string), pairs: seq<(string, string)>)
    ensures Keys([p] + pairs) == [p.0] + Keys(pairs)
  {
    assert ([p] + pairs)[1..] == pairs;
  }

  lemma LookupCons(p: (string, string), pairs: seq<(string, string)>, k: string)
    ensures Lookup([p] + pairs, k) == if p.0 == k then Some(p.1) else Lookup(pairs, k)
  {
    assert ([p] + pairs)[1..] == pairs;
  }

  /** `{...form, form_type: formType}`: the parameters of the remote call,
      which carry the form type and every other field as the form holds it */
  function TemplateParams(fields: seq<(string, string)>, formType: string): (params: seq<(string, string)>)
    ensures Lookup(params, "form_type") == Some(formType)
    ensures forall k | k != "form_type" :: Lookup(params, k) == Lookup(fields, k)
  {
    Assign(fields, "form_type", formType)
  }

  const QuotePrefix := "#/quote?product="

  /** The "Quote Now" and "Request a Quote" address for a product name:
      whatever the name holds, the link is the quote route with a single
      query parameter, since no '?', '&', '#' or '/' follows the prefix */
  function QuoteHref(product: string): (href: string)
    ensures StartsWith(href, QuotePrefix)
    ensures forall i | |QuotePrefix| <= i < |href| :: href[i] !in "?&#/"
  {
    var enc := UriComponent.EncodeURIComponent(product);
    UriComponent.EncodedHasNoDelimiters(product);
    assert forall i | |QuotePrefix| <= i < |QuotePrefix + enc| :: (QuotePrefix + enc)[i] == enc[i - |QuotePrefix|];
    QuotePrefix + enc
  }

  /** `hash.split("?")[1] || ""`: the text between the first and the second
      '?', or "" when there is no '?' */
  function QueryOf(hash: string): (query: string)
    ensures '?' !in query
    ensures '?' !in hash ==> query == ""
  {
    var parts := Split(hash, '?');
    assert '?' !in hash ==> parts == [hash] by {
      if '?' !in hash { NoSeparator(hash, '?'); }
    }
    if |parts| > 1 then parts[1] else ""
  }

  /** `new URLSearchParams(query).get("product") || ""`: the first
      `product` parameter's value, and empty when the query has none */
  function InitialProduct(hash: string): (product: string)
    ensures "product" !in Keys(UrlSearchParams.Parse(QueryOf(hash))) ==> product == ""
    ensures "product" in Keys(UrlSearchParams.Parse(QueryOf(hash))) ==>
      Lookup(UrlSearchParams.Parse(QueryOf(hash)), "product") == Some(product)
  {
    match Lookup(UrlSearchParams.Parse(QueryOf(hash)), "product")
    case Some(v) => v
    case None => ""
  }

  /** `{ name, email, company, product, details }` with the product
      prefilled */
  function QuoteFields(product: string): seq<(string, string)> {
    [("name", ""), ("email", ""), ("company", ""), ("product", product), ("details", "")]
  }

  /** `{ name, email, message }` */
  const ContactFields: seq<(string, string)> := [("name", ""), ("email", ""), ("message", "")]

  /** The quote form's inputs, in order, with only the product prefilled */
  lemma QuoteFieldNames(product: string)
    ensures Keys(QuoteFields(product)) == ["name", "email", "company", "product", "details"]
    ensures Lookup(QuoteFields(product), "product") == Some(product)
    ensures Lookup(QuoteFields(product), "name") == Some("")
    ensures Lookup(QuoteFields(product), "email") == Some("")
    ensures Lookup(QuoteFields(product), "company") == Some("")
    ensures Lookup(QuoteFields(product), "details") == Some("")
  {
    QuoteFieldKeys(product);
    QuoteFieldValue(product, 0);
    QuoteFieldValue(product, 1);
    QuoteFieldValue(product, 2);
    QuoteFieldValue(product, 3);
    QuoteFieldValue(product, 4);
  }

  lemma QuoteFieldValue(product: string, i: int)
    requires 0 <= i < 5
    ensures Lookup(QuoteFields(product), QuoteFields(product)[i].0) == Some(QuoteFields(product)[i].1)
  {
    LookupAt(QuoteFields(product), i);
  }

  lemma QuoteFieldKeys(product: string)
    ensures Keys(QuoteFields(product)) == ["name", "email", "company", "product", "details"]
  {
    var f := QuoteFields(product);
    assert f[1..] == [("email", ""), ("company", ""), ("product", product), ("details", "")];
    assert f[1..][1..] == [("company", ""), ("product", product), ("details", "")];
    assert f[1..][1..][1..] == [("product", product), ("details", "")];
    assert f[1..][1..][1..][1..] == [("details", "")];
  }

  lemma ContactFieldNames()
    ensures Keys(ContactFields) == ["name", "email", "message"]
  {
    assert ContactFields[1..] == [("email", ""), ("message", "")];
    assert ContactFields[1..][1..] == [("message", "")];
  }

  lemma QueryOfParts(a: string, q: string, rest: string)
    requires '?' !in a && '?' !in q
    ensures QueryOf(a + "?" + q) == q
    ensures QueryOf(a + "?" + q + "?" + rest) == q
  {
    SplitAfter(a, q, '?');
    NoSeparator(q, '?');
    assert a + "?" + q + "?" + rest == a + ['?'] + (q + ['?'] + rest);
    SplitAfter(a, q + ['?'] + rest, '?');
    SplitAfter(q, rest, '?');
  }

  /** Only the text between the first and the second '?' is read: whatever
      follows a second '?' is ignored */
  lemma SecondQueryIgnored(a: string, q: string, rest: string)
    requires '?' !in a && '?' !in q
    ensures InitialProduct(a + "?" + q + "?" + rest) == InitialProduct(a + "?" + q)
  {
    QueryOfParts(a, q, rest);
  }

  /** A fragment without a query leaves the product empty */
  lemma NoQueryNoProduct(hash: string)
    requires '?' !in hash
    ensures InitialProduct(hash) == ""
  {
    NoSeparator(hash, '?');
    assert UrlSearchParams.Parse("") == [] by {
      NoSeparator("", '&');
      assert [""][1..] == [];
    }
  }

  lemma ProductNameUnreserved()
    ensures forall i | 0 <= i < |"product"| :: UriComponent.Unreserved("product"[i])
  {
  }

  lemma QuoteHrefRegroup(enc: string)
    ensures "#/quote?product=" + enc == "#/quote" + "?" + ("product" + "=" + enc)
  {
    assert "#/quote?product=" == "#/quote" + "?" + "product" + "=";
  }

  /** A quote link built for a product name opens the quote form with
      exactly that name in the product field */
  lemma QuoteHrefPrefills(product: string)
    ensures InitialProduct(QuoteHref(product)) == product
  {
    var enc := UriComponent.EncodeURIComponent(product);
    QuoteHrefRegroup(enc);
    UriComponent.EncodedHasNoDelimiters(product);
    var query := "product" + "=" + enc;
    assert '?' !in query;
    QueryOfParts("#/quote", query, "");
    ProductNameUnreserved();
    UrlSearchParams.EncodedPairRoundTrip("product", product);
  }

  /** A `product` parameter that follows other parameters is still found,
      as long as none of those is itself named `product` */
  lemma ProductAfterOtherParameters(others: string, product: string)
    requires '?' !in others
    requires "product" !in Keys(UrlSearchParams.Parse(others))
    ensures InitialProduct("#/quote?" + others + "&product=" + UriComponent.EncodeURIComponent(product)) == product
  {
    var enc := UriComponent.EncodeURIComponent(product);
    UriComponent.EncodedHasNoDelimiters(product);
    LaterQueryOf(others, enc);
    ProductNameUnreserved();
    UrlSearchParams.LaterPairFound(others, "product", product);
  }

  lemma LaterQueryOf(others: string, enc: string)
    requires '?' !in others && '?' !in enc
    ensures QueryOf("#/quote?" + others + "&product=" + enc) == others + "&" + "product" + "=" + enc
  {
    var query := others + "&" + "product" + "=" + enc;
    assert "#/quote?" + others + "&product=" + enc == "#/quote" + "?" + query;
    assert '?' !in query by {
      assert forall i | 0 <= i < |query| :: query[i] in others || query[i] in "&product=" || query[i] in enc;
    }
    QueryOfParts("#/quote", query, "");
  }

  /** The state of one mounted `QuoteForm` or `ContactForm` */
  class FormController {
    /** "quote" or "contact", sent as `form_type` */
    const formType: string
    /** The names of the form's inputs, in the order of its initial state */
    const names: seq<string>
    var fields: seq<(string, string)>
    var status: Status

    /** Every field the form starts with is still there, in order, and no
        other */
    ghost predicate Valid()
      reads this
    {
      Keys(fields) == names
    }

    /** `QuoteForm` mounted on the given fragment */
    constructor Quote(hash: string)
      ensures formType == "quote" && fields == QuoteFields(InitialProduct(hash)) && status == Idle
      ensures Valid()
    {
      formType := "quote";
      fields := QuoteFields(InitialProduct(hash));
      names := ["name", "email", "company", "product", "details"];
      status := Idle;
      QuoteFieldKeys(InitialProduct(hash));
    }

    /** `ContactForm` mounted */
    constructor Contact()
      ensures formType == "contact" && fields == ContactFields && status == Idle
      ensures Valid()
    {
      formType := "contact";
      fields := ContactFields;
      names := ["name", "email", "message"];
      status := Idle;
      ContactFieldNames();
    }

    /** `onChange`: the named field takes the new value; typing into one of
        the form's own inputs keeps the field list */
    method OnChange(name: string, value: string)
      modifies this
      ensures fields == Assign(old(fields), name, value) && status == old(status)
      ensures old(Valid()) && name in names ==> Valid()
    {
      fields := Assign(fields, name, value);
    }

    /** `onSubmit`: while a submission is in flight the submit button is
        disabled and nothing happens; otherwise the status becomes sending
        and `sendEmailJS` runs on the current fields, whose remote path
        receives them plus `form_type`.  The fields are never cleared. */
    method Submit(cred: Gateway.Credentials, separator: string, remote: Gateway.RemoteOutcome)
      returns (submission: Option<Gateway.Submission>)
      modifies this
      ensures fields == old(fields) && status == Sending
      ensures old(Valid()) ==> Valid()
      ensures old(status) == Sending ==> submission == None
      ensures old(status) != Sending ==>
        submission == Some(Gateway.SendEmailJs(cred, separator, fields, TemplateParams(fields, formType), remote))
    {
      if status == Sending {
        return None;
      }
      status := Sending;
      submission := Some(Gateway.SendEmailJs(cred, separator, fields, TemplateParams(fields, formType), remote));
    }

    /** The awaited promise settles: sent when it resolves, error when it
        rejects */
    method Settle(result: Gateway.Promise)
      requires status == Sending
      modifies this
      ensures status == (if result.Resolved? then Sent else Error)
      ensures fields == old(fields)
      ensures old(Valid()) ==> Valid()
    {
      status := if result.Resolved? then Sent else Error;
    }
  }

  /** A submission ends in the error state only when the credentials are
      configured and the remote call failed */
  lemma ErrorOnlyFromRemote(cred: Gateway.Credentials, separator: string, fields: seq<(string, string)>,
                            formType: string, remote: Gateway.RemoteOutcome)
    ensures Gateway.SendEmailJs(cred, separator, fields, TemplateParams(fields, formType), remote).result.Resolved?
      <==> !Gateway.Configured(cred) || remote.RemoteOk?
  {
  }

  /** The remote call receives the form's own fields unchanged and, after
      them, the form type */
  lemma TemplateParamsExtendFields(fields: seq<(string, string)>, formType: string)
    requires "form_type" !in Keys(fields)
    ensures Keys(TemplateParams(fields, formType)) == Keys(fields) + ["form_type"]
    ensures Lookup(TemplateParams(fields, formType), "form_type") == Some(formType)
    ensures forall k | k != "form_type" :: Lookup(TemplateParams(fields, formType), k) == Lookup(fields, k)
  {
  }
}
