/** `sendEmailJS`: the remote EmailJS call when the three credentials are
    set, otherwise a `mailto:` hand-off (RFC 6068 section 2) whose subject
    and body are percent-encoded with `encodeURIComponent`. */
module Gateway {
  import opened Text
  import UriComponent

  /** EMAILJS_SERVICE_ID, EMAILJS_TEMPLATE_ID, EMAILJS_PUBLIC_KEY */
  datatype Credentials = Credentials(serviceId: string, templateId: string, publicKey: string)

  const PlaceholderMarker := "YOUR_"
  const SupportAddress := "flashfyonlinestore@gmail.com"
  const Subject := "Flashfy request"

  /** What the remote `emailjs.send` promise settles to; the service is not
      part of this model, so its outcome is an input */
  datatype RemoteOutcome = RemoteOk(response: string) | RemoteFailed(reason: string)

  datatype Ack = FallbackUsed | Delivered(response: string)

  /** How the promise `sendEmailJS` returns settles */
  datatype Promise = Resolved(ack: Ack) | Rejected(reason: string)

  /** One `emailjs.send(service, template, params, key)` call */
  datatype EmailJsCall = EmailJsCall(serviceId: string, templateId: string, params: seq<(string, string)>, publicKey: string)

  /** Everything one `sendEmailJS` call does: the remote calls it makes,
      the address it navigates to, and the promise it returns */
  datatype Submission = Submission(remoteCalls: seq<EmailJsCall>, navigation: Option<string>, result: Promise)

  /** The remote path is taken only when no credential is empty and the
      service id (and only the service id) lacks the placeholder marker */
  predicate Configured(c: Credentials)
    ensures Configured(c) <==>
      && c.serviceId != "" && c.templateId != "" && c.publicKey != ""
      && forall i :: !OccursAt(c.serviceId, PlaceholderMarker, i)
  {
    && c.serviceId != "" && c.templateId != "" && c.publicKey != ""
    && !Includes(c.serviceId, PlaceholderMarker)
  }

  /** `Object.entries(formData).map(([k,v]) => `${k}: ${v}`)` */
  function EntryLines(fields: seq<(string, string)>): (lines: seq<string>)
    ensures |lines| == |fields|
    ensures forall i | 0 <= i < |fields| :: lines[i] == fields[i].0 + ": " + fields[i].1
    decreases |fields|
  {
    if fields == [] then [] else [fields[0].0 + ": " + fields[0].1] + EntryLines(fields[1..])
  }

  /** The fallback message: the entry lines joined by the separator.  A
      separator without line breaks adds none: the body then holds one
      exactly when some name or value does */
  function MailBody(fields: seq<(string, string)>, separator: string): (body: string)
    ensures '\n' !in separator ==>
      ('\n' in body <==> exists i | 0 <= i < |fields| :: '\n' in fields[i].0 || '\n' in fields[i].1)
  {
    BodyLineBreaks(fields, separator);
    Join(EntryLines(fields), separator)
  }

  lemma BodyLineBreaks(fields: seq<(string, string)>, separator: string)
    ensures '\n' !in separator ==>
      ('\n' in Join(EntryLines(fields), separator) <==>
        exists i | 0 <= i < |fields| :: '\n' in fields[i].0 || '\n' in fields[i].1)
  {
    var lines := EntryLines(fields);
    if '\n' !in separator {
      JoinHasChar(lines, separator, '\n');
      forall i | 0 <= i < |fields|
        ensures '\n' in lines[i] <==> '\n' in fields[i].0 || '\n' in fields[i].1
      {
        LineBreakInEntry(fields[i].0, fields[i].1);
      }
    }
  }

  lemma LineBreakInEntry(name: string, value: string)
    ensures '\n' in name + ": " + value <==> '\n' in name || '\n' in value
  {
    var line := name + ": " + value;
    if '\n' in line {
      var j :| 0 <= j < |line| && line[j] == '\n';
      if j >= |name| + 2 { assert value[j - |name| - 2] == '\n'; }
    }
  }

  const FallbackPrefix := "mailto:" + SupportAddress + "?subject="

  /** The `mailto:` address the fallback navigates to: whatever the form
      holds, the address carries no space and no line break of its own */
  function FallbackHref(fields: seq<(string, string)>, separator: string): (href: string)
    ensures StartsWith(href, FallbackPrefix)
    ensures ' ' !in href && '\n' !in href
  {
    var subject := UriComponent.EncodeURIComponent(Subject);
    var body := UriComponent.EncodeURIComponent(MailBody(fields, separator));
    LiteralsHaveNoBlank();
    HrefHasNoBlank(FallbackPrefix, subject, body);
    FallbackPrefix + subject + BodyField + body
  }

  /** The literals around two encoded components keep the whole free of
      blanks */
  lemma HrefHasNoBlank(prefix: string, subject: string, body: string)
    requires ' ' !in prefix && '\n' !in prefix && ' ' !in BodyField && '\n' !in BodyField
    requires forall i | 0 <= i < |subject| :: UriComponent.Unreserved(subject[i]) || subject[i] == '%'
    requires forall i | 0 <= i < |body| :: UriComponent.Unreserved(body[i]) || body[i] == '%'
    ensures StartsWith(prefix + subject + BodyField + body, prefix)
    ensures ' ' !in prefix + subject + BodyField + body && '\n' !in prefix + subject + BodyField + body
  {
    NoBlank(subject);
    NoBlank(body);
    NoBlankAppend(prefix, subject);
    NoBlankAppend(prefix + subject, BodyField);
    NoBlankAppend(prefix + subject + BodyField, body);
    assert (prefix + subject + BodyField + body)[..|prefix|] == prefix;
  }

  const BodyField := "&body="

  lemma LiteralsHaveNoBlank()
    ensures ' ' !in FallbackPrefix && '\n' !in FallbackPrefix
    ensures ' ' !in BodyField && '\n' !in BodyField
  {
  }

  lemma NoBlankAppend(a: string, b: string)
    requires ' ' !in a && '\n' !in a && ' ' !in b && '\n' !in b
    ensures ' ' !in a + b && '\n' !in a + b
  {
  }

  /** An encoded component holds no space or line break */
  lemma NoBlank(enc: string)
    requires forall i | 0 <= i < |enc| :: UriComponent.Unreserved(enc[i]) || enc[i] == '%'
    ensures ' ' !in enc && '\n' !in enc
  {
  }

  function AsPromise(remote: RemoteOutcome): Promise {
    match remote
    case RemoteOk(response) => Resolved(Delivered(response))
    case RemoteFailed(reason) => Rejected(reason)
  }

  /** `sendEmailJS(formData, templateParams)`: when configured, exactly one
      remote call with the template parameters and its outcome passed on
      unchanged; otherwise no remote call, navigation to the fallback
      address, and a promise that resolves to the fallback marker.  The
      returned promise rejects only on the remote path. */
  function SendEmailJs(cred: Credentials, separator: string, formData: seq<(string, string)>,
                       templateParams: seq<(string, string)>, remote: RemoteOutcome): (s: Submission)
    ensures Configured(cred) ==>
      && s.remoteCalls == [EmailJsCall(cred.serviceId, cred.templateId, templateParams, cred.publicKey)]
      && s.navigation == None
      && s.result == AsPromise(remote)
    ensures !Configured(cred) ==>
      && s.remoteCalls == []
      && s.navigation == Some(FallbackHref(formData, separator))
      && s.result == Resolved(FallbackUsed)
    ensures s.result.Rejected? ==> Configured(cred) && remote.RemoteFailed?
  {
    if !Configured(cred) then
      Submission([], Some(FallbackHref(formData, separator)), Resolved(FallbackUsed))
    else
      Submission([EmailJsCall(cred.serviceId, cred.templateId, templateParams, cred.publicKey)], None, AsPromise(remote))
  }

  /** A `mailto:` URI read back as RFC 6068 section 2 defines it: the
      recipient before '?', then '&'-separated `hfname=hfvalue` fields, all
      percent-decoded as UTF-8 */
  datatype MailtoUri = MailtoUri(to: string, headers: seq<(string, string)>)

  function Header(hfield: string): Option<(string, string)> {
    var i := IndexOf(hfield, '=');
    if i == -1 then None
    else Some((UriComponent.DecodeComponent(hfield[..i]), UriComponent.DecodeComponent(hfield[i + 1..])))
  }

  function Headers(hfields: seq<string>): Option<seq<(string, string)>>
    decreases |hfields|
  {
    if hfields == [] then Some([])
    else
      var h := Header(hfields[0]);
      var hs := Headers(hfields[1..]);
      if h.Some? && hs.Some? then Some([h.value] + hs.value) else None
  }

  function ParseMailto(uri: string): Option<MailtoUri> {
    if !StartsWith(uri, "mailto:") then None
    else
      var rest := uri[7..];
      var q := IndexOf(rest, '?');
      var to := UriComponent.DecodeComponent(if q == -1 then rest else rest[..q]);
      if q == -1 then Some(MailtoUri(to, []))
      else match Headers(Split(rest[q + 1..], '&'))
        case Some(hs) => Some(MailtoUri(to, hs))
        case None => None
  }

  lemma PlainHeader(name: string, text: string)
    requires '=' !in name && '%' !in name
    ensures Header(name + "=" + UriComponent.EncodeURIComponent(text)) == Some((name, text))
  {
    var enc := UriComponent.EncodeURIComponent(text);
    var h := name + "=" + enc;
    assert h[|name|] == '=' && h[..|name|] == name && h[|name| + 1..] == enc;
    UriComponent.DecodePlain(name);
    UriComponent.DecodeEncode(text);
  }

  /** A `mailto:` URI with a plain recipient and two header fields */
  lemma TwoFieldMailto(to: string, f1: string, f2: string)
    requires '?' !in to && '%' !in to && '&' !in f1 && '&' !in f2
    ensures ParseMailto("mailto:" + to + "?" + f1 + "&" + f2) ==
      var hs := Headers([f1, f2]);
      if hs.Some? then Some(MailtoUri(to, hs.value)) else None
  {
    var rest := to + "?" + (f1 + "&" + f2);
    var uri := "mailto:" + to + "?" + f1 + "&" + f2;
    assert uri == "mailto:" + rest;
    assert StartsWith(uri, "mailto:") && uri[7..] == rest;
    assert rest[|to|] == '?' && rest[..|to|] == to;
    assert IndexOf(rest, '?') == |to|;
    assert rest[|to| + 1..] == f1 + ['&'] + f2;
    UriComponent.DecodePlain(to);
    SplitAfter(f1, f2, '&');
    NoSeparator(f2, '&');
  }

  lemma TwoHeaders(n1: string, t1: string, n2: string, t2: string)
    requires '=' !in n1 && '%' !in n1 && '=' !in n2 && '%' !in n2
    ensures Headers([n1 + "=" + UriComponent.EncodeURIComponent(t1), n2 + "=" + UriComponent.EncodeURIComponent(t2)])
      == Some([(n1, t1), (n2, t2)])
  {
    var f1 := n1 + "=" + UriComponent.EncodeURIComponent(t1);
    var f2 := n2 + "=" + UriComponent.EncodeURIComponent(t2);
    PlainHeader(n1, t1);
    PlainHeader(n2, t2);
    var none: seq<string> := [];
    HeadersCons(f2, none);
    assert [f2] + none == [f2];
    assert Headers(none) == Some([]);
    var single: seq<(string, string)> := [(n2, t2)];
    assert single + [] == single;
    assert Headers([f2]) == Some(single);
    HeadersCons(f1, [f2]);
    assert [f1] + [f2] == [f1, f2];
    assert Headers([f1, f2]) == Some([(n1, t1)] + single);
    assert [(n1, t1)] + single == [(n1, t1), (n2, t2)];
  }

  lemma HeadersCons(f: string, fs: seq<string>)
    ensures Headers([f] + fs) ==
      var h := Header(f);
      var hs := Headers(fs);
      if h.Some? && hs.Some? then Some([h.value] + hs.value) else None
  {
    assert ([f] + fs)[0] == f && ([f] + fs)[1..] == fs;
  }

  /** `mailto:to?subject=...&body=...` with both values encoded by
      `encodeURIComponent` reads back as those two values */
  lemma {:induction false} SubjectBodyRoundTrip(to: string, subject: string, body: string)
    requires '?' !in to && '%' !in to
    ensures ParseMailto("mailto:" + to + "?subject=" + UriComponent.EncodeURIComponent(subject)
      + "&body=" + UriComponent.EncodeURIComponent(body))
      == Some(MailtoUri(to, [("subject", subject), ("body", body)]))
  {
    var f1 := "subject" + "=" + UriComponent.EncodeURIComponent(subject);
    var f2 := "body" + "=" + UriComponent.EncodeURIComponent(body);
    HrefRegroup("mailto:" + to, UriComponent.EncodeURIComponent(subject), UriComponent.EncodeURIComponent(body));
    UriComponent.EncodedHasNoDelimiters(subject);
    UriComponent.EncodedHasNoDelimiters(body);
    TwoFieldMailto(to, f1, f2);
    TwoHeaders("subject", subject, "body", body);
  }

  lemma HrefRegroup(a: string, x: string, y: string)
    ensures a + "?subject=" + x + "&body=" + y == a + "?" + ("subject" + "=" + x) + "&" + ("body" + "=" + y)
  {
    assert "?subject=" == "?" + "subject" + "=";
    assert "&body=" == "&" + "body" + "=";
  }

  lemma SupportAddressIsPlain()
    ensures '?' !in SupportAddress && '%' !in SupportAddress
  {
  }

  /** The fallback address reads back as a message to the support address
      with the fixed subject and exactly the body that was encoded */
  lemma FallbackHrefRoundTrip(fields: seq<(string, string)>, separator: string)
    ensures ParseMailto(FallbackHref(fields, separator)) ==
      Some(MailtoUri(SupportAddress, [("subject", Subject), ("body", MailBody(fields, separator))]))
  {
    SupportAddressIsPlain();
    SubjectBodyRoundTrip(SupportAddress, Subject, MailBody(fields, separator));
  }

  /** Joined with a newline, the body splits back into exactly the entry
      lines, provided no name or value holds a line break of its own */
  lemma BodyLines(fields: seq<(string, string)>)
    requires |fields| >= 1
    requires forall i | 0 <= i < |fields| :: '\n' !in fields[i].0 && '\n' !in fields[i].1
    ensures Split(MailBody(fields, "\n"), '\n') == EntryLines(fields)
  {
    var lines := EntryLines(fields);
    assert forall i | 0 <= i < |lines| :: '\n' !in lines[i] by {
      forall i | 0 <= i < |lines| ensures '\n' !in lines[i] {
        assert lines[i] == fields[i].0 + ": " + fields[i].1;
      }
    }
    SplitJoin(lines, '\n');
  }

  /** Pieces and a separator free of line breaks join into a single line */
  lemma {:induction false} JoinHasNoLineBreak(parts: seq<string>, separator: string)
    requires '\n' !in separator
    requires forall i | 0 <= i < |parts| :: '\n' !in parts[i]
    ensures '\n' !in Join(parts, separator)
    decreases |parts|
  {
    if |parts| > 1 {
      JoinHasNoLineBreak(parts[1..], separator);
    }
  }
}
