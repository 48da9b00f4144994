/** `new URLSearchParams(init)` and `get(name)`: the
    application/x-www-form-urlencoded parser of the WHATWG URL Standard,
    section 5.1. */
module UrlSearchParams {
  import opened Text
  import UriComponent

  /** Every '+' read as a space */
  function PlusToSpace(s: string): (r: string)
    ensures |r| == |s|
    ensures forall i | 0 <= i < |s| :: r[i] == (if s[i] == '+' then ' ' else s[i])
    decreases |s|
  {
    if s == [] then "" else [if s[0] == '+' then ' ' else s[0]] + PlusToSpace(s[1..])
  }

  /** One non-empty `&`-separated piece: the name is what precedes the first
      '=', the value all that follows it (empty when there is no '='); both
      have '+' read as a space and are then percent-decoded as UTF-8 */
  function ParsePair(piece: string): (pair: (string, string))
    ensures '=' !in piece ==> pair.1 == ""
  {
    UriComponent.DecodePlain("");
    var i := IndexOf(piece, '=');
    var name := if i == -1 then piece else piece[..i];
    var value := if i == -1 then "" else piece[i + 1..];
    (UriComponent.DecodeComponent(PlusToSpace(name)), UriComponent.DecodeComponent(PlusToSpace(value)))
  }

  /** The pieces in order, skipping the empty ones */
  function ParsePieces(pieces: seq<string>): (pairs: seq<(string, string)>)
    ensures |pairs| <= |pieces|
    decreases |pieces|
  {
    if pieces == [] then []
    else if pieces[0] == "" then ParsePieces(pieces[1..])
    else [ParsePair(pieces[0])] + ParsePieces(pieces[1..])
  }

  /** The first piece gives its pair, unless it is empty, before the
      pairs of the rest */
  lemma ParsePiecesCons(x: string, rest: seq<string>)
    ensures ParsePieces([x] + rest) == (if x == "" then [] else [ParsePair(x)]) + ParsePieces(rest)
  {
    assert ([x] + rest)[0] == x && ([x] + rest)[1..] == rest;
  }

  /** Without empty pieces there is one pair per piece, in the pieces'
      order; empty pieces alone give no pair */
  lemma {:induction false} ParsePiecesInOrder(pieces: seq<string>)
    ensures (forall i | 0 <= i < |pieces| :: pieces[i] != "") ==>
      |ParsePieces(pieces)| == |pieces| && forall i | 0 <= i < |pieces| :: ParsePieces(pieces)[i] == ParsePair(pieces[i])
    ensures (forall i | 0 <= i < |pieces| :: pieces[i] == "") ==> ParsePieces(pieces) == []
    decreases |pieces|
  {
    if pieces != [] {
      var tail := pieces[1..];
      ParsePiecesInOrder(tail);
      assert pieces == [pieces[0]] + tail;
      ParsePiecesCons(pieces[0], tail);
      assert forall i | 1 <= i < |pieces| :: pieces[i] == tail[i - 1];
    }
  }

  /** Reading two lists of pieces one after the other */
  lemma {:induction false} ParsePiecesAppend(p: seq<string>, q: seq<string>)
    ensures ParsePieces(p + q) == ParsePieces(p) + ParsePieces(q)
    decreases |p|
  {
    if p == [] {
      assert p + q == q;
    } else {
      ParsePiecesAppend(p[1..], q);
      assert p == [p[0]] + p[1..];
      AppendStep(p[0], p[1..], q);
    }
  }

  lemma AppendStep(x: string, tail: seq<string>, q: seq<string>)
    requires ParsePieces(tail + q) == ParsePieces(tail) + ParsePieces(q)
    ensures ParsePieces([x] + tail + q) == ParsePieces([x] + tail) + ParsePieces(q)
  {
    AppendAssoc([x], tail, q);
    ParsePiecesCons(x, tail);
    ParsePiecesCons(x, tail + q);
    var head := if x == "" then [] else [ParsePair(x)];
    AppendAssoc(head, ParsePieces(tail), ParsePieces(q));
  }

  lemma AppendAssoc<T>(a: seq<T>, b: seq<T>, c: seq<T>)
    ensures a + (b + c) == (a + b) + c
  {
  }

  /** The name-value list of `new URLSearchParams(init)`: a leading '?' is
      dropped, the rest is split on '&' */
  function Parse(init: string): (pairs: seq<(string, string)>)
    ensures init == "" || init == "?" ==> pairs == []
    ensures init != "" && init[0] != '?' && '&' !in init ==> pairs == [ParsePair(init)]
  {
    var input := if |init| > 0 && init[0] == '?' then init[1..] else init;
    assert '&' !in input ==> Split(input, '&') == [input] by {
      if '&' !in input { NoSeparator(input, '&'); }
    }
    assert [input][1..] == [];
    ParsePieces(Split(input, '&'))
  }

  /** A query with '&' is read piece by piece: the pairs before the '&' and
      then those after it */
  lemma ParseAppend(a: string, b: string)
    requires a == "" || a[0] != '?'
    requires b == "" || b[0] != '?'
    ensures Parse(a + "&" + b) == Parse(a) + Parse(b)
  {
    var q := a + "&" + b;
    assert q == a + ['&'] + b;
    assert q[0] != '?' by {
      if a == "" { assert q[0] == '&'; } else { assert q[0] == a[0]; }
    }
    SplitConcat(a, b, '&');
    ParsePiecesAppend(Split(a, '&'), Split(b, '&'));
  }

  /** A query `name=value` whose value was produced by `encodeURIComponent`
      yields exactly the encoded text under that name */
  lemma EncodedPairRoundTrip(name: string, text: string)
    requires name != [] && forall i | 0 <= i < |name| :: UriComponent.Unreserved(name[i])
    ensures Lookup(Parse(name + "=" + UriComponent.EncodeURIComponent(text)), name) == Some(text)
  {
    var query := name + "=" + UriComponent.EncodeURIComponent(text);
    EncodedPairParts(name, text);
    SinglePiece(query);
  }

  /** A parameter written with `encodeURIComponent` after other parameters
      is found, provided none of those has the same name */
  lemma LaterPairFound(others: string, name: string, text: string)
    requires '?' !in others
    requires name != [] && forall i | 0 <= i < |name| :: UriComponent.Unreserved(name[i])
    requires name !in Keys(Parse(others))
    ensures Lookup(Parse(others + "&" + name + "=" + UriComponent.EncodeURIComponent(text)), name) == Some(text)
  {
    var pair := name + "=" + UriComponent.EncodeURIComponent(text);
    assert others + "&" + name + "=" + UriComponent.EncodeURIComponent(text) == others + "&" + pair;
    assert others == "" || others[0] != '?' by {
      if others != "" { assert others[0] in others; }
    }
    EncodedPairParts(name, text);
    SinglePiece(pair);
    ParseAppend(others, pair);
    LookupAppend(Parse(others), Parse(pair), name);
    assert Lookup([(name, text)], name) == Some(text);
  }

  lemma EncodedPairParts(name: string, text: string)
    requires forall i | 0 <= i < |name| :: UriComponent.Unreserved(name[i])
    ensures var query := name + "=" + UriComponent.EncodeURIComponent(text);
      && '&' !in query && query[0] != '?'
      && ParsePair(query) == (name, text)
  {
    var enc := UriComponent.EncodeURIComponent(text);
    var query := name + "=" + enc;
    QueryChars(name, enc);
    IndexAfterName(name, enc);
    PlusUnchanged(name);
    PlusUnchanged(enc);
    UriComponent.DecodePlain(name);
    UriComponent.DecodeEncode(text);
  }

  lemma QueryChars(name: string, enc: string)
    requires forall i | 0 <= i < |name| :: UriComponent.Unreserved(name[i])
    requires forall i | 0 <= i < |enc| :: UriComponent.Unreserved(enc[i]) || enc[i] == '%'
    ensures '=' !in name && '+' !in name && '%' !in name
    ensures '&' !in enc && '+' !in enc
    ensures '&' !in name + "=" + enc && (name + "=" + enc)[0] != '?'
  {
    var query := name + "=" + enc;
    assert forall i | 0 <= i < |query| :: query[i] == '=' || UriComponent.Unreserved(query[i]) || query[i] == '%' by {
      forall i | 0 <= i < |query|
        ensures query[i] == '=' || UriComponent.Unreserved(query[i]) || query[i] == '%'
      {
        if i < |name| { assert query[i] == name[i]; }
        else if i > |name| { assert query[i] == enc[i - |name| - 1]; }
      }
    }
  }

  lemma IndexAfterName(name: string, rest: string)
    requires '=' !in name
    ensures IndexOf(name + "=" + rest, '=') == |name|
    ensures (name + "=" + rest)[..|name|] == name
    ensures (name + "=" + rest)[|name| + 1..] == rest
  {
    var query := name + "=" + rest;
    assert query[|name|] == '=' && query[..|name|] == name;
  }

  /** A query without '&' or a leading '?' is one pair */
  lemma SinglePiece(query: string)
    requires query != "" && '&' !in query && query[0] != '?'
    ensures Parse(query) == [ParsePair(query)]
  {
    NoSeparator(query, '&');
    assert [query][1..] == [];
  }

  lemma PlusUnchanged(s: string)
    requires '+' !in s
    ensures PlusToSpace(s) == s
  {
  }
}
