/** The few JavaScript string operations the site's decision logic uses:
    `startsWith`, `includes`, `split` with a one-character separator and
    `Array.prototype.join`; and `IndexOf`, which the site does not call but
    the model's readers of a query pair and of a mailto header use. */
module Text {

  datatype Option<+T> = None | Some(value: T)

  /** `s.startsWith(p)` */
  predicate StartsWith(s: string, p: string) {
    |p| <= |s| && s[..|p|] == p
  }

  /** A prefix, character by character */
  lemma StartsWithChars(s: string, p: string)
    ensures StartsWith(s, p) <==> |p| <= |s| && forall i | 0 <= i < |p| :: s[i] == p[i]
  {
    if |p| <= |s| && forall i | 0 <= i < |p| :: s[i] == p[i] {
      assert s[..|p|] == p;
    }
  }

  /** p occurs in s at position i */
  predicate OccursAt(s: string, p: string, i: int) {
    0 <= i && i + |p| <= |s| && s[i..i + |p|] == p
  }

  lemma OccursAtTail(s: string, p: string, i: int)
    requires |s| > 0 && i >= 0
    ensures OccursAt(s[1..], p, i) <==> OccursAt(s, p, i + 1)
  {
    if 0 <= i && i + |p| <= |s[1..]| {
      assert s[1..][i..i + |p|] == s[i + 1..i + 1 + |p|];
    }
  }

  /** `s.includes(p)`: true exactly when p occurs somewhere in s */
  function Includes(s: string, p: string): (r: bool)
    ensures r <==> exists i :: OccursAt(s, p, i)
    decreases |s|
  {
    if |p| > |s| then false
    else if s[..|p|] == p then (assert OccursAt(s, p, 0); true)
    else
      var r := Includes(s[1..], p);
      assert forall i | i >= 0 :: OccursAt(s[1..], p, i) <==> OccursAt(s, p, i + 1) by {
        forall i | i >= 0 { OccursAtTail(s, p, i); }
      }
      assert !OccursAt(s, p, 0);
      assert r ==> exists i :: OccursAt(s, p, i) by {
        if r { var i :| OccursAt(s[1..], p, i); assert OccursAt(s, p, i + 1); }
      }
      assert (exists i :: OccursAt(s, p, i)) ==> r by {
        if exists i :: OccursAt(s, p, i) {
          var i :| OccursAt(s, p, i);
          assert OccursAt(s[1..], p, i - 1);
        }
      }
      r
  }

  /** `s.indexOf(c)`: the first position of c, or -1 */
  function IndexOf(s: string, c: char): (r: int)
    ensures -1 <= r < |s|
    ensures r == -1 <==> c !in s
    ensures 0 <= r ==> s[r] == c && c !in s[..r]
  {
    if s == [] then -1
    else if s[0] == c then 0
    else
      var r := IndexOf(s[1..], c);
      assert s[1..][..r + 1] == s[1..r + 2] by { }
      if r == -1 then -1
      else (assert s[..r + 1] == [s[0]] + s[1..][..r]; r + 1)
  }

  /** `parts.join(sep)` */
  function Join(parts: seq<string>, sep: string): string
    decreases |parts|
  {
    if |parts| == 0 then ""
    else if |parts| == 1 then parts[0]
    else parts[0] + sep + Join(parts[1..], sep)
  }

  /** A join of no pieces is empty; otherwise it starts with the first
      piece and ends with the last */
  lemma {:induction false} JoinEnds(parts: seq<string>, sep: string)
    ensures |parts| == 0 ==> Join(parts, sep) == ""
    ensures |parts| > 0 ==> StartsWith(Join(parts, sep), parts[0])
    ensures |parts| > 0 ==> var r, last := Join(parts, sep), parts[|parts| - 1];
      |last| <= |r| && r[|r| - |last|..] == last
    decreases |parts|
  {
    if |parts| > 1 {
      var tail := Join(parts[1..], sep);
      JoinEnds(parts[1..], sep);
      assert parts[1..][|parts[1..]| - 1] == parts[|parts| - 1];
      var r := parts[0] + sep + tail;
      assert Join(parts, sep) == r;
      assert r[..|parts[0]|] == parts[0];
      assert r[|r| - |tail|..] == tail;
    }
  }

  lemma JoinThree(a: string, b: string, c: string, sep: string)
    ensures Join([a, b, c], sep) == a + sep + b + sep + c
  {
    assert [a, b, c][1..] == [b, c];
    assert [b, c][1..] == [c];
    assert Join([c], sep) == c;
    assert Join([b, c], sep) == b + sep + c;
  }

  /** A character the separator lacks occurs in a join exactly when it
      occurs in one of the pieces */
  lemma {:induction false} JoinHasChar(parts: seq<string>, sep: string, c: char)
    requires c !in sep
    ensures c in Join(parts, sep) <==> exists i | 0 <= i < |parts| :: c in parts[i]
    decreases |parts|
  {
    if |parts| > 1 {
      JoinHasChar(parts[1..], sep, c);
      assert (exists i | 0 <= i < |parts| :: c in parts[i])
        <==> c in parts[0] || exists i | 0 <= i < |parts[1..]| :: c in parts[1..][i] by {
        if exists i | 0 <= i < |parts| :: c in parts[i] {
          var i :| 0 <= i < |parts| && c in parts[i];
          if i > 0 { assert parts[1..][i - 1] == parts[i]; }
        }
        if exists i | 0 <= i < |parts[1..]| :: c in parts[1..][i] {
          var i :| 0 <= i < |parts[1..]| && c in parts[1..][i];
          assert parts[i + 1] == parts[1..][i];
        }
      }
    } else if |parts| == 1 {
      assert c in parts[0] ==> exists i | 0 <= i < |parts| :: c in parts[i];
    }
  }

  /** `s.split(sep)` for a one-character separator: the pieces between the
      occurrences of sep, never fewer than one, joined back they give s */
  function Split(s: string, sep: char): (parts: seq<string>)
    ensures |parts| >= 1
    ensures forall i | 0 <= i < |parts| :: sep !in parts[i]
    ensures Join(parts, [sep]) == s
    decreases |s|
  {
    if s == [] then [""]
    else
      var rest := Split(s[1..], sep);
      if s[0] == sep then
        assert Join([""] + rest, [sep]) == [sep] + Join(rest, [sep]) by {
          assert ([""] + rest)[1..] == rest;
        }
        [""] + rest
      else
        var parts := [[s[0]] + rest[0]] + rest[1..];
        assert Join(parts, [sep]) == [s[0]] + Join(rest, [sep]) by {
          assert parts[1..] == rest[1..];
        }
        parts
  }

  /** Splitting undoes joining when no piece holds the separator */
  lemma {:induction false} SplitJoin(parts: seq<string>, sep: char)
    requires |parts| >= 1
    requires forall i | 0 <= i < |parts| :: sep !in parts[i]
    ensures Split(Join(parts, [sep]), sep) == parts
    decreases |parts|
  {
    if |parts| == 1 {
      NoSeparator(parts[0], sep);
    } else {
      SplitJoin(parts[1..], sep);
      SplitAfter(parts[0], Join(parts[1..], [sep]), sep);
    }
  }

  /** A string without the separator is one piece */
  lemma {:induction false} NoSeparator(s: string, sep: char)
    requires sep !in s
    ensures Split(s, sep) == [s]
    decreases |s|
  {
    if s != [] {
      NoSeparator(s[1..], sep);
    }
  }

  /** The first occurrence of the separator ends the first piece */
  lemma {:induction false} SplitAfter(a: string, b: string, sep: char)
    requires sep !in a
    ensures Split(a + [sep] + b, sep) == [a] + Split(b, sep)
    decreases |a|
  {
    if a == [] {
      assert a + [sep] + b == [sep] + b;
      assert (a + [sep] + b)[1..] == b;
    } else {
      SplitAfter(a[1..], b, sep);
      assert (a + [sep] + b)[1..] == a[1..] + [sep] + b;
      assert [a[0]] + a[1..] == a;
    }
  }

  /** Splitting at a separator between two texts splits each of them */
  lemma {:induction false} SplitConcat(a: string, b: string, sep: char)
    ensures Split(a + [sep] + b, sep) == Split(a, sep) + Split(b, sep)
    decreases |a|
  {
    var s := a + [sep] + b;
    if a == [] {
      assert s == [sep] + b && s[1..] == b;
    } else {
      assert s[0] == a[0] && s[1..] == a[1..] + [sep] + b;
      SplitConcat(a[1..], b, sep);
      var ra := Split(a[1..], sep);
      if a[0] != sep {
        assert (ra + Split(b, sep))[0] == ra[0];
        assert (ra + Split(b, sep))[1..] == ra[1..] + Split(b, sep);
      }
    }
  }

  /** `s.split(sep)[0]`: the text before the first separator */
  function BeforeFirst(s: string, sep: char): (r: string)
    ensures sep !in r
    ensures StartsWith(s, r)
    ensures r == s <==> sep !in s
    ensures sep in s ==> |r| < |s| && s[|r|] == sep
  {
    FirstPiece(s, sep);
    Split(s, sep)[0]
  }

  lemma {:induction false} FirstPiece(s: string, sep: char)
    ensures IndexOf(s, sep) == -1 ==> Split(s, sep)[0] == s
    ensures IndexOf(s, sep) >= 0 ==> Split(s, sep)[0] == s[..IndexOf(s, sep)]
    decreases |s|
  {
    var i := IndexOf(s, sep);
    if i == -1 {
      NoSeparator(s, sep);
    } else {
      assert s == s[..i] + [sep] + s[i + 1..];
      SplitAfter(s[..i], s[i + 1..], sep);
    }
  }

  /** Whatever follows a separator never changes the text before the first one */
  lemma {:induction false} BeforeFirstIgnoresSuffix(s: string, sep: char, rest: string)
    ensures BeforeFirst(s + [sep] + rest, sep) == BeforeFirst(s, sep)
  {
    var i := IndexOf(s, sep);
    var t := s + [sep] + rest;
    var j := IndexOf(t, sep);
    FirstPiece(s, sep);
    FirstPiece(t, sep);
    if i == -1 {
      assert t[|s|] == sep && t[..|s|] == s;
    } else {
      assert t[..i] == s[..i] && t[i] == sep;
    }
  }

  /** The names of a name-value list, in order */
  function Keys(pairs: seq<(string, string)>): (keys: seq<string>)
    ensures |keys| == |pairs|
    ensures forall i | 0 <= i < |pairs| :: keys[i] == pairs[i].0
    decreases |pairs|
  {
    if pairs == [] then [] else [pairs[0].0] + Keys(pairs[1..])
  }

  /** The value of the first pair with that name, or None (JavaScript's
      null or undefined) when there is none */
  function Lookup(pairs: seq<(string, string)>, name: string): (r: Option<string>)
    ensures r.None? <==> name !in Keys(pairs)
    ensures r.Some? ==> exists i | 0 <= i < |pairs| ::
      (pairs[i] == (name, r.value) && forall j | 0 <= j < i :: pairs[j].0 != name)
    decreases |pairs|
  {
    if pairs == [] then None
    else if pairs[0].0 == name then Some(pairs[0].1)
    else
      var r := Lookup(pairs[1..], name);
      assert forall i | 1 <= i < |pairs| :: pairs[i] == pairs[1..][i - 1];
      if r.Some? then
        var i :| 0 <= i < |pairs[1..]| && pairs[1..][i] == (name, r.value)
          && forall j | 0 <= j < i :: pairs[1..][j].0 != name;
        assert pairs[i + 1] == (name, r.value);
        assert forall j | 0 <= j < i + 1 :: pairs[j].0 != name by {
          forall j | 0 <= j < i + 1 ensures pairs[j].0 != name {
            if j > 0 { assert pairs[j] == pairs[1..][j - 1]; }
          }
        }
        r
      else r
  }

  /** The first pair with a name gives that name's value */
  lemma LookupAt(pairs: seq<(string, string)>, i: int)
    requires 0 <= i < |pairs| && forall j | 0 <= j < i :: pairs[j].0 != pairs[i].0
    ensures Lookup(pairs, pairs[i].0) == Some(pairs[i].1)
  {
    var r := Lookup(pairs, pairs[i].0);
    assert Keys(pairs)[i] == pairs[i].0;
    var k :| 0 <= k < |pairs| && pairs[k] == (pairs[i].0, r.value) && forall j | 0 <= j < k :: pairs[j].0 != pairs[i].0;
    assert k == i;
  }

  /** Looking a name up in two lists one after the other: the first list
      answers when it holds the name, the second otherwise */
  lemma {:induction false} LookupAppend(x: seq<(string, string)>, y: seq<(string, string)>, k: string)
    ensures Lookup(x + y, k) == if k in Keys(x) then Lookup(x, k) else Lookup(y, k)
    decreases |x|
  {
    if x == [] {
      assert x + y == y;
    } else {
      var xy := x + y;
      assert xy[0] == x[0] && xy[1..] == x[1..] + y;
      if x[0].0 == k {
        assert Lookup(xy, k) == Some(x[0].1);
        assert Lookup(x, k) == Some(x[0].1);
        assert Keys(x)[0] == k;
      } else {
        LookupAppend(x[1..], y, k);
        assert Lookup(xy, k) == Lookup(x[1..] + y, k);
        assert Lookup(x, k) == Lookup(x[1..], k);
        assert Keys(x) == [x[0].0] + Keys(x[1..]);
      }
    }
  }
}
