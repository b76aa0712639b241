/** The file extension that `extension` in media/utils.go sniffs from a URL with the pattern
      (?:(?:http://)|(?:https://)).+/.+\.([a-zA-Z0-9]{2,6})(?:\?.*)?$
    searched for anywhere in the URL, with Go's leftmost-first semantics, `.` matching any
    character but a newline and `$` matching only at the end of the text. */
module UrlExtension {

  import opened Wrappers

  predicate IsAlnum(c: char) {
    'a' <= c <= 'z' || 'A' <= c <= 'Z' || '0' <= c <= '9'
  }

  /** The length of the `http://` or `https://` that starts at index s, or 0 when neither does. */
  function SchemeLength(u: string, s: nat): (n: nat)
    requires s <= |u|
    ensures n == 0 || n == 7 || n == 8
    ensures s + n <= |u|
  {
    if s + 7 <= |u| && u[s..s + 7] == "http://" then 7
    else if s + 8 <= |u| && u[s..s + 8] == "https://" then 8
    else 0
  }

  /** The number of ASCII letters and digits in a row from index i. */
  function AlnumRun(u: string, i: nat): (n: nat)
    requires i <= |u|
    ensures i + n <= |u|
    ensures forall k :: i <= k < i + n ==> IsAlnum(u[k])
    ensures i + n < |u| ==> !IsAlnum(u[i + n])
    decreases |u| - i
  {
    if i < |u| && IsAlnum(u[i]) then 1 + AlnumRun(u, i + 1) else 0
  }

  /** `\.([a-zA-Z0-9]{2,6})(?:\?.*)?$` matches from the dot at index d. Since `?` is not
      alphanumeric, the group is the whole run of letters and digits after the dot. */
  predicate ExtensionAt(u: string, d: nat) {
    d < |u| && u[d] == '.' &&
    var n := AlnumRun(u, d + 1);
    2 <= n <= 6 && (d + 1 + n == |u| || u[d + 1 + n] == '?')
  }

  /** No newline from index s to the end of the text. */
  predicate NoNewlineFrom(u: string, s: nat)
    ensures NoNewlineFrom(u, s) <==> forall k :: s <= k < |u| ==> u[k] != '\n'
    decreases |u| - s
  {
    s >= |u| || (u[s] != '\n' && NoNewlineFrom(u, s + 1))
  }

  /** The pattern matches the tail of u from index s: the scheme at s, then `.+` (non-empty, up to
      p), the `/` at p, `.+` again (non-empty, up to d), and the extension part from the dot at d.
      Every part after the scheme is newline-free and the match runs to the end of the text, so
      the whole tail from s has no newline. */
  ghost predicate Match(u: string, s: nat, p: nat, d: nat) {
    && s < |u|
    && SchemeLength(u, s) > 0
    && NoNewlineFrom(u, s)
    && s + SchemeLength(u, s) < p < |u|
    && u[p] == '/'
    && p + 1 < d
    && ExtensionAt(u, d)
  }

  /** The text the function returns for the match whose dot is at d. */
  function Dotted(u: string, d: nat): (e: string)
    requires d < |u|
    ensures |e| == 1 + AlnumRun(u, d + 1) && e[0] == '.'
    ensures forall k :: 1 <= k < |e| ==> IsAlnum(e[k])
  {
    "." + u[d + 1 .. d + 1 + AlnumRun(u, d + 1)]
  }

  /** The leftmost index from i on where a scheme starts a newline-free tail. */
  function SchemeStart(u: string, i: nat): (r: Option<nat>)
    requires i <= |u|
    ensures r.Some? ==> i <= r.value < |u| && SchemeLength(u, r.value) > 0 && NoNewlineFrom(u, r.value)
    ensures forall s :: i <= s < |u| && SchemeLength(u, s) > 0 && NoNewlineFrom(u, s) ==> r.Some? && r.value <= s
    decreases |u| - i
  {
    if i == |u| then None
    else if SchemeLength(u, i) > 0 && NoNewlineFrom(u, i) then Some(i)
    else SchemeStart(u, i + 1)
  }

  /** The first `/` at or after index i. */
  function FirstSlash(u: string, i: nat): (r: Option<nat>)
    ensures r.Some? ==> i <= r.value < |u| && u[r.value] == '/'
    ensures forall p :: i <= p < |u| && u[p] == '/' ==> r.Some? && r.value <= p
    decreases |u| - i
  {
    if i >= |u| then None
    else if u[i] == '/' then Some(i)
    else FirstSlash(u, i + 1)
  }

  /** The last index d with i <= d < j where the extension part matches. */
  function LastExtensionDot(u: string, i: nat, j: nat): (r: Option<nat>)
    requires j <= |u|
    ensures r.Some? ==> i <= r.value < j && ExtensionAt(u, r.value)
    ensures forall d :: i <= d < j && ExtensionAt(u, d) ==> r.Some? && d <= r.value
    decreases j
  {
    if j <= i then None
    else if ExtensionAt(u, j - 1) then Some(j - 1)
    else LastExtensionDot(u, i, j - 1)
  }

  /** The dot where the search settles: the leftmost scheme start with a newline-free tail, the
      first `/` after at least one more character, then the last dot the extension part matches at
      after at least one more character. */
  function MatchDot(u: string): (r: Option<nat>)
    ensures r.Some? ==> r.value < |u| && ExtensionAt(u, r.value)
  {
    match SchemeStart(u, 0)
    case None => None
    case Some(s) =>
      match FirstSlash(u, s + SchemeLength(u, s) + 1)
      case None => None
      case Some(p) => LastExtensionDot(u, p + 2, |u|)
  }

  /** `extension`: "." and the captured group when the pattern matches, "" otherwise. */
  function Extension(u: string): (e: string)
    ensures e == "" || (e[0] == '.' && 3 <= |e| <= 7 && forall k :: 1 <= k < |e| ==> IsAlnum(e[k]))
  {
    match MatchDot(u)
    case None => ""
    case Some(d) => Dotted(u, d)
  }

  lemma MatchDotMatches(u: string)
    requires MatchDot(u).Some?
    ensures exists s, p :: Match(u, s, p, MatchDot(u).value)
  {
    var s := SchemeStart(u, 0).value;
    var p := FirstSlash(u, s + SchemeLength(u, s) + 1).value;
    assert Match(u, s, p, MatchDot(u).value);
  }

  lemma MatchDotIsLast(u: string, s': nat, p': nat, d': nat)
    requires Match(u, s', p', d')
    ensures MatchDot(u).Some? && d' <= MatchDot(u).value
  {
    var s := SchemeStart(u, 0).value;
    assert s + SchemeLength(u, s) <= s' + SchemeLength(u, s');
    var p := FirstSlash(u, s + SchemeLength(u, s) + 1).value;
    assert p <= p';
  }

  /** The pattern matches exactly when `Extension` is not empty, and then `Extension` returns the
      group of the match whose dot is the last one. That is the group Go captures: every match
      starts in a newline-free tail, so the leftmost start admits every dot any later start
      admits, and the greedy `.+` before `\.` moves the dot as far right as a match allows. */
  lemma ExtensionIsLastMatch(u: string)
    ensures Extension(u) == "" <==> forall s, p, d :: !Match(u, s, p, d)
    ensures Extension(u) != "" ==>
      exists s, p, d :: Match(u, s, p, d) && Extension(u) == Dotted(u, d) &&
        forall s', p', d' :: Match(u, s', p', d') ==> d' <= d
  {
    forall s': nat, p': nat, d': nat | Match(u, s', p', d') ensures MatchDot(u).Some? && d' <= MatchDot(u).value {
      MatchDotIsLast(u, s', p', d');
    }
    if MatchDot(u).Some? {
      MatchDotMatches(u);
    }
  }

  /** With a match whose dot is followed by no other dot, the result is that match's group. */
  lemma ExtensionOfMatch(u: string, s: nat, p: nat, d: nat)
    requires Match(u, s, p, d)
    requires forall k :: d < k < |u| ==> u[k] != '.'
    ensures Extension(u) == Dotted(u, d)
  {
    MatchDotIsLast(u, s, p, d);
    var m := MatchDot(u).value;
    assert u[m] == '.';
    assert m == d;
  }

  /** Without an `http://` or `https://` that is followed, after at least one more character, by a
      `/`, there is no extension. */
  lemma ExtensionNeedsSchemeAndSlash(u: string)
    requires forall s: nat, p: nat :: s <= |u| && SchemeLength(u, s) > 0 && s + SchemeLength(u, s) < p < |u| ==> u[p] != '/'
    ensures Extension(u) == ""
  {
    ExtensionIsLastMatch(u);
  }

  lemma AlnumRunExtended(u: string, q: string, i: nat)
    requires i <= |u|
    ensures AlnumRun(u + "?" + q, i) == AlnumRun(u, i)
    decreases |u| - i
  {
    if i < |u| {
      AlnumRunExtended(u, q, i + 1);
    }
  }

  lemma SchemeLengthExtended(u: string, q: string, s: nat)
    requires s <= |u|
    ensures SchemeLength(u + "?" + q, s) == SchemeLength(u, s)
  {
    var w := u + "?" + q;
    if s + 7 <= |w| && s + 7 > |u| {
      assert w[s..s + 7][|u| - s] == '?';
    }
    if s + 8 <= |w| && s + 8 > |u| {
      assert w[s..s + 8][|u| - s] == '?';
    }
    if s + 7 <= |u| {
      assert w[s..s + 7] == u[s..s + 7];
    }
    if s + 8 <= |u| {
      assert w[s..s + 8] == u[s..s + 8];
    }
  }

  lemma NoNewlineExtended(u: string, q: string, s: nat)
    requires s <= |u| && '\n' !in q
    ensures NoNewlineFrom(u + "?" + q, s) <==> NoNewlineFrom(u, s)
  {
    var w := u + "?" + q;
    forall k | s <= k < |u| ensures w[k] == u[k] { }
    forall k | |u| < k < |w| ensures w[k] != '\n' {
      assert w[k] == q[k - |u| - 1];
    }
    assert w[|u|] == '?';
  }

  lemma ExtensionAtExtended(u: string, q: string, d: nat)
    requires d < |u|
    ensures ExtensionAt(u + "?" + q, d) <==> ExtensionAt(u, d)
  {
    var w := u + "?" + q;
    AlnumRunExtended(u, q, d + 1);
    var n := AlnumRun(u, d + 1);
    assert w[d] == u[d];
    if d + 1 + n < |u| {
      assert w[d + 1 + n] == u[d + 1 + n];
    } else {
      assert w[|u|] == '?';
    }
  }

  lemma NoExtensionPastEnd(u: string, q: string, d: nat)
    requires d >= |u| && '.' !in q
    ensures !ExtensionAt(u + "?" + q, d)
  {
    var w := u + "?" + q;
    if |u| < d < |w| {
      assert w[d] == q[d - |u| - 1];
    }
  }

  lemma MatchExtended(u: string, q: string, s: nat, p: nat, d: nat)
    requires '.' !in q && '\n' !in q
    ensures Match(u + "?" + q, s, p, d) <==> Match(u, s, p, d)
  {
    var w := u + "?" + q;
    if d < |u| && s <= |u| {
      SchemeLengthExtended(u, q, s);
      NoNewlineExtended(u, q, s);
      ExtensionAtExtended(u, q, d);
      if p < |u| {
        assert w[p] == u[p];
      }
    } else if d >= |u| {
      NoExtensionPastEnd(u, q, d);
    }
  }

  lemma MatchDotExtendedBelow(u: string, q: string)
    requires '.' !in q && '\n' !in q
    requires MatchDot(u).Some?
    ensures MatchDot(u + "?" + q).Some? && MatchDot(u).value <= MatchDot(u + "?" + q).value
  {
    var d := MatchDot(u).value;
    MatchDotMatches(u);
    var s, p :| Match(u, s, p, d);
    MatchExtended(u, q, s, p, d);
    MatchDotIsLast(u + "?" + q, s, p, d);
  }

  lemma MatchDotExtendedAbove(u: string, q: string)
    requires '.' !in q && '\n' !in q
    requires MatchDot(u + "?" + q).Some?
    ensures MatchDot(u).Some? && MatchDot(u + "?" + q).value <= MatchDot(u).value
  {
    var w := u + "?" + q;
    var d := MatchDot(w).value;
    MatchDotMatches(w);
    var s, p :| Match(w, s, p, d);
    MatchExtended(u, q, s, p, d);
    MatchDotIsLast(u, s, p, d);
  }

  /** The search settles on the same dot with or without a dot-free query. */
  lemma MatchDotExtended(u: string, q: string)
    requires '.' !in q && '\n' !in q
    ensures MatchDot(u + "?" + q) == MatchDot(u)
  {
    if MatchDot(u).Some? {
      MatchDotExtendedBelow(u, q);
    }
    if MatchDot(u + "?" + q).Some? {
      MatchDotExtendedAbove(u, q);
    }
  }

  /** The group at a dot inside u is the same after a query is appended. */
  lemma DottedExtended(u: string, q: string, d: nat)
    requires d < |u|
    ensures Dotted(u + "?" + q, d) == Dotted(u, d)
  {
    var w := u + "?" + q;
    var n := AlnumRun(u, d + 1);
    AlnumRunExtended(u, q, d + 1);
    assert w[d + 1 .. d + 1 + n] == u[d + 1 .. d + 1 + n];
  }

  /** A query without a dot after a URL does not change its extension. A dot in the query does
      count: the second `.+` may run across the `?`. */
  lemma QueryWithoutDotIsIgnored(u: string, q: string)
    requires '.' !in q && '\n' !in q
    ensures Extension(u + "?" + q) == Extension(u)
  {
    MatchDotExtended(u, q);
    if MatchDot(u).Some? {
      DottedExtended(u, q, MatchDot(u).value);
    }
  }

  /** A host or a path that holds no newline. */
  predicate Plain(s: string) {
    '\n' !in s
  }

  /** A group the extension part accepts. */
  predicate Group(e: string) {
    2 <= |e| <= 6 && forall k :: 0 <= k < |e| ==> IsAlnum(e[k])
  }

  /** A URL that ends in a dot and two to six letters or digits has that ending as its extension,
      whatever the host and the path hold. */
  lemma ExtensionOfEnding(u: string, h: string, n: string, e: string)
    requires u == "http://" + h + "/" + n + "." + e
    requires |h| >= 1 && |n| >= 1 && Plain(h) && Plain(n) && Group(e)
    ensures Extension(u) == "." + e
  {
    var p := 7 + |h|;
    var d := p + 1 + |n|;
    assert u[0..7] == "http://";
    forall k | 0 <= k < |u| ensures u[k] != '\n' {
      if 7 <= k < p {
        assert u[k] == h[k - 7];
      } else if p < k < d {
        assert u[k] == n[k - p - 1];
      } else if d < k {
        assert u[k] == e[k - d - 1];
      }
    }
    assert u[p] == '/' && u[d] == '.';
    forall k | d < k < |u| ensures u[k] != '.' && IsAlnum(u[k]) {
      assert u[k] == e[k - d - 1];
    }
    assert AlnumRun(u, d + 1) == |e| by {
      AlnumRunAll(u, d + 1);
    }
    ExtensionOfMatch(u, 0, p, d);
    assert u[d + 1..] == e;
  }

  lemma AlnumRunAll(u: string, i: nat)
    requires i <= |u|
    requires forall k :: i <= k < |u| ==> IsAlnum(u[k])
    ensures AlnumRun(u, i) == |u| - i
    decreases |u| - i
  {
    if i < |u| {
      AlnumRunAll(u, i + 1);
    }
  }

  /** A URL with nothing but a host after the scheme has no extension. */
  lemma NoPathNoExtension(u: string, h: string)
    requires u == "http://" + h && '/' !in h
    ensures Extension(u) == ""
  {
    forall p | 7 <= p < |u| ensures u[p] != '/' {
      assert u[p] == h[p - 7];
    }
    ExtensionNeedsSchemeAndSlash(u);
  }

  /** A text that contains no `h` has no scheme, hence no extension. */
  lemma NoSchemeNoExtension(u: string)
    requires 'h' !in u
    ensures Extension(u) == ""
  {
    forall s: nat | s <= |u| ensures SchemeLength(u, s) == 0 {
      if s + 7 <= |u| {
        assert u[s..s + 7][0] == u[s];
      }
      if s + 8 <= |u| {
        assert u[s..s + 8][0] == u[s];
      }
    }
    ExtensionNeedsSchemeAndSlash(u);
  }

  lemma PlainPieces()
    ensures Plain("example.com") && Plain("some/path/filename") && Plain("filename")
    ensures '.' !in "q=t#fragment" && Plain("q=t#fragment")
  {
  }

  lemma Groups()
    ensures Group("jpg") && Group("jpeg") && Group("avi") && Group("mpeg")
  {
    assert IsAlnum('j') && IsAlnum('p') && IsAlnum('g') && IsAlnum('e');
    assert IsAlnum('a') && IsAlnum('v') && IsAlnum('i') && IsAlnum('m');
  }

  lemma PathPieces(u: string, e: string)
    requires u == "http://example.com/some/path/filename." + e
    ensures u == "http://" + "example.com" + "/" + "some/path/filename" + "." + e
  {
  }

  lemma QueryPieces(u: string, e: string)
    requires u == "http://example.com/filename." + e + "?q=t#fragment"
    ensures u == ("http://" + "example.com" + "/" + "filename" + "." + e) + "?" + "q=t#fragment"
  {
  }

  /** The path cases of the repository's tests: a photo ending in ".jpg" and a video ending in ".avi". */
  lemma ExamplePath(u: string, e: string)
    requires e == "jpg" || e == "avi"
    requires u == "http://example.com/some/path/filename." + e
    ensures Extension(u) == "." + e
  {
    PathPieces(u, e);
    PlainPieces();
    Groups();
    ExtensionOfEnding(u, "example.com", "some/path/filename", e);
  }

  /** The query cases of the repository's tests: ".jpeg" for a photo, ".mpeg" for a video, each
      followed by the query "?q=t#fragment". */
  lemma ExampleQuery(u: string, e: string)
    requires e == "jpeg" || e == "mpeg"
    requires u == "http://example.com/filename." + e + "?q=t#fragment"
    ensures Extension(u) == "." + e
  {
    QueryPieces(u, e);
    PlainPieces();
    Groups();
    var v := "http://" + "example.com" + "/" + "filename" + "." + e;
    ExtensionOfEnding(v, "example.com", "filename", e);
    QueryWithoutDotIsIgnored(v, "q=t#fragment");
  }

  lemma ExamplesWithout(u: string, v: string)
    requires u == "http://example.com" && v == "not a url"
    ensures Extension(u) == "" && Extension(v) == ""
  {
    NoPathNoExtension(u, "example.com");
    NoSchemeNoExtension(v);
  }
}
