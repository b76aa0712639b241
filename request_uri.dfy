/** The decisions `url.ParseRequestURI` from Go's standard library takes on the URLs that media/utils.go
    validates before a download: control characters, the empty URL, the `*` form, the scheme scan and the
    rule that a URL without a scheme must be an absolute path. */
module RequestUri {

  import opened Wrappers

  /** Why a URL is refused. */
  datatype Problem = ControlCharacter | EmptyUrl | MissingScheme | InvalidForRequest

  /** The text Go's error carries for each problem. */
  function Message(p: Problem): string {
    match p
    case ControlCharacter => "net/url: invalid control character in URL"
    case EmptyUrl => "empty url"
    case MissingScheme => "missing protocol scheme"
    case InvalidForRequest => "invalid URI for request"
  }

  /** The text of the `*url.Error` for the operation "parse". */
  function ErrorText(u: string, p: Problem): string {
    "parse " + u + ": " + Message(p)
  }

  predicate IsControl(c: char) {
    c as int < 0x20 || c as int == 0x7f
  }

  predicate IsLetter(c: char) {
    'a' <= c <= 'z' || 'A' <= c <= 'Z'
  }

  /** Characters a scheme may hold after its first letter. */
  predicate IsSchemeTail(c: char) {
    '0' <= c <= '9' || c == '+' || c == '-' || c == '.'
  }

  /** The outcome of scanning for `scheme:` at the start of the URL. */
  datatype SchemeScan = NoScheme | SchemeEndsAt(colon: nat) | EmptyScheme

  /** `getScheme`, scanned from index i: letters always continue the scheme, digits, `+`, `-` and `.`
      continue it except at the very start, a `:` ends it, and anything else means there is none. */
  function ScanScheme(u: string, i: nat): (r: SchemeScan)
    requires i <= |u|
    ensures r.SchemeEndsAt? ==> 0 < r.colon < |u| && i <= r.colon && u[r.colon] == ':'
    ensures r.EmptyScheme? ==> i == 0 && |u| > 0 && u[0] == ':'
    ensures (forall k :: i <= k < |u| ==> u[k] != ':') ==> r.NoScheme?
    decreases |u| - i
  {
    if i == |u| then NoScheme
    else if IsLetter(u[i]) then ScanScheme(u, i + 1)
    else if IsSchemeTail(u[i]) then (if i == 0 then NoScheme else ScanScheme(u, i + 1))
    else if u[i] == ':' then (if i == 0 then EmptyScheme else SchemeEndsAt(i))
    else NoScheme
  }

  /** None when the URL is accepted for a request, otherwise the problem. With a scheme every rest is
      accepted: an opaque rest always is, and the authority and path checks of a hierarchical rest are
      not part of this model. Without a scheme the part before the first `?` must start with `/`, which
      is the same as the whole URL starting with `/`. */
  function ParseRequestUri(u: string): (r: Option<Problem>)
    ensures r == Some(EmptyUrl) <==> u == ""
    ensures u == "*" ==> r.None?
    ensures (exists k :: 0 <= k < |u| && IsControl(u[k])) <==> r == Some(ControlCharacter)
  {
    if exists k :: 0 <= k < |u| && IsControl(u[k]) then Some(ControlCharacter)
    else if u == "" then Some(EmptyUrl)
    else if u == "*" then None
    else
      match ScanScheme(u, 0)
      case EmptyScheme => Some(MissingScheme)
      case SchemeEndsAt(_) => None
      case NoScheme => if u[0] == '/' then None else Some(InvalidForRequest)
  }

  predicate Valid(u: string) {
    ParseRequestUri(u).None?
  }

  lemma {:induction false} ScanLetters(u: string, i: nat, n: nat)
    requires i <= n < |u| && u[n] == ':'
    requires forall k :: i <= k < n ==> IsLetter(u[k])
    ensures ScanScheme(u, i) == if n == 0 then EmptyScheme else SchemeEndsAt(n)
    decreases n - i
  {
    if i < n {
      ScanLetters(u, i + 1, n);
    }
  }

  /** A URL that starts with letters and a colon, and holds no control character, is accepted. */
  lemma SchemeAccepted(u: string, n: nat)
    requires 0 < n < |u| && u[n] == ':'
    requires forall k :: 0 <= k < n ==> IsLetter(u[k])
    requires forall k :: 0 <= k < |u| ==> !IsControl(u[k])
    ensures Valid(u)
  {
    ScanLetters(u, 0, n);
  }

  /** A URL without a colon must be an absolute path: otherwise it is "invalid URI for request". */
  lemma RelativeRefused(u: string)
    requires u != "" && u != "*" && u[0] != '/'
    requires forall k :: 0 <= k < |u| ==> u[k] != ':' && !IsControl(u[k])
    ensures ParseRequestUri(u) == Some(InvalidForRequest)
  {
  }

  /** The empty URL is refused with the message the repository's tests expect. */
  lemma EmptyRefused()
    ensures ParseRequestUri("") == Some(EmptyUrl)
    ensures ErrorText("", EmptyUrl) == "parse : empty url"
  {
  }

  /** The relative video URL the repository's tests refuse, with the message they expect. */
  lemma RelativeVideoUrl(a: string)
    requires a == "path/filename.avi"
    ensures ParseRequestUri(a) == Some(InvalidForRequest)
    ensures ErrorText(a, InvalidForRequest) == "parse path/filename.avi: " + "invalid URI for request"
  {
    assert forall k :: 0 <= k < |a| ==> a[k] != ':' && !IsControl(a[k]);
    RelativeRefused(a);
    VideoUrlText();
  }

  lemma VideoUrlText()
    ensures ErrorText("path/filename.avi", InvalidForRequest) == "parse path/filename.avi: " + "invalid URI for request"
  {
  }

  /** The relative photo URL the repository's tests refuse, with the message they expect. */
  lemma RelativePhotoUrl(b: string)
    requires b == "http//fdfds"
    ensures ParseRequestUri(b) == Some(InvalidForRequest)
    ensures ErrorText(b, InvalidForRequest) == "parse http//fdfds: " + "invalid URI for request"
  {
    assert forall k :: 0 <= k < |b| ==> b[k] != ':' && !IsControl(b[k]);
    RelativeRefused(b);
  }

  /** A URL the repository's tests download from is accepted. */
  lemma TestAbsoluteUrl(c: string)
    requires c == "http://example.com/path/filename.jpg"
    ensures Valid(c)
  {
    assert forall k :: 0 <= k < |c| ==> !IsControl(c[k]);
    assert forall k :: 0 <= k < 4 ==> IsLetter(c[k]);
    SchemeAccepted(c, 4);
  }
}
