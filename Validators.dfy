/** URL validation and the identity keys derived from it: the validator's
    `validate_and_normalize` and `_normalize_url`, the `normalize_host`
    de-duplication key, the CDX wildcard patterns, and domain comparison. */
module Validators {
  import opened Strings
  import opened Wrappers
  import opened Url

  const EmptyError: string := "URL cannot be empty"
  const SchemeError: string := "URL must use HTTP or HTTPS protocol"
  const NoDomainError: string := "URL must have a valid domain"
  const DomainFormatError: string := "Invalid domain format"
  /** Prefix of the message for an exception raised while parsing. */
  const ParseErrorPrefix: string := "URL validation error: "

  /** The `(is_valid, normalized_url, error_message)` triple. */
  datatype Validation = Validation(ok: bool, normalized: string, error: string)

  predicate IsLabelChar(c: char) {
    IsAsciiAlnum(c) || c == '-'
  }

  /** One label of the domain pattern: 1 to 63 letters, digits or hyphens,
      beginning and ending with a letter or digit. */
  predicate ValidLabel(l: string) {
    1 <= |l| <= 63 && IsAsciiAlnum(l[0]) && IsAsciiAlnum(l[|l| - 1])
    && forall k :: 0 <= k < |l| ==> IsLabelChar(l[k])
  }

  /** `domain_pattern.match(domain)`: the text is one or more valid labels joined by
      single dots. (The pattern's `$` could also match before a final newline, but
      a parsed network location never holds one.) */
  predicate DomainOk(d: string) {
    var labels := Split(d, '.');
    forall k :: 0 <= k < |labels| ==> ValidLabel(labels[k])
  }

  /** The text checked against the domain pattern: the lower-cased network location
      up to its first ':'. */
  function HostPart(netloc: string): (h: string)
    ensures ':' !in h && StartsWith(Lower(netloc), h)
  {
    var d := Lower(netloc);
    d[..IndexOf(d, ':')]
  }

  /** The checks of `validate_and_normalize`, giving the parsed URL or the error
      message. The input is stripped first. */
  function Validated(url: string): (r: Result<Parts>)
    ensures r.Err? ==> r.error != ""
    ensures url == "" ==> r == Err(EmptyError)
  {
    if url == "" then Err(EmptyError) else Checked(Strip(url))
  }

  /** The checks on the stripped input: a scheme other than http or https is
      refused, and one without a scheme is parsed again with "https://" in front. */
  function Checked(u: string): (r: Result<Parts>)
    ensures r.Err? ==> r.error != ""
  {
    CheckParses(ParseUrl(u, ""), ParseUrl("https://" + u, ""))
  }

  /** The checks given the parse of the input (`first`) and of the input with
      "https://" in front (`second`). Only a first parse without a scheme looks at
      `second`, which is where the source computes it; parsing has no side effects. */
  function CheckParses(first: Result<Parts>, second: Result<Parts>): (r: Result<Parts>)
    ensures r.Err? ==> r.error != ""
    ensures r.Ok? ==> r.value.netloc != "" && DomainOk(HostPart(r.value.netloc))
    ensures r.Ok? ==> first.Ok? && (first.value.scheme == "http" || first.value.scheme == "https" || first.value.scheme == "")
    ensures r.Ok? && first.value.scheme != "" ==> r.value == first.value
    ensures r.Ok? && first.value.scheme == "" ==> second.Ok? && r.value == second.value
  {
    match first
    case Err(e) => Err(ParseErrorPrefix + e)
    case Ok(check) =>
      if check.scheme != "" && check.scheme != "http" && check.scheme != "https" then Err(SchemeError)
      else
        var reparsed := if check.scheme != "" then first else second;
        match reparsed
        case Err(e) => Err(ParseErrorPrefix + e)
        case Ok(parsed) =>
          if parsed.netloc == "" then Err(NoDomainError)
          else if !DomainOk(HostPart(parsed.netloc)) then Err(DomainFormatError)
          else Ok(parsed)
  }

  /** The path rule of `_normalize_url`: an empty path becomes "/", and "/" is
      appended when the last segment holds no '.'. */
  function NormalizePath(path: string): (r: string)
    ensures r != "" && (EndsWith(r, "/") || '.' in LastPart(r, '/'))
    ensures r == path || r == path + "/"
  {
    if path == "" then "/"
    else if !EndsWith(path, "/") && '.' !in LastPart(path, '/') then path + "/"
    else path
  }

  /** The components `_normalize_url` passes to `urlunparse`. */
  function NormalizedParts(p: Parts): Parts {
    Parts(Lower(p.scheme), Lower(p.netloc), NormalizePath(p.path), p.params, p.query, "")
  }

  /** `_normalize_url` */
  function NormalizeUrl(p: Parts): string {
    Unparse(NormalizedParts(p))
  }

  /** `validate_and_normalize` */
  function ValidateAndNormalize(url: string): (v: Validation)
    ensures url == "" ==> v == Validation(false, "", EmptyError)
    ensures v.ok <==> v.error == ""
    ensures !v.ok ==> v.normalized == ""
  {
    match Validated(url)
    case Ok(p) => Validation(true, NormalizeUrl(p), "")
    case Err(e) => Validation(false, "", e)
  }

  lemma LowerHttp()
    ensures Lower("http") == "http" && Lower("https") == "https"
  {
    LowerOfLowered("http");
    LowerOfLowered("https");
  }

  lemma HttpsPrefixStripped(u: string)
    ensures Cleaned("https://" + u) == Without("https://" + u, Unsafe)
  {
    var s := "https://" + u;
    assert s[0] == 'h';
  }

  lemma HttpsPrefixClean(u: string)
    ensures Without("https://" + u, Unsafe) == "https://" + Without(u, Unsafe)
  {
    WithoutAppend("https://", u, Unsafe);
    HttpsLiteralClean();
  }

  lemma HttpsLiteralClean()
    ensures Without("https://", Unsafe) == "https://"
  {
    assert NoneOf("https://", Unsafe);
  }

  lemma HttpsPrefixColon(w: string)
    ensures IndexOf("https://" + w, ':') == 5 && HasScheme("https://" + w)
  {
    var c := "https://" + w;
    assert c == "https" + ("://" + w);
    IndexOfConcat("https", "://" + w, ':');
  }

  lemma HttpsPrefixHasScheme(w: string)
    ensures SplitScheme("https://" + w, "") == ("https", "//" + w)
  {
    var c := "https://" + w;
    HttpsPrefixColon(w);
    assert c[..5] == "https";
    assert c[6..] == "//" + w;
    LowerHttp();
  }

  /** A text with "https://" put in front parses with scheme "https". */
  lemma HttpsPrefixScheme(u: string)
    requires ParseUrl("https://" + u, "").Ok?
    ensures ParseUrl("https://" + u, "").value.scheme == "https"
  {
    HttpsPrefixStripped(u);
    HttpsPrefixClean(u);
    HttpsPrefixHasScheme(Without(u, Unsafe));
    ParseUrlScheme("https://" + u, "");
  }

  /** The text whose parse a check accepts: the input itself, or the input with
      "https://" in front when it has no scheme. */
  function Reparsed(u: string): string {
    if ParseUrl(u, "").Ok? && ParseUrl(u, "").value.scheme == "" then "https://" + u else u
  }

  lemma CheckedIsParse(u: string)
    requires Checked(u).Ok?
    ensures ParseUrl(Reparsed(u), "").Ok? && Checked(u).value == ParseUrl(Reparsed(u), "").value
  {
  }

  lemma CheckedScheme(u: string)
    requires Checked(u).Ok?
    ensures Checked(u).value.scheme == "http" || Checked(u).value.scheme == "https"
  {
    if ParseUrl(u, "").value.scheme == "" {
      HttpsPrefixScheme(u);
    }
  }

  /** What the checks guarantee of an accepted URL: it uses http or https, has a
      network location that passes the domain pattern, and has the shape every
      parse result has. */
  predicate Accepted(p: Parts) {
    && (p.scheme == "http" || p.scheme == "https")
    && p.netloc != "" && DomainOk(HostPart(p.netloc))
    && WellSplit(p)
  }

  lemma CheckedDomain(u: string)
    requires Checked(u).Ok?
    ensures Checked(u).value.netloc != "" && DomainOk(HostPart(Checked(u).value.netloc))
  {
  }

  lemma CheckedWellSplit(u: string)
    requires Checked(u).Ok?
    ensures WellSplit(Checked(u).value)
  {
    CheckedIsParse(u);
    ParseUrlWellSplit(Reparsed(u), "");
  }

  lemma CheckedFacts(u: string)
    requires Checked(u).Ok?
    ensures Accepted(Checked(u).value)
  {
    CheckedScheme(u);
    CheckedDomain(u);
    CheckedWellSplit(u);
  }

  lemma LastPartAfterSlash(s: string)
    ensures LastPart(s + "/", '/') == ""
  {
    assert (s + "/")[|s|] == '/';
  }

  lemma NormalizePathLastSegment(path: string)
    requires ';' !in LastPart(path, '/')
    ensures ';' !in LastPart(NormalizePath(path), '/')
  {
    if NormalizePath(path) != path {
      LastPartAfterSlash(path);
    }
  }

  lemma NormalizePathNoneOf(path: string, cs: set<char>)
    requires NoneOf(path, cs) && '/' !in cs
    ensures NoneOf(NormalizePath(path), cs)
  {
    if NormalizePath(path) != path {
      NoneOfAppend(path, "/", cs);
    }
  }

  lemma NormalizePathSafe(path: string)
    requires NoneOf(path, {'?', '#'}) && NoneOf(path, Unsafe)
    ensures NoneOf(NormalizePath(path), {'?', '#'}) && NoneOf(NormalizePath(path), Unsafe)
  {
    NormalizePathNoneOf(path, {'?', '#'});
    NormalizePathNoneOf(path, Unsafe);
  }

  /** The normalised path keeps the shape a parsed path has. */
  lemma NormalizePathShape(path: string)
    requires path == "" || path[0] == '/'
    requires NoneOf(path, {'?', '#'}) && NoneOf(path, Unsafe) && ';' !in LastPart(path, '/')
    ensures NormalizePath(path)[0] == '/'
    ensures NoneOf(NormalizePath(path), {'?', '#'}) && NoneOf(NormalizePath(path), Unsafe)
    ensures ';' !in LastPart(NormalizePath(path), '/')
  {
    NormalizePathSafe(path);
    NormalizePathLastSegment(path);
  }

  lemma NormalizedNetloc(netloc: string)
    requires netloc != "" && NoneOf(netloc, NetlocEnd) && NoneOf(netloc, Unsafe) && (('[' in netloc) == (']' in netloc))
    ensures var n := Lower(netloc);
      n != "" && NoneOf(n, NetlocEnd) && NoneOf(n, Unsafe) && (('[' in n) == (']' in n))
  {
    LowerNoneOf(netloc, NetlocEnd);
    LowerNoneOf(netloc, Unsafe);
    LowerMember(netloc, '[');
    LowerMember(netloc, ']');
  }

  lemma WebScheme(s: string)
    requires s == "http" || s == "https"
    ensures s != "" && IsAsciiLetter(s[0]) && IsLowered(s) && s in UsesParams
    ensures forall k :: 0 <= k < |s| ==> IsSchemeChar(s[k])
  {
  }

  lemma NormalizedScheme(p: Parts)
    requires Accepted(p)
    ensures var s := NormalizedParts(p).scheme;
      && s != "" && IsAsciiLetter(s[0]) && IsLowered(s) && s in UsesParams
      && (forall k :: 0 <= k < |s| ==> IsSchemeChar(s[k]))
  {
    LowerHttp();
    assert NormalizedParts(p).scheme == p.scheme;
    WebScheme(p.scheme);
  }

  lemma NormalizedPath(p: Parts)
    requires Accepted(p)
    ensures NormalizedParts(p).path != "" && NormalizedParts(p).path[0] == '/'
    ensures NoneOf(NormalizedParts(p).path, {'?', '#'}) && NoneOf(NormalizedParts(p).path, Unsafe)
    ensures ';' !in LastPart(NormalizedParts(p).path, '/')
  {
    WebScheme(p.scheme);
    NormalizePathShape(p.path);
  }

  lemma NormalizedTail(p: Parts)
    requires Accepted(p)
    ensures var q := NormalizedParts(p);
      && NoneOf(q.params, {'/', '?', '#'}) && NoneOf(q.params, Unsafe)
      && NoneOf(q.query, {'#'}) && NoneOf(q.query, Unsafe) && NoneOf(q.fragment, Unsafe)
  {
  }

  /** The components of a normalised URL are canonical, so the normalised URL
      parses back into exactly them. */
  lemma NormalizedCanonical(p: Parts)
    requires Accepted(p)
    ensures Canonical(NormalizedParts(p))
  {
    NormalizedScheme(p);
    NormalizedNetloc(p.netloc);
    NormalizedPath(p);
    NormalizedTail(p);
  }

  /** `_normalize_url` round trip: the normalised URL parses into the lower-cased
      scheme and network location, the normalised path, the original parameters and
      query, and no fragment. */
  lemma NormalizedParses(url: string)
    requires ValidateAndNormalize(url).ok
    ensures ParseUrl(ValidateAndNormalize(url).normalized, "") == Ok(NormalizedParts(Validated(url).value))
  {
    CheckedFacts(Strip(url));
    NormalizedCanonical(Validated(url).value);
    ParseUnparse(NormalizedParts(Validated(url).value));
  }

  lemma NormalizePathFixed(path: string)
    ensures NormalizePath(NormalizePath(path)) == NormalizePath(path)
  {
  }

  /** Normalising normalised components changes nothing. */
  lemma NormalizedPartsFixed(p: Parts)
    ensures NormalizedParts(NormalizedParts(p)) == NormalizedParts(p)
  {
    LowerIdempotent(p.scheme);
    LowerIdempotent(p.netloc);
    NormalizePathFixed(p.path);
  }

  /** The domain check sees the same host in a lower-cased network location. */
  lemma HostPartLower(netloc: string)
    ensures HostPart(Lower(netloc)) == HostPart(netloc)
  {
    LowerIdempotent(netloc);
  }

  /** The checks accept an unparsed canonical http or https URL whose host passes
      the domain pattern, and give back its components. */
  lemma CheckedCanonical(q: Parts)
    requires Canonical(q) && (q.scheme == "http" || q.scheme == "https") && DomainOk(HostPart(q.netloc))
    ensures Checked(Unparse(q)) == Ok(q)
  {
    ParseUnparse(q);
  }

  lemma NormalizedAccepted(p: Parts)
    requires Accepted(p)
    ensures var q := NormalizedParts(p);
      Canonical(q) && (q.scheme == "http" || q.scheme == "https") && DomainOk(HostPart(q.netloc))
  {
    LowerHttp();
    NormalizedCanonical(p);
    HostPartLower(p.netloc);
  }

  /** Re-validating a normalised URL gives it back unchanged, provided it does not
      end in whitespace (which the input's `strip()` would remove). */
  lemma NormalizeIdempotent(url: string)
    requires ValidateAndNormalize(url).ok
    requires var n := ValidateAndNormalize(url).normalized; n != "" && !IsSpace(n[|n| - 1])
    ensures ValidateAndNormalize(ValidateAndNormalize(url).normalized) == ValidateAndNormalize(url)
  {
    var p := Validated(url).value;
    ValidatedAccepted(url);
    NormalizedAccepted(p);
    ValidateCanonical(NormalizedParts(p));
    NormalizedPartsFixed(p);
  }

  lemma ValidatedAccepted(url: string)
    requires Validated(url).Ok?
    ensures Accepted(Validated(url).value)
  {
    CheckedFacts(Strip(url));
  }

  lemma NormalizeFirstChar(q: Parts)
    requires Canonical(q)
    ensures Unparse(q) != "" && Unparse(q)[0] == q.scheme[0] && !IsSpace(Unparse(q)[0])
  {
    UnparseCanonicalShape(q);
  }

  /** A canonical http or https URL that passes the domain pattern and does not end
      in whitespace validates, and normalises to its normalised components. */
  lemma ValidateCanonical(q: Parts)
    requires Canonical(q) && (q.scheme == "http" || q.scheme == "https") && DomainOk(HostPart(q.netloc))
    requires var n := Unparse(q); !IsSpace(n[|n| - 1])
    ensures ValidateAndNormalize(Unparse(q)) == Validation(true, NormalizeUrl(q), "")
  {
    NormalizeFirstChar(q);
    StripOfClean(Unparse(q));
    CheckedCanonical(q);
  }

  /** A bare host name: label characters and dots, nothing else. */
  predicate BareHost(h: string) {
    h != "" && forall k :: 0 <= k < |h| ==> IsLabelChar(h[k]) || h[k] == '.'
  }

  lemma BareHostFree(h: string, cs: set<char>)
    requires BareHost(h) && forall c :: c in cs ==> !IsLabelChar(c) && c != '.'
    ensures NoneOf(h, cs)
  {
  }

  lemma BareHostLacks(h: string, c: char)
    requires BareHost(h) && !IsLabelChar(c) && c != '.'
    ensures c !in h
  {
  }

  lemma BareHostStripped(h: string)
    requires BareHost(h)
    ensures Strip(h) == h && Cleaned(h) == h
  {
    assert !IsSpace(h[0]) && !IsSpace(h[|h| - 1]);
    StripOfClean(h);
    BareHostFree(h, Unsafe);
    assert LStripControl(h) == h;
  }

  lemma BareHostScheme(h: string)
    requires BareHost(h)
    ensures SplitScheme(h, "") == ("", h)
  {
    BareHostLacks(h, ':');
    assert IndexOf(h, ':') == |h|;
    assert CleanedScheme("") == "";
  }

  lemma BareHostTail(h: string)
    requires BareHost(h)
    ensures SplitTail(h) == (h, "", "") && SplitNetloc(h) == ("", h)
  {
    BareHostLacks(h, '?');
    BareHostLacks(h, '#');
    assert h[0] != '/';
  }

  /** Without a scheme, a bare host parses as a path. */
  lemma BareHostParse(h: string)
    requires BareHost(h)
    ensures ParseUrl(h, "") == Ok(Parts("", "", h, "", "", ""))
  {
    BareHostLacks(h, ';');
    BareHostStripped(h);
    BareHostScheme(h);
    BareHostTail(h);
    SplitUrlSteps(h, "", h, "", h, (h, "", ""));
  }

  lemma BareHostNetloc(h: string)
    requires BareHost(h)
    ensures SplitNetloc("//" + h) == (h, "")
  {
    BareHostFree(h, NetlocEnd);
    var rest := "//" + h;
    assert StartsWith(rest, "//");
    assert rest[2..] == h;
    assert IndexOfAny(h, NetlocEnd) == |h|;
    assert rest[2..2 + |h|] == h && rest[2 + |h|..] == "";
  }

  lemma BareHostCleaned(h: string)
    requires BareHost(h)
    ensures Cleaned("https://" + h) == "https://" + h
  {
    BareHostFree(h, Unsafe);
    HttpsPrefixStripped(h);
    HttpsPrefixClean(h);
  }

  /** With "https://" in front, a bare host parses as the network location. */
  lemma HttpsHostParse(h: string)
    requires BareHost(h)
    ensures ParseUrl("https://" + h, "") == Ok(Parts("https", h, "", "", "", ""))
  {
    BareHostLacks(h, '[');
    BareHostLacks(h, ']');
    BareHostCleaned(h);
    HttpsPrefixHasScheme(h);
    BareHostNetloc(h);
    assert SplitTail("") == ("", "", "");
    SplitUrlSteps("https://" + h, "https", "//" + h, h, "", ("", "", ""));
  }

  lemma BareHostPart(h: string)
    requires BareHost(h)
    ensures HostPart(h) == Lower(h)
  {
    BareHostLacks(h, ':');
    LowerMember(h, ':');
  }

  /** The checks re-parse a bare host with "https://" and accept it exactly when
      it passes the domain pattern. */
  lemma BareHostChecked(h: string)
    requires BareHost(h)
    ensures Checked(h) == if DomainOk(Lower(h)) then Ok(Parts("https", h, "", "", "", "")) else Err(DomainFormatError)
  {
    BareHostParse(h);
    HttpsHostParse(h);
    BareHostPart(h);
  }

  lemma BareHostNormalized(h: string)
    requires BareHost(h)
    ensures NormalizeUrl(Parts("https", h, "", "", "", "")) == "https://" + Lower(h) + "/"
  {
    LowerHttp();
    assert Lower(h) != "";
  }

  /** A bare host validates to "https://<host>/" with the host lower-cased, or is
      refused with the domain-format message. */
  lemma BareHostValidates(h: string)
    requires BareHost(h)
    ensures ValidateAndNormalize(h) ==
      if DomainOk(Lower(h)) then Validation(true, "https://" + Lower(h) + "/", "")
      else Validation(false, "", DomainFormatError)
  {
    BareHostStripped(h);
    BareHostChecked(h);
    BareHostNormalized(h);
  }

  lemma DomainOfTwo(a: string, b: string)
    requires ValidLabel(a) && ValidLabel(b)
    ensures DomainOk(a + "." + b)
  {
    assert '.' !in a && '.' !in b by {
      assert forall k :: 0 <= k < |a| ==> IsLabelChar(a[k]);
      assert forall k :: 0 <= k < |b| ==> IsLabelChar(b[k]);
    }
    SplitCons(a, '.', b);
    assert a + "." + b == a + ['.'] + b;
    assert Split(b, '.') == [b];
    assert Split(a + "." + b, '.') == [a, b];
  }

  /** Two dots in a row make an empty label, which the pattern refuses. */
  lemma DoubleDotRefused(a: string, b: string)
    requires '.' !in a
    ensures !DomainOk(a + ['.'] + ([] + ['.'] + b))
  {
    SplitEmptyPart(a, '.', b);
    assert !ValidLabel(Split(a + ['.'] + ([] + ['.'] + b), '.')[1]);
  }

  lemma ExampleDomain()
    ensures DomainOk("example.com")
  {
    var l := "example";
    assert l[0] == 'e' && l[1] == 'x' && l[2] == 'a' && l[3] == 'm' && l[4] == 'p' && l[5] == 'l' && l[6] == 'e';
    var m := "com";
    assert m[0] == 'c' && m[1] == 'o' && m[2] == 'm';
    DomainOfTwo(l, m);
    assert l + "." + m == "example.com";
  }

  /** The validator's expectation for a bare host: https is assumed and a '/' path
      added. (The input is a parameter so that the verifier reasons about it
      symbolically instead of evaluating every function on the literal.) */
  lemma BareHostExample(h: string)
    requires h == "example.com"
    ensures ValidateAndNormalize(h) == Validation(true, "https://example.com/", "")
  {
    ExampleHost(h);
    BareHostValidates(h);
    assert DomainOk(Lower(h));
    assert ValidateAndNormalize(h) == Validation(true, "https://" + h + "/", "");
    ExampleUrl(h);
  }

  lemma ExampleHost(h: string)
    requires h == "example.com"
    ensures BareHost(h) && Lower(h) == h && DomainOk(h)
  {
    ExampleDomain();
    LowerOfLowered(h);
  }

  lemma ExampleUrl(h: string)
    requires h == "example.com"
    ensures "https://" + h + "/" == "https://example.com/"
  {
  }

  /** The validator's expectation for a doubled dot. */
  lemma DoubleDotExample(h: string)
    requires h == "invalid..domain"
    ensures ValidateAndNormalize(h) == Validation(false, "", DomainFormatError)
  {
    DoubleDotHost(h);
    BareHostValidates(h);
  }

  lemma DoubleDotHost(h: string)
    requires h == "invalid..domain"
    ensures BareHost(h) && !DomainOk(Lower(h))
  {
    DoubleDotRefused("invalid", "domain");
    DoubleDotSplit(h);
    DoubleDotLowered(h);
  }

  lemma DoubleDotSplit(h: string)
    requires h == "invalid..domain"
    ensures h == "invalid" + ['.'] + ([] + ['.'] + "domain")
  {
  }

  lemma DoubleDotLowered(h: string)
    requires h == "invalid..domain"
    ensures BareHost(h) && Lower(h) == h
  {
    LowerOfLowered(h);
  }

  lemma CanonicalOnA(q: Parts)
    requires q.scheme == "https" && q.netloc == "a" && q.path == "/" && q.params == ""
    requires NoneOf(q.query, {'#'}) && NoneOf(q.query, Unsafe) && NoneOf(q.fragment, Unsafe)
    ensures Canonical(q) && DomainOk(HostPart(q.netloc))
  {
    WebScheme(q.scheme);
    assert LastPart("/", '/') == "";
    LowerOfLowered("a");
    assert HostPart("a") == "a";
    assert Split("a", '.') == ["a"];
  }

  /** A URL on host "a" with path "/" and the given query and fragment. */
  function OnA(query: string, fragment: string): Parts {
    Parts("https", "a", "/", "", query, fragment)
  }

  lemma UnparseOnA(query: string, fragment: string)
    ensures Unparse(OnA(query, fragment)) == "https://a/" + QueryPart(query) + FragmentPart(fragment)
  {
  }

  lemma NormalizedOnA(query: string, fragment: string)
    ensures NormalizedParts(OnA(query, fragment)) == OnA(query, "")
  {
    LowerOfLowered("https");
    LowerOfLowered("a");
  }

  lemma UnparseOnASpace(x: string)
    requires x != ""
    ensures Unparse(OnA(x + " ", "")) == Unparse(OnA(x, "")) + " "
  {
    UnparseOnA(x + " ", "");
    UnparseOnA(x, "");
    assert QueryPart(x + " ") == QueryPart(x) + " ";
  }

  /** Without the whitespace proviso re-validation is not idempotent: `strip()`
      runs before the fragment is dropped, so a query can end in a space that the
      next `strip()` removes. For example "https://a/?x #f" normalises to
      "https://a/?x ", which normalises to "https://a/?x". */
  lemma NormalizeNotIdempotent(x: string)
    requires x != "" && NoneOf(x, {'#'}) && NoneOf(x, Unsafe) && !IsSpace(x[|x| - 1])
    ensures ValidateAndNormalize(Unparse(OnA(x + " ", "f"))) == Validation(true, Unparse(OnA(x + " ", "")), "")
    ensures ValidateAndNormalize(Unparse(OnA(x + " ", ""))) == Validation(true, Unparse(OnA(x, "")), "")
    ensures Unparse(OnA(x + " ", "")) != Unparse(OnA(x, ""))
  {
    NormalizedWithSpace(x);
    SpaceStripped(x);
    UnparseOnASpace(x);
  }

  lemma NormalizedWithSpace(x: string)
    requires NoneOf(x, {'#'}) && NoneOf(x, Unsafe)
    ensures ValidateAndNormalize(Unparse(OnA(x + " ", "f"))) == Validation(true, Unparse(OnA(x + " ", "")), "")
  {
    var q := OnA(x + " ", "f");
    NoneOfAppend(x, " ", {'#'});
    NoneOfAppend(x, " ", Unsafe);
    CanonicalOnA(q);
    UnparseOnA(x + " ", "f");
    ValidateCanonical(q);
    NormalizedOnA(x + " ", "f");
  }

  lemma SpaceStrippedText(x: string)
    requires x != "" && !IsSpace(x[|x| - 1])
    ensures Strip(Unparse(OnA(x + " ", ""))) == Unparse(OnA(x, ""))
  {
    UnparseOnASpace(x);
    UnparseOnA(x, "");
    StripTrailingSpace(Unparse(OnA(x, "")));
  }

  lemma SpaceStripped(x: string)
    requires x != "" && NoneOf(x, {'#'}) && NoneOf(x, Unsafe) && !IsSpace(x[|x| - 1])
    ensures ValidateAndNormalize(Unparse(OnA(x + " ", ""))) == Validation(true, Unparse(OnA(x, "")), "")
  {
    var q := OnA(x, "");
    CanonicalOnA(q);
    SpaceStrippedText(x);
    CheckedCanonical(q);
    NormalizedOnA(x, "");
  }

  // ---------------------------------------------------------------------------
  // The `normalize_host` de-duplication key

  /** The port rule of `normalize_host` and `create_wildcard_patterns`: a trailing
      ":80" is cut off, and then a trailing ":443". */
  function WithoutDefaultPort(host: string): (r: string)
    ensures StartsWith(host, r)
  {
    var h := if EndsWith(host, ":80") then host[..|host| - 3] else host;
    if EndsWith(h, ":443") then h[..|h| - 4] else h
  }

  /** One leading "www." is cut off. */
  function WithoutWww(host: string): (r: string)
    ensures EndsWith(host, r)
  {
    if StartsWith(host, "www.") then host[4..] else host
  }

  /** The host of the key: default port first, then one "www.". */
  function HostKey(host: string): (r: string)
    ensures |r| <= |host|
  {
    WithoutWww(WithoutDefaultPort(host))
  }

  /** The components `normalize_host` passes to `urlunparse`. */
  function KeyParts(p: Parts): Parts {
    Parts(Lower(p.scheme), HostKey(Lower(p.netloc)), p.path, p.params, p.query, "")
  }

  /** `normalize_host`: the normalised URL is parsed again and rebuilt around the
      key host, without a fragment. The reparse cannot fail (`NormalizedParses`),
      so the source's `except` branch is never taken. */
  function NormalizeHost(url: string): (r: Validation)
    ensures !ValidateAndNormalize(url).ok ==> r == Validation(false, "", ValidateAndNormalize(url).error)
    ensures r.ok == ValidateAndNormalize(url).ok
    ensures r.ok <==> r.error == ""
  {
    var v := ValidateAndNormalize(url);
    if !v.ok then Validation(false, "", v.error)
    else
      NormalizedParses(url);
      Validation(true, Unparse(KeyParts(ParseUrl(v.normalized, "").value)), "")
  }

  /** A valid URL's key is its normalised components rebuilt around the key host. */
  lemma NormalizeHostKey(url: string)
    requires ValidateAndNormalize(url).ok
    ensures NormalizeHost(url) == Validation(true, Unparse(KeyParts(NormalizedParts(Validated(url).value))), "")
  {
    NormalizedParses(url);
  }

  lemma EndsWithBehind(p: string, h: string, t: string)
    requires ':' !in p && t != "" && t[0] == ':'
    ensures EndsWith(p + h, t) <==> EndsWith(h, t)
  {
    var s := p + h;
    if |h| < |t| && |t| <= |s| {
      assert s[|s| - |t|] in p;
      assert s[|s| - |t|..][0] == s[|s| - |t|];
    }
    if |t| <= |h| {
      assert s[|s| - |t|..] == h[|h| - |t|..];
    }
  }

  /** The port rule does not look at a prefix free of ':'. */
  lemma DefaultPortBehind(p: string, h: string)
    requires ':' !in p
    ensures WithoutDefaultPort(p + h) == p + WithoutDefaultPort(h)
  {
    EndsWithBehind(p, h, ":80");
    var g := if EndsWith(h, ":80") then h[..|h| - 3] else h;
    if EndsWith(h, ":80") {
      assert (p + h)[..|p + h| - 3] == p + g;
    }
    EndsWithBehind(p, g, ":443");
    if EndsWith(g, ":443") {
      assert (p + g)[..|p + g| - 4] == p + g[..|g| - 4];
    }
  }

  lemma WwwPrefixOf(h: string)
    ensures StartsWith("www." + h, "www.") && ("www." + h)[4..] == h
  {
  }

  /** A host and the same host with "www." in front share a key, as long as the
      host does not itself begin with "www.". */
  lemma WwwShareKey(h: string)
    requires !StartsWith(h, "www.")
    ensures HostKey("www." + h) == HostKey(h)
  {
    DefaultPortBehind("www.", h);
    var g := WithoutDefaultPort(h);
    WwwPrefixOf(g);
  }

  /** Exactly one "www." is removed: a host without a default port, with "www." in
      front, has the host itself as key, even when it begins with "www." too. */
  lemma WwwStrippedOnce(h: string)
    requires !EndsWith(h, ":80") && !EndsWith(h, ":443")
    ensures HostKey("www." + h) == h
  {
    DefaultPortBehind("www.", h);
    WwwPrefixOf(h);
  }

  /** A host with ":80" or ":443" after it shares its key with the host. */
  lemma DefaultPortShareKey(h: string)
    requires !EndsWith(h, ":80") && !EndsWith(h, ":443")
    ensures HostKey(h + ":80") == HostKey(h) && HostKey(h + ":443") == HostKey(h)
  {
    var a := h + ":80";
    assert EndsWith(a, ":80") && a[..|a| - 3] == h;
    var b := h + ":443";
    assert b[|b| - 3..] == "443";
    assert EndsWith(b, ":443") && b[..|b| - 4] == h;
  }

  /** The key keeps the scheme: valid URLs whose schemes differ (http and https)
      never share a key. */
  lemma KeySchemesDiffer(u1: string, u2: string)
    requires ValidateAndNormalize(u1).ok && ValidateAndNormalize(u2).ok
    requires Validated(u1).value.scheme != Validated(u2).value.scheme
    ensures NormalizeHost(u1).normalized != NormalizeHost(u2).normalized
  {
    KeyStartsWithScheme(u1);
    KeyStartsWithScheme(u2);
    var s1, s2 := Validated(u1).value.scheme, Validated(u2).value.scheme;
    WebSchemeNoColon(s1);
    WebSchemeNoColon(s2);
    DistinctHeads(NormalizeHost(u1).normalized, NormalizeHost(u2).normalized, s1, s2, ':');
  }

  lemma WebSchemeNoColon(s: string)
    requires s == "http" || s == "https"
    ensures ':' !in s
  {
  }

  /** A valid URL's key begins with its scheme and ':'. */
  lemma KeyStartsWithScheme(url: string)
    requires ValidateAndNormalize(url).ok
    ensures var s := Validated(url).value.scheme;
      (s == "http" || s == "https") && StartsWith(NormalizeHost(url).normalized, s + [':'])
  {
    KeyScheme(url);
    NormalizeHostKey(url);
    UnparseSchemeFirst(KeyParts(NormalizedParts(Validated(url).value)));
  }

  /** The key's scheme is the validated scheme, "http" or "https". */
  lemma KeyScheme(url: string)
    requires ValidateAndNormalize(url).ok
    ensures var s := Validated(url).value.scheme;
      (s == "http" || s == "https") && KeyParts(NormalizedParts(Validated(url).value)).scheme == s
  {
    ValidatedAccepted(url);
    LowerHttp();
  }

  /** Two valid URLs whose normalised forms differ only in a "www." in front of
      the network location share a key. */
  lemma WwwUrlsShareKey(u1: string, u2: string)
    requires ValidateAndNormalize(u1).ok && ValidateAndNormalize(u2).ok
    requires var q1 := NormalizedParts(Validated(u1).value); var q2 := NormalizedParts(Validated(u2).value);
      q1 == q2.(netloc := "www." + q2.netloc) && !StartsWith(q2.netloc, "www.")
    ensures NormalizeHost(u1) == NormalizeHost(u2)
  {
    var p1, p2 := Validated(u1).value, Validated(u2).value;
    NormalizeHostKey(u1);
    NormalizeHostKey(u2);
    LowerIdempotent(p1.netloc);
    LowerIdempotent(p2.netloc);
    WwwShareKey(Lower(p2.netloc));
  }

  // ---------------------------------------------------------------------------
  // CDX wildcard patterns

  /** The `(ok, patterns, error)` triple of `create_wildcard_patterns`. */
  datatype PatternSet = PatternSet(ok: bool, patterns: seq<string>, error: string)

  /** `list(dict.fromkeys([a, b]))`: the first occurrence of each, in order. */
  function Distinct2(a: string, b: string): (r: seq<string>)
    ensures (set x | x in r) == {a, b}
  {
    if a == b then [a] else [a, b]
  }

  /** The two patterns: any scheme beginning with "http", the bare host and the
      same host under "www.". */
  function WildcardPair(bare: string, path: string): seq<string> {
    Distinct2("http*://" + bare + path + "*", "http*://www." + bare + path + "*")
  }

  /** `create_wildcard_patterns`: the normalised URL is parsed again; the key host
      (default port and one "www." removed) and the path (with the normalisation
      path rule applied again) make the two patterns. */
  function CreateWildcardPatterns(baseUrl: string): (r: PatternSet)
    ensures !ValidateAndNormalize(baseUrl).ok ==> r == PatternSet(false, [], ValidateAndNormalize(baseUrl).error)
    ensures r.ok == ValidateAndNormalize(baseUrl).ok
    ensures r.ok <==> r.error == ""
  {
    var v := ValidateAndNormalize(baseUrl);
    if !v.ok then PatternSet(false, [], v.error)
    else
      NormalizedParses(baseUrl);
      var parsed := ParseUrl(v.normalized, "").value;
      PatternSet(true, WildcardPair(HostKey(Lower(parsed.netloc)), NormalizePath(parsed.path)), "")
  }

  /** The de-duplication never removes anything: the second pattern is always
      four characters longer than the first. */
  lemma WildcardPairTwo(bare: string, path: string)
    ensures WildcardPair(bare, path) == ["http*://" + bare + path + "*", "http*://www." + bare + path + "*"]
  {
    assert |"http*://www." + bare + path + "*"| == |"http*://" + bare + path + "*"| + 4;
  }

  /** A valid URL gives exactly two patterns, built from the key host and the
      normalised path; both end in "*". */
  lemma WildcardPatternsShape(url: string)
    requires ValidateAndNormalize(url).ok
    ensures var q := NormalizedParts(Validated(url).value);
      var bare := HostKey(q.netloc);
      CreateWildcardPatterns(url) == PatternSet(true, ["http*://" + bare + q.path + "*", "http*://www." + bare + q.path + "*"], "")
  {
    var p := Validated(url).value;
    NormalizedParses(url);
    LowerIdempotent(p.netloc);
    NormalizePathFixed(p.path);
    WildcardPairTwo(HostKey(Lower(p.netloc)), NormalizePath(p.path));
  }

  /** The patterns depend on the network location and the path only: the scheme
      (http or https), parameters and query do not matter. */
  lemma WildcardPatternsIgnoreScheme(u1: string, u2: string)
    requires ValidateAndNormalize(u1).ok && ValidateAndNormalize(u2).ok
    requires var q1 := NormalizedParts(Validated(u1).value); var q2 := NormalizedParts(Validated(u2).value);
      q1.netloc == q2.netloc && q1.path == q2.path
    ensures CreateWildcardPatterns(u1) == CreateWildcardPatterns(u2)
  {
    WildcardPatternsShape(u1);
    WildcardPatternsShape(u2);
  }

  /** A site and its "www." variant get the same patterns. */
  lemma WildcardPatternsWww(u1: string, u2: string)
    requires ValidateAndNormalize(u1).ok && ValidateAndNormalize(u2).ok
    requires var q1 := NormalizedParts(Validated(u1).value); var q2 := NormalizedParts(Validated(u2).value);
      q1.netloc == "www." + q2.netloc && !StartsWith(q2.netloc, "www.") && q1.path == q2.path
    ensures CreateWildcardPatterns(u1) == CreateWildcardPatterns(u2)
  {
    WildcardPatternsShape(u1);
    WildcardPatternsShape(u2);
    WwwShareKey(NormalizedParts(Validated(u2).value).netloc);
  }

  /** `create_wildcard_pattern`: the normalised URL with a star (after a '/') or a slash and a star
      added, unless it already ends in "*"; `None` for an invalid URL. */
  function CreateWildcardPattern(baseUrl: string): (r: Option<string>)
    ensures r.Some? <==> ValidateAndNormalize(baseUrl).ok
    ensures r.Some? ==> var n := ValidateAndNormalize(baseUrl).normalized;
      StartsWith(r.value, n) && |r.value| <= |n| + 2 && EndsWith(r.value, "*")
  {
    var v := ValidateAndNormalize(baseUrl);
    if !v.ok then None else Some(v.normalized + WildcardSuffix(v.normalized))
  }

  /** What `create_wildcard_pattern` adds to the normalised URL. */
  function WildcardSuffix(n: string): (r: string)
    ensures |r| <= 2 && EndsWith(n + r, "*")
    ensures EndsWith(n, "*") ==> r == ""
  {
    if EndsWith(n, "*") then (assert n + "" == n; "")
    else if EndsWith(n, "/") then "*"
    else "/*"
  }

  /** A bare valid host gives the pattern for everything under its https root. */
  lemma BareHostPattern(h: string)
    requires BareHost(h) && DomainOk(Lower(h))
    ensures CreateWildcardPattern(h) == Some("https://" + Lower(h) + "/*")
  {
    BareHostValidates(h);
    SlashPattern("https://" + Lower(h));
  }

  lemma SlashPattern(n: string)
    ensures WildcardSuffix(n + "/") == "*" && (n + "/") + "*" == n + "/*"
  {
  }

  // ---------------------------------------------------------------------------
  // Domain comparison

  /** `extract_domain`: the lower-cased network location, `None` when parsing
      raises. */
  function ExtractDomain(url: string): (r: Option<string>)
    ensures r.Some? <==> ParseUrl(url, "").Ok?
    ensures r.Some? ==> IsLowered(r.value) && |r.value| == |ParseUrl(url, "").value.netloc|
  {
    match ParseUrl(url, "")
    case Ok(p) => Some(Lower(p.netloc))
    case Err(_) => None
  }

  /** `is_same_domain` */
  function IsSameDomain(url1: string, url2: string): bool {
    var d1 := ExtractDomain(url1);
    d1.Some? && d1 == ExtractDomain(url2)
  }

  /** Same domain exactly when both parse and the network locations agree up to
      ASCII case. */
  lemma SameDomainMeaning(url1: string, url2: string)
    ensures IsSameDomain(url1, url2) <==>
      ParseUrl(url1, "").Ok? && ParseUrl(url2, "").Ok?
      && Lower(ParseUrl(url1, "").value.netloc) == Lower(ParseUrl(url2, "").value.netloc)
  {
  }

  lemma SameDomainSymmetric(url1: string, url2: string)
    ensures IsSameDomain(url1, url2) == IsSameDomain(url2, url1)
  {
  }

  lemma SameDomainTransitive(url1: string, url2: string, url3: string)
    requires IsSameDomain(url1, url2) && IsSameDomain(url2, url3)
    ensures IsSameDomain(url1, url3)
  {
  }

  /** Two inputs without "//" have no network location, so any two bare host
      names count as the same domain. */
  lemma BareHostsSameDomain(h1: string, h2: string)
    requires BareHost(h1) && BareHost(h2)
    ensures IsSameDomain(h1, h2)
  {
    BareHostParse(h1);
    BareHostParse(h2);
  }
}
