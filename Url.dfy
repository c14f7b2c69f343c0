/** The parts of Python's `urllib.parse` that the archiver calls: `urlsplit`,
    `urlparse`, `urlunparse` and `urljoin`, as they behave in Python 3.12.4 and later. */
module Url {
  import opened Strings
  import opened Wrappers

  /** The six fields of a `ParseResult`; `SplitUrl` always leaves `params` empty. */
  datatype Parts = Parts(scheme: string, netloc: string, path: string, params: string, query: string, fragment: string)

  /** The characters `urlsplit` strips from the front of its input: C0 controls and space. */
  predicate IsControlOrSpace(c: char) {
    c <= ' '
  }

  /** Characters `urlsplit` deletes wherever they occur. */
  const Unsafe: set<char> := {'\t', '\r', '\n'}

  const NetlocEnd: set<char> := {'/', '?', '#'}

  const UsesParams: set<string> := {"", "ftp", "hdl", "prospero", "http", "imap", "https", "shttp", "rtsp", "rtsps",
                                    "rtspu", "sip", "sips", "mms", "sftp", "tel"}

  const UsesNetloc: set<string> := {"", "ftp", "http", "gopher", "nntp", "telnet", "imap", "wais", "file", "mms", "https",
                                    "shttp", "snews", "prospero", "rtsp", "rtsps", "rtspu", "rsync", "svn", "svn+ssh",
                                    "sftp", "nfs", "git", "git+ssh", "ws", "wss", "itms-services"}

  const UsesRelative: set<string> := {"", "ftp", "http", "gopher", "nntp", "imap", "wais", "file", "https", "shttp", "mms",
                                      "prospero", "rtsp", "rtsps", "rtspu", "sftp", "svn", "svn+ssh", "ws", "wss"}

  predicate IsSchemeChar(c: char) {
    IsAsciiAlnum(c) || c == '+' || c == '-' || c == '.'
  }

  /** `u` opens with a scheme: a colon after at least one character, an ASCII
      letter first, and nothing but scheme characters before the colon. */
  predicate HasScheme(u: string) {
    var i := IndexOf(u, ':');
    0 < i < |u| && IsAsciiLetter(u[0]) && forall k :: 0 <= k < i ==> IsSchemeChar(u[k])
  }

  /** `url.lstrip(_WHATWG_C0_CONTROL_OR_SPACE)` */
  function LStripControl(s: string): string
    decreases |s|
  {
    if |s| > 0 && IsControlOrSpace(s[0]) then LStripControl(s[1..]) else s
  }

  /** The text `urlsplit` works on: leading C0 controls and spaces stripped,
      tabs and line breaks deleted. */
  function Cleaned(url: string): (u: string)
    ensures NoneOf(u, Unsafe)
  {
    Without(LStripControl(url), Unsafe)
  }

  /** `scheme.strip(_WHATWG_C0_CONTROL_OR_SPACE)` with tabs and line breaks deleted. */
  function CleanedScheme(scheme: string): string {
    Without(RStripControl(LStripControl(scheme)), Unsafe)
  }

  function RStripControl(s: string): (r: string)
    decreases |s|
  {
    if |s| > 0 && IsControlOrSpace(s[|s| - 1]) then RStripControl(s[..|s| - 1]) else s
  }

  /** The scheme (lower-cased) and what follows its colon, or the default scheme and
      the whole text. */
  function SplitScheme(u: string, defaultScheme: string): (r: (string, string))
    ensures NoneOf(u, Unsafe) ==> NoneOf(r.1, Unsafe)
    ensures HasScheme(u) ==> IsLowered(r.0) && |r.0| < |u| && u == u[..|r.0|] + ":" + r.1
    ensures !HasScheme(u) ==> r == (CleanedScheme(defaultScheme), u)
  {
    var colon := IndexOf(u, ':');
    if HasScheme(u) then
      assert u == u[..colon] + ":" + u[colon + 1..];
      (Lower(u[..colon]), u[colon + 1..])
    else (CleanedScheme(defaultScheme), u)
  }

  /** The network location after a leading "//", up to the first '/', '?' or '#'. */
  function SplitNetloc(rest: string): (r: (string, string))
    ensures NoneOf(r.0, NetlocEnd)
    ensures rest == (if StartsWith(rest, "//") then "//" else "") + r.0 + r.1
    ensures r.1 == "" || r.1[0] in NetlocEnd || (r.0 == "" && !StartsWith(rest, "//"))
    ensures !StartsWith(rest, "//") ==> r == ("", rest)
    ensures NoneOf(rest, Unsafe) ==> NoneOf(r.0, Unsafe) && NoneOf(r.1, Unsafe)
  {
    if StartsWith(rest, "//") then
      var j := 2 + IndexOfAny(rest[2..], NetlocEnd);
      assert rest == "//" + rest[2..j] + rest[j..];
      (rest[2..j], rest[j..])
    else ("", rest)
  }

  /** `s.split(c, 1)` when `c` occurs in `s`, and `(s, "")` when it does not. */
  function CutAt(s: string, c: char): (r: (string, string))
    ensures c !in r.0 && |r.0| <= |s| && r.0 == s[..|r.0|]
    ensures c !in s ==> r == (s, "")
    ensures c in s ==> s == r.0 + [c] + r.1
  {
    var i := IndexOf(s, c);
    if i < |s| then
      assert s == s[..i] + [c] + s[i + 1..];
      (s[..i], s[i + 1..])
    else (s, "")
  }

  lemma CutAtJoin(a: string, c: char, b: string)
    requires c !in a
    ensures CutAt(a + [c] + b, c) == (a, b)
  {
    IndexOfConcat(a, [c] + b, c);
    assert a + [c] + b == a + ([c] + b);
    assert (a + [c] + b)[..|a|] == a;
    assert (a + [c] + b)[|a| + 1..] == b;
  }

  /** Path, query and fragment: the fragment starts at the first '#', the query at
      the first '?' before it. */
  function SplitTail(after: string): (r: (string, string, string))
    ensures NoneOf(r.0, {'?', '#'}) && NoneOf(r.1, {'#'})
    ensures NoneOf(after, Unsafe) ==> NoneOf(r.0, Unsafe) && NoneOf(r.1, Unsafe) && NoneOf(r.2, Unsafe)
    ensures |r.0| <= |after| && r.0 == after[..|r.0|]
    ensures after == "" || after[0] == '/' ==> r.0 == "" || r.0[0] == '/'
  {
    var (beforeFragment, fragment) := CutAt(after, '#');
    var (path, query) := CutAt(beforeFragment, '?');
    CutAtNoneOf(after, '#', Unsafe);
    CutAtNoneOf(beforeFragment, '?', Unsafe);
    CutAtNoneOf(beforeFragment, '?', {'#'});
    NoneOfBoth(path, '?', '#');
    PrefixOfPrefixTake(after, beforeFragment, path);
    (path, query, fragment)
  }

  /** Both halves of a cut keep out whatever the whole keeps out. */
  lemma CutAtNoneOf(s: string, c: char, cs: set<char>)
    ensures NoneOf(s, cs) ==> NoneOf(CutAt(s, c).0, cs) && NoneOf(CutAt(s, c).1, cs)
    ensures c !in s ==> NoneOf(CutAt(s, c).1, cs)
  {
    var r := CutAt(s, c);
    if c in s {
      forall i | 0 <= i < |r.1| ensures r.1[i] == s[|r.0| + 1 + i] {
        assert s == r.0 + [c] + r.1;
      }
    }
  }

  lemma NoneOfBoth(s: string, c: char, d: char)
    requires c !in s && NoneOf(s, {d})
    ensures NoneOf(s, {c, d})
  {
  }

  /** A prefix of a prefix is a prefix. */
  lemma PrefixOfPrefixTake(s: string, t: string, u: string)
    requires |t| <= |s| && t == s[..|t|] && |u| <= |t| && u == t[..|u|]
    ensures |u| <= |s| && u == s[..|u|]
    ensures s == "" || s[0] == '/' ==> u == "" || u[0] == '/'
  {
  }

  /** `urlsplit(url, scheme)`; the only exception modelled is the unbalanced-bracket
      `ValueError`. */
  function SplitUrl(url: string, defaultScheme: string): (r: Result<Parts>)
    ensures r.Err? ==> r.error == "Invalid IPv6 URL"
    ensures r.Ok? ==> r.value.params == "" && NoneOf(r.value.netloc, NetlocEnd) && NoneOf(r.value.netloc, Unsafe)
    ensures r.Ok? ==> NoneOf(r.value.path, {'?', '#'}) && NoneOf(r.value.path, Unsafe)
    ensures r.Ok? ==> NoneOf(r.value.query, {'#'}) && NoneOf(r.value.query, Unsafe) && NoneOf(r.value.fragment, Unsafe)
    ensures r.Ok? && r.value.netloc != "" ==> r.value.path == "" || r.value.path[0] == '/'
    ensures r.Ok? && HasScheme(Cleaned(url)) ==> IsLowered(r.value.scheme)
  {
    var u := Cleaned(url);
    var (scheme, rest) := SplitScheme(u, defaultScheme);
    var (netloc, after) := SplitNetloc(rest);
    if ('[' in netloc) != (']' in netloc) then Err("Invalid IPv6 URL")
    else
      var (path, query, fragment) := SplitTail(after);
      Ok(Parts(scheme, netloc, path, "", query, fragment))
  }

  /** `_splitparams`: the parameters start at the first ';' after the last '/'. */
  function SplitParams(path: string): (r: (string, string))
  {
    var from := ParamsSearchStart(path);
    var i := from + IndexOf(path[from..], ';');
    if i == |path| then (path, "") else (path[..i], path[i + 1..])
  }

  /** Where `_splitparams` starts looking for ';': the last '/', or the start. */
  function ParamsSearchStart(path: string): (k: nat)
    ensures k <= |path| && (k < |path| ==> path[k] == '/' || k == 0)
    ensures forall j :: k < j < |path| ==> path[j] != '/'
  {
    var last := LastIndexOf(path, '/');
    if last >= 0 then last else 0
  }

  lemma SplitParamsJoin(path: string)
    ensures var r := SplitParams(path); path == r.0 || path == r.0 + ";" + r.1
  {
    var from := ParamsSearchStart(path);
    var tail := path[from..];
    var i := from + IndexOf(tail, ';');
    assert SplitParams(path) == if i == |path| then (path, "") else (path[..i], path[i + 1..]);
    if i < |path| {
      assert tail[i - from] == ';';
      SplitAround(path, i, ';');
    }
  }

  lemma SplitParamsNoSlash(path: string)
    ensures NoneOf(SplitParams(path).1, {'/'})
  {
  }

  lemma SplitParamsLastSegment(path: string)
    ensures ';' !in LastPart(SplitParams(path).0, '/')
  {
    var from := ParamsSearchStart(path);
    assert SplitParams(path).0 == path[..from + IndexOf(path[from..], ';')];
    LastPartBeforeFirst(path, from, '/', ';');
  }

  /** `urlparse(url, scheme)`. */
  function ParseUrl(url: string, defaultScheme: string): (r: Result<Parts>)
    ensures SplitUrl(url, defaultScheme).Err? <==> r.Err?
    ensures r.Err? ==> r.error == "Invalid IPv6 URL"
  {
    match SplitUrl(url, defaultScheme)
    case Err(e) => Err(e)
    case Ok(p) =>
      if p.scheme in UsesParams && ';' in p.path then
        var (path, params) := SplitParams(p.path);
        Ok(p.(path := path, params := params))
      else Ok(p)
  }

  /** What every parse result satisfies: each component is free of the delimiters
      that end it, the brackets of the network location balance, a path after a
      network location is absolute, and, for schemes that use parameters, the last
      path segment holds no ';'. */
  predicate WellSplit(p: Parts) {
    && NoneOf(p.netloc, NetlocEnd) && NoneOf(p.netloc, Unsafe) && (('[' in p.netloc) == (']' in p.netloc))
    && NoneOf(p.path, {'?', '#'}) && NoneOf(p.path, Unsafe)
    && (p.netloc != "" ==> p.path == "" || p.path[0] == '/')
    && NoneOf(p.params, {'/', '?', '#'}) && NoneOf(p.params, Unsafe)
    && NoneOf(p.query, {'#'}) && NoneOf(p.query, Unsafe) && NoneOf(p.fragment, Unsafe)
    && (p.scheme in UsesParams ==> ';' !in LastPart(p.path, '/'))
  }

  lemma SplitUrlBalanced(url: string, defaultScheme: string)
    requires SplitUrl(url, defaultScheme).Ok?
    ensures var p := SplitUrl(url, defaultScheme).value; ('[' in p.netloc) == (']' in p.netloc)
  {
  }

  lemma SplitParamsParts(path: string, cs: set<char>)
    requires NoneOf(path, cs)
    ensures NoneOf(SplitParams(path).0, cs) && NoneOf(SplitParams(path).1, cs)
  {
    SplitParamsJoin(path);
    var r := SplitParams(path);
    if path != r.0 {
      assert path == r.0 + ";" + r.1;
      assert forall k :: 0 <= k < |r.0| ==> r.0[k] == path[k];
      assert forall k :: 0 <= k < |r.1| ==> r.1[k] == path[|r.0| + 1 + k];
    }
  }

  lemma LastPartOfClean(s: string, c: char, d: char)
    requires d !in s
    ensures d !in LastPart(s, c)
  {
    var r := LastPart(s, c);
    assert forall k :: 0 <= k < |r| ==> r[k] == s[|s| - |r| + k];
  }

  /** The facts `SplitUrl` guarantees, before parameters are split off. */
  predicate SplitFacts(p: Parts) {
    && p.params == ""
    && NoneOf(p.netloc, NetlocEnd) && NoneOf(p.netloc, Unsafe) && (('[' in p.netloc) == (']' in p.netloc))
    && NoneOf(p.path, {'?', '#'}) && NoneOf(p.path, Unsafe)
    && (p.netloc != "" ==> p.path == "" || p.path[0] == '/')
    && NoneOf(p.query, {'#'}) && NoneOf(p.query, Unsafe) && NoneOf(p.fragment, Unsafe)
  }

  lemma WellSplitAfterParams(p: Parts)
    requires SplitFacts(p) && p.scheme in UsesParams && ';' in p.path
    ensures WellSplit(p.(path := SplitParams(p.path).0, params := SplitParams(p.path).1))
  {
    SplitParamsParts(p.path, {'?', '#'});
    SplitParamsParts(p.path, Unsafe);
    SplitParamsNoSlash(p.path);
    SplitParamsLastSegment(p.path);
    SplitParamsJoin(p.path);
    var r := SplitParams(p.path);
    if p.netloc != "" && r.0 != "" {
      assert r.0[0] == p.path[0];
    }
  }

  lemma WellSplitWithoutParams(p: Parts)
    requires SplitFacts(p) && !(p.scheme in UsesParams && ';' in p.path)
    ensures WellSplit(p)
  {
    if p.scheme in UsesParams {
      LastPartOfClean(p.path, '/', ';');
    }
  }

  lemma ParseUrlWellSplit(url: string, defaultScheme: string)
    requires ParseUrl(url, defaultScheme).Ok?
    ensures WellSplit(ParseUrl(url, defaultScheme).value)
  {
    var p := SplitUrl(url, defaultScheme).value;
    SplitUrlBalanced(url, defaultScheme);
    assert SplitFacts(p);
    if p.scheme in UsesParams && ';' in p.path {
      WellSplitAfterParams(p);
    } else {
      WellSplitWithoutParams(p);
    }
  }

  lemma ParseUrlScheme(url: string, defaultScheme: string)
    requires ParseUrl(url, defaultScheme).Ok?
    ensures ParseUrl(url, defaultScheme).value.scheme == SplitScheme(Cleaned(url), defaultScheme).0
  {
  }

  /** The path with `;params` appended when there are parameters. */
  function WithParams(path: string, params: string): string {
    if params != "" then path + ";" + params else path
  }

  function QueryPart(query: string): string {
    if query != "" then "?" + query else ""
  }

  function FragmentPart(fragment: string): string {
    if fragment != "" then "#" + fragment else ""
  }

  /** `urlunparse`: parameters after ';', then `urlunsplit`. */
  function Unparse(p: Parts): string {
    var withParams := WithParams(p.path, p.params);
    var hier :=
      if p.netloc != "" then "//" + p.netloc + (if withParams != "" && withParams[0] != '/' then "/" + withParams else withParams)
      else if StartsWith(withParams, "//") then "//" + withParams
      else if p.scheme != "" && p.scheme in UsesNetloc && (withParams == "" || withParams[0] == '/') then "//" + withParams
      else withParams;
    (if p.scheme != "" then p.scheme + ":" else "") + hier + QueryPart(p.query) + FragmentPart(p.fragment)
  }

  /** `urlunparse` puts a non-empty scheme and ':' first. */
  lemma UnparseSchemeFirst(p: Parts)
    requires p.scheme != ""
    ensures StartsWith(Unparse(p), p.scheme + [':'])
  {
  }

  /** The shape of every URL the validator produces: a lower-case scheme that uses
      parameters, a non-empty network location, an absolute path whose last segment
      holds no ';', and components free of the delimiters that would end them early. */
  predicate Canonical(p: Parts) {
    && p.scheme != "" && IsAsciiLetter(p.scheme[0]) && IsLowered(p.scheme)
    && (forall k :: 0 <= k < |p.scheme| ==> IsSchemeChar(p.scheme[k]))
    && p.scheme in UsesParams
    && p.netloc != "" && NoneOf(p.netloc, NetlocEnd) && NoneOf(p.netloc, Unsafe)
    && (('[' in p.netloc) == (']' in p.netloc))
    && p.path != "" && p.path[0] == '/' && NoneOf(p.path, {'?', '#'}) && NoneOf(p.path, Unsafe)
    && ';' !in LastPart(p.path, '/')
    && NoneOf(p.params, {'/', '?', '#'}) && NoneOf(p.params, Unsafe)
    && NoneOf(p.query, {'#'}) && NoneOf(p.query, Unsafe)
    && NoneOf(p.fragment, Unsafe)
  }

  /** With a non-empty network location and an absolute path, `urlunparse`
      writes the scheme, "//", the network location and the rest in order. */
  lemma UnparseCanonicalEq(p: Parts)
    requires p.scheme != "" && p.netloc != "" && p.path != "" && p.path[0] == '/'
    ensures Unparse(p) == p.scheme + ":" + CanonicalRest(p)
  {
    assert WithParams(p.path, p.params)[0] == '/';
  }

  /** A scheme of scheme characters holds no tab or line break. */
  lemma SchemeSafe(scheme: string)
    requires forall k :: 0 <= k < |scheme| ==> IsSchemeChar(scheme[k])
    ensures NoneOf(scheme, Unsafe)
  {
    forall k | 0 <= k < |scheme| ensures scheme[k] !in Unsafe {
      assert IsSchemeChar(scheme[k]);
    }
  }

  /** Components free of tabs and line breaks give a rest free of them. */
  lemma CanonicalRestSafe(netloc: string, path: string, params: string, query: string, fragment: string)
    requires NoneOf(netloc, Unsafe) && NoneOf(path, Unsafe) && NoneOf(params, Unsafe)
    requires NoneOf(query, Unsafe) && NoneOf(fragment, Unsafe)
    ensures NoneOf("//" + netloc + WithParams(path, params) + QueryPart(query) + FragmentPart(fragment), Unsafe)
  {
    var wp := WithParams(path, params);
    NoneOfAppend(path + ";", params, Unsafe);
    assert NoneOf(wp, Unsafe);
    NoneOfAppend("//" + netloc, wp, Unsafe);
    NoneOfAppend("//" + netloc + wp, QueryPart(query), Unsafe);
    NoneOfAppend("//" + netloc + wp + QueryPart(query), FragmentPart(fragment), Unsafe);
  }

  lemma UnparseCanonicalShape(p: Parts)
    requires Canonical(p)
    ensures Unparse(p) == p.scheme + ":" + ("//" + p.netloc + WithParams(p.path, p.params) + QueryPart(p.query) + FragmentPart(p.fragment))
    ensures NoneOf(Unparse(p), Unsafe)
  {
    UnparseCanonicalEq(p);
    SchemeSafe(p.scheme);
    CanonicalRestSafe(p.netloc, p.path, p.params, p.query, p.fragment);
    NoneOfAppend(p.scheme + ":", CanonicalRest(p), Unsafe);
  }

  lemma SearchStartCanonical(path: string, extra: string)
    requires path != "" && path[0] == '/' && '/' !in extra
    ensures 0 <= LastIndexOf(path, '/') && ParamsSearchStart(path + extra) == LastIndexOf(path, '/')
  {
    LastIndexOfConcat(path, extra, '/');
    assert path[0] == '/';
  }

  lemma FirstSemicolonAfter(path: string, extra: string, last: nat)
    requires last < |path| && path[last] == '/' && ';' !in path[last + 1..]
    requires extra == "" || extra[0] == ';'
    ensures last + IndexOf((path + extra)[last..], ';') == |path|
  {
    var seg := path[last + 1..];
    assert path[last..] == ['/'] + seg;
    assert (path + extra)[last..] == path[last..] + extra;
    assert ';' !in ['/'] + seg;
    IndexOfConcat(['/'] + seg, extra, ';');
  }

  lemma FirstSemicolonCanonical(path: string, extra: string)
    requires path != "" && path[0] == '/' && ';' !in LastPart(path, '/')
    requires extra == "" || extra[0] == ';'
    ensures 0 <= LastIndexOf(path, '/')
    ensures LastIndexOf(path, '/') + IndexOf((path + extra)[LastIndexOf(path, '/')..], ';') == |path|
  {
    assert path[0] == '/';
    var last := LastIndexOf(path, '/');
    FirstSemicolonAfter(path, extra, last);
  }

  lemma SplitParamsCanonical(path: string, params: string)
    requires path != "" && path[0] == '/' && ';' !in LastPart(path, '/') && NoneOf(params, {'/'})
    ensures SplitParams(WithParams(path, params)) == (path, params)
  {
    var wp := WithParams(path, params);
    var extra := if params != "" then ";" + params else "";
    assert wp == path + extra;
    assert NoneOf(extra, {'/'});
    SearchStartCanonical(path, extra);
    FirstSemicolonCanonical(path, extra);
    if params != "" {
      assert wp[..|path|] == path;
      assert wp[|path| + 1..] == params;
    }
  }

  /** The fragment of a canonical tail starts at its only '#'. */
  lemma CutFragmentCanonical(wp: string, query: string, fragment: string)
    requires NoneOf(wp, {'?', '#'}) && NoneOf(query, {'#'})
    ensures CutAt(wp + QueryPart(query) + FragmentPart(fragment), '#') == (wp + QueryPart(query), fragment)
  {
    var q := QueryPart(query);
    assert NoneOf(wp, {'#'});
    assert NoneOf(q, {'#'});
    NoneOfAppend(wp, q, {'#'});
    assert '#' !in wp + q;
    if fragment != "" {
      assert FragmentPart(fragment) == ['#'] + fragment;
      assert wp + q + FragmentPart(fragment) == (wp + q) + ['#'] + fragment;
      CutAtJoin(wp + q, '#', fragment);
    } else {
      assert wp + q + FragmentPart(fragment) == wp + q;
    }
  }

  /** The query of a canonical tail starts at its only '?'. */
  lemma CutQueryCanonical(wp: string, query: string)
    requires NoneOf(wp, {'?', '#'})
    ensures CutAt(wp + QueryPart(query), '?') == (wp, query)
  {
    assert NoneOf(wp, {'?'});
    assert '?' !in wp;
    if query != "" {
      assert QueryPart(query) == ['?'] + query;
      assert wp + QueryPart(query) == wp + ['?'] + query;
      CutAtJoin(wp, '?', query);
    } else {
      assert wp + QueryPart(query) == wp;
    }
  }

  lemma SplitTailCanonical(wp: string, query: string, fragment: string)
    requires NoneOf(wp, {'?', '#'}) && NoneOf(query, {'#'})
    ensures SplitTail(wp + QueryPart(query) + FragmentPart(fragment)) == (wp, query, fragment)
  {
    CutFragmentCanonical(wp, query, fragment);
    CutQueryCanonical(wp, query);
  }

  lemma SplitNetlocCanonical(netloc: string, wp: string, tail: string)
    requires NoneOf(netloc, NetlocEnd) && wp != "" && wp[0] == '/'
    ensures SplitNetloc("//" + netloc + wp + tail) == (netloc, wp + tail)
  {
    var rest := "//" + netloc + wp + tail;
    assert StartsWith(rest, "//");
    assert rest[2..] == netloc + (wp + tail);
    IndexOfAnyConcat(netloc, wp + tail, NetlocEnd);
    assert (wp + tail)[0] == '/';
    assert IndexOfAny(wp + tail, NetlocEnd) == 0;
    var j := 2 + |netloc|;
    assert rest[2..j] == netloc;
    assert rest[j..] == wp + tail;
  }

  /** What follows the scheme's colon in an unparsed canonical URL. */
  function CanonicalRest(p: Parts): string {
    "//" + p.netloc + WithParams(p.path, p.params) + QueryPart(p.query) + FragmentPart(p.fragment)
  }

  lemma CleanedCanonical(p: Parts)
    requires Canonical(p)
    ensures Cleaned(Unparse(p)) == Unparse(p)
  {
    var s := Unparse(p);
    UnparseCanonicalShape(p);
    assert s[0] == p.scheme[0] && IsAsciiLetter(s[0]);
    assert LStripControl(s) == s;
  }

  /** A scheme of scheme characters starting with a letter, already lower
      case, is split off at its colon. */
  lemma SplitSchemeOf(scheme: string, rest: string)
    requires scheme != "" && IsAsciiLetter(scheme[0]) && IsLowered(scheme)
    requires forall k :: 0 <= k < |scheme| ==> IsSchemeChar(scheme[k])
    ensures SplitScheme(scheme + ":" + rest, "") == (scheme, rest)
  {
    var s := scheme + ":" + rest;
    assert s == scheme + (":" + rest);
    assert ':' !in scheme by {
      forall k | 0 <= k < |scheme| ensures scheme[k] != ':' {
        assert IsSchemeChar(scheme[k]);
      }
    }
    IndexOfConcat(scheme, ":" + rest, ':');
    assert IndexOf(s, ':') == |scheme|;
    assert s[..|scheme|] == scheme;
    assert forall k :: 0 <= k < |scheme| ==> IsSchemeChar(s[k]);
    assert HasScheme(s);
    LowerOfLowered(scheme);
    assert s[|scheme| + 1..] == rest;
  }

  lemma SplitSchemeCanonical(p: Parts)
    requires Canonical(p)
    ensures SplitScheme(Unparse(p), "") == (p.scheme, CanonicalRest(p))
  {
    UnparseCanonicalEq(p);
    SplitSchemeOf(p.scheme, CanonicalRest(p));
  }

  /** `SplitUrl` assembled from the results of its steps. */
  lemma SplitUrlSteps(url: string, scheme: string, rest: string, netloc: string, after: string, tail: (string, string, string))
    requires SplitScheme(Cleaned(url), "") == (scheme, rest)
    requires SplitNetloc(rest) == (netloc, after)
    requires ('[' in netloc) == (']' in netloc)
    requires SplitTail(after) == tail
    ensures SplitUrl(url, "") == Ok(Parts(scheme, netloc, tail.0, "", tail.1, tail.2))
  {
  }

  lemma WithParamsDelimiters(p: Parts)
    requires Canonical(p)
    ensures NoneOf(WithParams(p.path, p.params), {'?', '#'})
    ensures WithParams(p.path, p.params) != "" && WithParams(p.path, p.params)[0] == '/'
  {
    if p.params != "" {
      NoneOfAppend(p.path + ";", p.params, {'?', '#'});
    }
  }

  /** `urlsplit` takes apart a URL written from a scheme, "//", a network
      location, an absolute path, a query and a fragment that hold none of the
      characters that would end them early. */
  lemma SplitUrlOf(scheme: string, netloc: string, wp: string, query: string, fragment: string)
    requires scheme != "" && IsAsciiLetter(scheme[0]) && IsLowered(scheme)
    requires forall k :: 0 <= k < |scheme| ==> IsSchemeChar(scheme[k])
    requires NoneOf(netloc, NetlocEnd) && ('[' in netloc) == (']' in netloc)
    requires wp != "" && wp[0] == '/' && NoneOf(wp, {'?', '#'}) && NoneOf(query, {'#'})
    requires NoneOf(scheme + ":" + ("//" + netloc + wp + QueryPart(query) + FragmentPart(fragment)), Unsafe)
    ensures SplitUrl(scheme + ":" + ("//" + netloc + wp + QueryPart(query) + FragmentPart(fragment)), "")
      == Ok(Parts(scheme, netloc, wp, "", query, fragment))
  {
    var rest := "//" + netloc + wp + QueryPart(query) + FragmentPart(fragment);
    var s := scheme + ":" + rest;
    CleanedSchemeFirst(scheme, rest);
    SplitSchemeOf(scheme, rest);
    SplitNetlocOf(netloc, wp, query, fragment);
    SplitTailCanonical(wp, query, fragment);
    SplitUrlSteps(s, scheme, rest, netloc, wp + QueryPart(query) + FragmentPart(fragment), (wp, query, fragment));
  }

  /** Text that starts with a letter and holds no tab or line break is what
      `urlsplit` works on unchanged. */
  lemma CleanedSchemeFirst(scheme: string, rest: string)
    requires scheme != "" && IsAsciiLetter(scheme[0]) && NoneOf(scheme + ":" + rest, Unsafe)
    ensures Cleaned(scheme + ":" + rest) == scheme + ":" + rest
  {
    var s := scheme + ":" + rest;
    assert s[0] == scheme[0];
    assert LStripControl(s) == s;
  }

  lemma SplitNetlocOf(netloc: string, wp: string, query: string, fragment: string)
    requires NoneOf(netloc, NetlocEnd) && wp != "" && wp[0] == '/'
    ensures SplitNetloc("//" + netloc + wp + QueryPart(query) + FragmentPart(fragment))
      == (netloc, wp + QueryPart(query) + FragmentPart(fragment))
  {
    var tail := QueryPart(query) + FragmentPart(fragment);
    assert "//" + netloc + wp + QueryPart(query) + FragmentPart(fragment) == "//" + netloc + wp + tail;
    assert wp + QueryPart(query) + FragmentPart(fragment) == wp + tail;
    SplitNetlocCanonical(netloc, wp, tail);
  }

  lemma SplitUrlCanonical(p: Parts)
    requires Canonical(p)
    ensures SplitUrl(Unparse(p), "") == Ok(Parts(p.scheme, p.netloc, WithParams(p.path, p.params), "", p.query, p.fragment))
  {
    UnparseCanonicalShape(p);
    WithParamsDelimiters(p);
    SplitUrlOf(p.scheme, p.netloc, WithParams(p.path, p.params), p.query, p.fragment);
  }

  /** Re-parsing an unparsed canonical URL gives back the same components. */
  lemma ParseUnparse(p: Parts)
    requires Canonical(p)
    ensures ParseUrl(Unparse(p), "") == Ok(p)
  {
    SplitUrlCanonical(p);
    var wp := WithParams(p.path, p.params);
    if ';' in wp {
      SplitParamsCanonical(p.path, p.params);
    } else {
      assert p.params == "";
    }
  }

  /** A path segment that `urljoin` resolves rather than keeps. */
  predicate IsDotSegment(s: string) {
    s == "." || s == ".."
  }

  predicate DotFree(segs: seq<string>) {
    forall k :: 0 <= k < |segs| ==> !IsDotSegment(segs[k])
  }

  /** The directory part of the base path: its '/'-separated segments without the
      last one, unless that one is empty (the base path ends in '/'). */
  function BaseDirParts(bpath: string): (r: seq<string>)
    ensures |r| + 1 >= |Split(bpath, '/')|
  {
    var parts := Split(bpath, '/');
    if parts[|parts| - 1] != "" then parts[..|parts| - 1] else parts
  }

  /** Empty segments dropped, as `filter(None, ...)` does. */
  function NonEmpty(segs: seq<string>): (r: seq<string>)
    ensures |r| <= |segs| && forall k :: 0 <= k < |r| ==> r[k] != "" && r[k] in segs
  {
    if segs == [] then []
    else (if segs[0] == "" then [] else [segs[0]]) + NonEmpty(segs[1..])
  }

  /** The segments `urljoin` resolves: those of an absolute reference path alone,
      otherwise the base directory's followed by the reference's, with the empty
      inner ones removed. */
  function Segments(bpath: string, path: string): (r: seq<string>)
    ensures |r| >= 1
  {
    if StartsWith(path, "/") then Split(path, '/')
    else
      var s := BaseDirParts(bpath) + Split(path, '/');
      if |s| < 2 then s else [s[0]] + NonEmpty(s[1..|s| - 1]) + [s[|s| - 1]]
  }

  /** The segment loop of `urljoin`: ".." pops the last kept segment (and is ignored
      when there is none), "." is skipped and every other segment is kept. */
  function Resolve(segs: seq<string>, stack: seq<string>): (r: seq<string>)
    ensures DotFree(stack) ==> DotFree(r)
    ensures |r| <= |stack| + |segs|
    decreases |segs|
  {
    if segs == [] then stack
    else if segs[0] == ".." then Resolve(segs[1..], if stack == [] then [] else stack[..|stack| - 1])
    else if segs[0] == "." then Resolve(segs[1..], stack)
    else Resolve(segs[1..], stack + [segs[0]])
  }

  /** The path `urljoin` produces for a reference with a path: the resolved
      segments, with a trailing '/' when the last segment was a dot segment, and
      "/" when nothing is left. */
  function ResolvedPath(bpath: string, path: string): (r: string)
    ensures r != ""
  {
    var segs := Segments(bpath, path);
    var resolved := Resolve(segs, []) + (if IsDotSegment(segs[|segs| - 1]) then [""] else []);
    var joined := Join(resolved, "/");
    if joined == "" then "/" else joined
  }

  /** `urljoin(base, url)` after both have been parsed, the reference with the
      base's scheme as its default. */
  function JoinParts(b: Parts, p: Parts, url: string): (r: string)
    ensures p.scheme != b.scheme || p.scheme !in UsesRelative ==> r == url
  {
    if p.scheme != b.scheme || p.scheme !in UsesRelative then url
    else if p.scheme in UsesNetloc && p.netloc != "" then Unparse(p)
    else
      var netloc := if p.scheme in UsesNetloc then b.netloc else p.netloc;
      if p.path == "" && p.params == "" then
        Unparse(Parts(p.scheme, netloc, b.path, b.params, if p.query == "" then b.query else p.query, p.fragment))
      else
        Unparse(Parts(p.scheme, netloc, ResolvedPath(b.path, p.path), p.params, p.query, p.fragment))
  }

  /** `urljoin(base, url)`; a parse error of either argument is the `ValueError`
      it raises. */
  function UrlJoin(base: string, url: string): (r: Result<string>)
    ensures base == "" ==> r == Ok(url)
    ensures base != "" && url == "" ==> r == Ok(base)
    ensures r.Err? ==> r.error == "Invalid IPv6 URL"
  {
    if base == "" then Ok(url)
    else if url == "" then Ok(base)
    else
      match ParseUrl(base, "")
      case Err(e) => Err(e)
      case Ok(b) =>
        match ParseUrl(url, b.scheme)
        case Err(e) => Err(e)
        case Ok(p) => Ok(JoinParts(b, p, url))
  }

  /** Resolving segments that hold no dot segment keeps them all, in order. */
  lemma {:induction false} ResolveDotFree(segs: seq<string>, stack: seq<string>)
    requires DotFree(segs)
    ensures Resolve(segs, stack) == stack + segs
    decreases |segs|
  {
    if segs != [] {
      ResolveDotFree(segs[1..], stack + [segs[0]]);
      assert stack + [segs[0]] + segs[1..] == stack + segs;
    }
  }

  /** An absolute reference path without dot segments is kept as it is, whatever
      the base path (RFC 3986 section 5.2.2 with `remove_dot_segments` a no-op). */
  lemma AbsolutePathKept(bpath: string, path: string)
    requires StartsWith(path, "/") && DotFree(Split(path, '/'))
    ensures ResolvedPath(bpath, path) == path
  {
    var segs := Split(path, '/');
    assert Segments(bpath, path) == segs;
    assert !IsDotSegment(segs[|segs| - 1]);
    ResolveDotFree(segs, []);
    assert Resolve(segs, []) == segs by {
      assert [] + segs == segs;
    }
    JoinSplit(path, '/');
    assert Join(segs, "/") == path;
    var resolved := Resolve(segs, []) + (if IsDotSegment(segs[|segs| - 1]) then [""] else []);
    assert resolved == segs;
    assert ResolvedPath(bpath, path) == if Join(resolved, "/") == "" then "/" else Join(resolved, "/");
  }

  /** A reference with a network location of a relative scheme replaces the base
      entirely, and one without inherits the base's network location. */
  lemma JoinNetloc(b: Parts, p: Parts, url: string)
    requires p.scheme == b.scheme && p.scheme in UsesRelative
    ensures p.netloc != "" ==> JoinParts(b, p, url) == Unparse(p)
    ensures p.netloc == "" && (p.path != "" || p.params != "") ==>
      JoinParts(b, p, url) == Unparse(p.(netloc := b.netloc, path := ResolvedPath(b.path, p.path)))
  {
  }
}
