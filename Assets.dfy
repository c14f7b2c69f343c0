/** The asset pipeline: finding the images and stylesheets a cleaned page refers
    to, fetching them from the archive for the page's capture time, pointing the
    page and its stylesheets at the local copies, and embedding those copies for
    a single-file page. */
module Assets {
  import opened Strings
  import opened Wrappers
  import Url
  import Paths
  import Codec
  import CdxClient
  import HtmlCleaner
  import opened HtmlTree

  // ---------------------------------------------------------------------------
  // `srcset` values
  // ---------------------------------------------------------------------------

  /** A URL that can stand in a `srcset` candidate list: non-empty, without
      whitespace and without ','. */
  predicate IsCandidate(u: string) {
    u != "" && ',' !in u && forall i :: 0 <= i < |u| ==> !IsSpace(u[i])
  }

  /** The comma-separated entries of a `srcset` value, each stripped, the blank
      ones dropped. */
  function Entries(parts: seq<string>): seq<string> {
    if parts == [] then []
    else
      var item := Strip(parts[0]);
      (if item == "" then [] else [item]) + Entries(parts[1..])
  }

  /** `item.split()[0]` for an entry that starts with a non-space. */
  function FirstToken(item: string): string {
    item[..IndexOfSpace(item)]
  }

  /** `_parse_srcset`: the URL of each non-blank entry. */
  function ParseSrcset(srcset: string): seq<string> {
    var items := Entries(Split(srcset, ','));
    seq(|items|, k requires 0 <= k < |items| => FirstToken(items[k]))
  }

  lemma {:induction false} LStripSpaceSuffix(s: string)
    ensures LStripSpace(s) == s[|s| - |LStripSpace(s)|..]
    decreases |s|
  {
    if |s| > 0 && IsSpace(s[0]) {
      LStripSpaceSuffix(s[1..]);
    }
  }

  /** Stripping keeps only characters of the original. */
  lemma StripKeepsOut(s: string, c: char)
    requires c !in s
    ensures c !in Strip(s)
  {
    LStripSpaceSuffix(s);
    var l := LStripSpace(s);
    assert c !in l;
    assert Strip(s) == RStripSpace(l);
  }

  lemma {:induction false} EntriesNonBlank(parts: seq<string>)
    ensures forall k :: 0 <= k < |Entries(parts)| ==> Entries(parts)[k] != "" && !IsSpace(Entries(parts)[k][0])
    decreases |parts|
  {
    if parts != [] {
      EntriesNonBlank(parts[1..]);
    }
  }

  lemma {:induction false} EntriesKeepOut(parts: seq<string>, c: char)
    requires forall j :: 0 <= j < |parts| ==> c !in parts[j]
    ensures forall k :: 0 <= k < |Entries(parts)| ==> c !in Entries(parts)[k]
    decreases |parts|
  {
    if parts != [] {
      StripKeepsOut(parts[0], c);
      EntriesKeepOut(parts[1..], c);
    }
  }

  /** Every URL `_parse_srcset` yields is a candidate: non-empty, without
      whitespace and without ','. */
  lemma ParseSrcsetCandidates(srcset: string)
    ensures forall k :: 0 <= k < |ParseSrcset(srcset)| ==> IsCandidate(ParseSrcset(srcset)[k])
  {
    var parts := Split(srcset, ',');
    var items := Entries(parts);
    EntriesKeepOut(parts, ',');
    EntriesNonBlank(parts);
    forall k | 0 <= k < |items|
      ensures IsCandidate(FirstToken(items[k]))
    {
      var item := items[k];
      assert item[..IndexOfSpace(item)] <= item;
    }
  }

  lemma FirstTokenOfCandidate(u: string)
    requires IsCandidate(u)
    ensures FirstToken(u) == u
  {
    assert IndexOfSpace(u) == |u|;
  }

  lemma StripCandidate(u: string)
    requires IsCandidate(u)
    ensures Strip(u) == u && Strip(" " + u) == u
  {
    StripOfClean(u);
    assert LStripSpace(" " + u) == LStripSpace(u) by {
      assert (" " + u)[1..] == u;
    }
  }

  lemma CommaRegroup(a: string, b: string, c: string)
    ensures a + (b + ", " + c) == (a + b) + [','] + (" " + c)
  {
    assert ", " == [','] + " ";
  }

  lemma EntriesCons(head: string, parts: seq<string>)
    requires Strip(head) != ""
    ensures Entries([head] + parts) == [Strip(head)] + Entries(parts)
  {
    assert ([head] + parts)[0] == head && ([head] + parts)[1..] == parts;
  }

  lemma PaddedCandidate(p: string, u: string)
    requires p == "" || p == " "
    requires IsCandidate(u)
    ensures Strip(p + u) == u && ',' !in p + u
  {
    StripCandidate(u);
    if p == "" {
      assert p + u == u;
    }
  }

  lemma SplitJoinStep(p: string, us: seq<string>)
    requires p == "" || p == " "
    requires |us| >= 2 && IsCandidate(us[0])
    ensures Split(p + Join(us, ", "), ',') == [p + us[0]] + Split(" " + Join(us[1..], ", "), ',')
  {
    PaddedCandidate(p, us[0]);
    assert Join(us, ", ") == us[0] + ", " + Join(us[1..], ", ");
    CommaRegroup(p, us[0], Join(us[1..], ", "));
    SplitCons(p + us[0], ',', " " + Join(us[1..], ", "));
  }

  lemma {:induction false} EntriesOfJoin(p: string, us: seq<string>)
    requires p == "" || p == " "
    requires us != [] && forall k :: 0 <= k < |us| ==> IsCandidate(us[k])
    ensures Entries(Split(p + Join(us, ", "), ',')) == us
    decreases |us|
  {
    PaddedCandidate(p, us[0]);
    if |us| == 1 {
      assert p + Join(us, ", ") == p + us[0];
      assert Split(p + us[0], ',') == [p + us[0]];
      EntriesCons(p + us[0], []);
    } else {
      SplitJoinStep(p, us);
      EntriesOfJoin(" ", us[1..]);
      EntriesCons(p + us[0], Split(" " + Join(us[1..], ", "), ','));
      assert [us[0]] + us[1..] == us;
    }
  }

  lemma EntriesOfJoined(us: seq<string>)
    requires forall k :: 0 <= k < |us| ==> IsCandidate(us[k])
    ensures Entries(Split(Join(us, ", "), ',')) == us
  {
    if us == [] {
      assert Split("", ',') == [""];
    } else {
      EntriesOfJoin("", us);
      assert "" + Join(us, ", ") == Join(us, ", ");
    }
  }

  /** Joining candidates with ", " and parsing the result gives them back. */
  lemma ParseSrcsetJoin(us: seq<string>)
    requires forall k :: 0 <= k < |us| ==> IsCandidate(us[k])
    ensures ParseSrcset(Join(us, ", ")) == us
  {
    EntriesOfJoined(us);
    var r := ParseSrcset(Join(us, ", "));
    assert |r| == |us|;
    forall k | 0 <= k < |us|
      ensures r[k] == us[k]
    {
      FirstTokenOfCandidate(us[k]);
    }
  }

  // ---------------------------------------------------------------------------
  // CSS `url(...)` and `@import`
  // ---------------------------------------------------------------------------

  /** The expression `url\(([^)]+)\)`, case-insensitive, at the start of `s`:
      the length of its group, the text up to the first ')', when that text is
      non-empty and a ')' follows it. */
  function UrlCallAt(s: string): (r: Option<nat>)
    ensures r.Some? ==> 0 < r.value && 4 + r.value < |s| && s[4 + r.value] == ')'
    ensures r.Some? ==> ')' !in s[4..4 + r.value]
  {
    if !HtmlCleaner.LitAt(s, "url(", true) then None
    else
      var k := IndexOf(s[4..], ')');
      if k == 0 || k == |s| - 4 then None
      else
        assert s[4..4 + k] == s[4..][..k];
        Some(k)
  }

  /** The groups of the `url(...)` matches, left to right, without overlap. */
  function UrlCalls(s: string): (r: seq<string>)
    ensures forall k :: 0 <= k < |r| ==> r[k] != "" && ')' !in r[k]
    decreases |s|
  {
    if s == [] then []
    else
      match UrlCallAt(s)
      case Some(k) => [s[4..4 + k]] + UrlCalls(s[5 + k..])
      case None => UrlCalls(s[1..])
  }

  const Quotes: set<char> := {'"', '\''}

  /** `group(1).strip().strip('"\'')`. */
  function Unquoted(group: string): string {
    StripSet(Strip(group), Quotes)
  }

  predicate IsDataUrl(u: string) {
    StartsWith(Lower(u), "data:")
  }

  /** The URLs that are not data URLs, in order. */
  function WithoutData(us: seq<string>): seq<string> {
    if us == [] then []
    else (if IsDataUrl(us[0]) then [] else [us[0]]) + WithoutData(us[1..])
  }

  /** The targets of the `url(...)` matches, data URLs skipped. */
  function UrlTargets(groups: seq<string>): seq<string> {
    WithoutData(seq(|groups|, k requires 0 <= k < |groups| => Unquoted(groups[k])))
  }

  /** A character of the `@import` group: not a quote, ')' or whitespace. */
  predicate IsImportChar(c: char) {
    c !in Quotes && c != ')' && !IsSpace(c)
  }

  function ImportRun(s: string): (n: nat)
    ensures n <= |s| && (n < |s| ==> !IsImportChar(s[n]))
    ensures forall i :: 0 <= i < n ==> IsImportChar(s[i])
  {
    if s != [] && IsImportChar(s[0]) then 1 + ImportRun(s[1..]) else 0
  }

  /** An optional quote at `q`, then the group: its start and length. */
  function GroupAfterQuote(s: string, q: nat): (r: Option<(nat, nat)>)
    requires q <= |s|
    ensures r.Some? ==> q <= r.value.0 && r.value.1 > 0 && r.value.0 + r.value.1 <= |s|
    ensures r.Some? ==> forall i :: r.value.0 <= i < r.value.0 + r.value.1 ==> IsImportChar(s[i])
  {
    if q < |s| && s[q] in Quotes && ImportRun(s[q + 1..]) > 0 then Some((q + 1, ImportRun(s[q + 1..])))
    else if ImportRun(s[q..]) > 0 then Some((q, ImportRun(s[q..])))
    else None
  }

  /** The expression `@import\s+(?:url\()?['"]?([^'")\s]+)`, case-insensitive, at
      the start of `s`: where its group starts and how long it is. The optional
      `url(` is tried first, as the backtracking matcher does. */
  function ImportAt(s: string): (r: Option<(nat, nat)>)
    ensures r.Some? ==> 7 < r.value.0 && r.value.1 > 0 && r.value.0 + r.value.1 <= |s|
    ensures r.Some? ==> forall i :: r.value.0 <= i < r.value.0 + r.value.1 ==> IsImportChar(s[i])
  {
    if !HtmlCleaner.LitAt(s, "@import", true) then None
    else
      var w := HtmlCleaner.SpaceRun(s[7..]);
      if w == 0 then None
      else
        var p := 7 + w;
        var viaUrl := if HtmlCleaner.LitAt(s[p..], "url(", true) then GroupAfterQuote(s, p + 4) else None;
        if viaUrl.Some? then viaUrl else GroupAfterQuote(s, p)
  }

  /** The groups of the `@import` matches, left to right, without overlap. */
  function Imports(s: string): (r: seq<string>)
    ensures forall k :: 0 <= k < |r| ==> r[k] != "" && forall i :: 0 <= i < |r[k]| ==> IsImportChar(r[k][i])
    decreases |s|
  {
    if s == [] then []
    else
      match ImportAt(s)
      case Some((b, n)) => [s[b..b + n]] + Imports(s[b + n..])
      case None => Imports(s[1..])
  }

  /** The `@import` targets that are kept: stripped, non-empty, not data URLs. */
  function ImportTargets(groups: seq<string>): seq<string> {
    if groups == [] then []
    else
      var raw := Strip(groups[0]);
      (if raw != "" && !IsDataUrl(raw) then [raw] else []) + ImportTargets(groups[1..])
  }

  /** `_extract_css_urls`: the `url(...)` targets, then the `@import` targets. */
  function ExtractCssUrls(css: string): seq<string> {
    UrlTargets(UrlCalls(css)) + ImportTargets(Imports(css))
  }

  lemma {:induction false} WithoutDataNotData(us: seq<string>)
    ensures forall k :: 0 <= k < |WithoutData(us)| ==> !IsDataUrl(WithoutData(us)[k])
    decreases |us|
  {
    if us != [] {
      WithoutDataNotData(us[1..]);
    }
  }

  lemma {:induction false} ImportTargetsKept(groups: seq<string>)
    ensures forall k :: 0 <= k < |ImportTargets(groups)| ==>
      ImportTargets(groups)[k] != "" && !IsDataUrl(ImportTargets(groups)[k])
    decreases |groups|
  {
    if groups != [] {
      ImportTargetsKept(groups[1..]);
    }
  }

  /** No URL `_extract_css_urls` yields starts with "data:" in any case. */
  lemma ExtractCssUrlsNotData(css: string)
    ensures forall k :: 0 <= k < |ExtractCssUrls(css)| ==> !IsDataUrl(ExtractCssUrls(css)[k])
  {
    var groups := UrlCalls(css);
    WithoutDataNotData(seq(|groups|, k requires 0 <= k < |groups| => Unquoted(groups[k])));
    ImportTargetsKept(Imports(css));
  }

  lemma {:induction false} WithoutDataOfClean(us: seq<string>)
    requires forall k :: 0 <= k < |us| ==> !IsDataUrl(us[k])
    ensures WithoutData(us) == us
    decreases |us|
  {
    if us != [] {
      WithoutDataOfClean(us[1..]);
      assert [us[0]] + us[1..] == us;
    }
  }

  /** `extract_css_dependencies` as written: it calls a helper that only the
      collector defines, so every call raises `AttributeError`. */
  function ExtractCssDependenciesAsWritten(css: string): (r: Result<seq<string>>)
    ensures r.Err? && r.error == "AttributeError"
  {
    Err("AttributeError")
  }

  /** `extract_css_dependencies` as evidently intended: the URLs of
      `_extract_css_urls` that are not data URLs. */
  function ExtractCssDependencies(css: string): seq<string> {
    WithoutData(ExtractCssUrls(css))
  }

  /** The extra data-URL filter of `extract_css_dependencies` drops nothing:
      the dependencies are exactly `_extract_css_urls`. */
  lemma ExtractCssDependenciesAll(css: string)
    ensures ExtractCssDependencies(css) == ExtractCssUrls(css)
  {
    ExtractCssUrlsNotData(css);
    WithoutDataOfClean(ExtractCssUrls(css));
  }

  lemma CallParts(x: string, rest: string)
    ensures var s := "url(" + x + ")" + rest;
      s[..4] == "url(" && s[4..] == x + (")" + rest) && s[4..4 + |x|] == x && s[5 + |x|..] == rest
  {
  }

  /** A `url(...)` call whose group is `x` (non-empty, without ')') is matched
      whole. */
  lemma UrlCallAtCall(x: string, rest: string)
    requires x != "" && ')' !in x
    ensures var s := "url(" + x + ")" + rest;
      UrlCallAt(s) == Some(|x|) && s[4..4 + |x|] == x && s[5 + |x|..] == rest
  {
    var s := "url(" + x + ")" + rest;
    CallParts(x, rest);
    assert Lower("url(") == "url(";
    IndexOfConcat(x, ")" + rest, ')');
  }

  lemma UrlCallsAt(css: string, g: string, rest: string)
    requires UrlCallAt(css) == Some(|g|) && css[4..4 + |g|] == g && css[5 + |g|..] == rest
    ensures UrlCalls(css) == [g] + UrlCalls(rest)
  {
  }

  /** A single `url(x)` call in front of the text yields `x` first. */
  lemma UrlCallsCall(x: string, rest: string)
    requires x != "" && ')' !in x
    ensures UrlCalls("url(" + x + ")" + rest) == [x] + UrlCalls(rest)
  {
    UrlCallAtCall(x, rest);
    UrlCallsAt("url(" + x + ")" + rest, x, rest);
  }

  // ---------------------------------------------------------------------------
  // Relative paths and `_rewrite_css_urls`
  // ---------------------------------------------------------------------------

  /** `os.path.relpath(path, start)` for the paths the pipeline produces: a path
      under `start` loses the directory prefix, `start` itself becomes ".", and
      any other path is kept as it is. */
  function RelPath(path: string, start: string): string {
    var d := Paths.DirPrefix(start);
    if path == start || path == d then "."
    else if StartsWith(path, d) then path[|d|..]
    else path
  }

  /** A relative part joined under a directory comes back relative to it. */
  lemma RelPathOfJoin(start: string, rel: string)
    requires rel != "" && rel[0] != '/'
    ensures RelPath(Paths.Join(start, rel), start) == rel
  {
    assert !StartsWith(rel, "/");
    Paths.JoinRelative(start, rel);
    var d := Paths.DirPrefix(start);
    var p := d + rel;
    assert p[..|d|] == d && p[|d|..] == rel;
    assert |p| > |d|;
    assert p != start by {
      if d != start {
        assert |d| == |start| + 1;
        assert |p| > |start|;
      }
    }
  }

  /** `_rewrite_css_urls`: `re.sub` of `url\(([^)]+)\)` where a match whose
      target is a mapped URL becomes `url(<relative path>)`; other matches and
      the text between matches are kept. */
  function RewriteCssUrls(css: string, mapping: map<string, string>, htmlDir: string): string
    decreases |css|
  {
    if css == [] then []
    else
      match UrlCallAt(css)
      case Some(k) =>
        var raw := Unquoted(css[4..4 + k]);
        (if raw in mapping then "url(" + RelPath(mapping[raw], htmlDir) + ")" else css[..5 + k])
          + RewriteCssUrls(css[5 + k..], mapping, htmlDir)
      case None => [css[0]] + RewriteCssUrls(css[1..], mapping, htmlDir)
  }

  /** No `url(...)` target of the text is a mapped URL. */
  predicate NoneMapped(groups: seq<string>, mapping: map<string, string>) {
    forall k :: 0 <= k < |groups| ==> Unquoted(groups[k]) !in mapping
  }

  lemma SliceJoin(s: string, i: nat)
    requires i <= |s|
    ensures s[..i] + s[i..] == s
  {
  }

  lemma NoneMappedTail(groups: seq<string>, mapping: map<string, string>)
    requires groups != [] && NoneMapped(groups, mapping)
    ensures NoneMapped(groups[1..], mapping) && Unquoted(groups[0]) !in mapping
  {
    assert forall j :: 0 <= j < |groups[1..]| ==> groups[1..][j] == groups[j + 1];
  }

  /** A text none of whose `url(...)` targets is mapped is left as it is. */
  lemma {:induction false} RewriteUnmapped(css: string, mapping: map<string, string>, htmlDir: string)
    requires NoneMapped(UrlCalls(css), mapping)
    ensures RewriteCssUrls(css, mapping, htmlDir) == css
    decreases |css|
  {
    if css != [] {
      match UrlCallAt(css)
      case Some(k) =>
        var groups := UrlCalls(css);
        assert groups == [css[4..4 + k]] + UrlCalls(css[5 + k..]);
        NoneMappedTail(groups, mapping);
        assert groups[1..] == UrlCalls(css[5 + k..]);
        RewriteUnmapped(css[5 + k..], mapping, htmlDir);
        SliceJoin(css, 5 + k);
      case None =>
        RewriteUnmapped(css[1..], mapping, htmlDir);
        SliceJoin(css, 1);
        assert css[..1] == [css[0]];
    }
  }

  lemma RewriteMappedAt(css: string, g: string, rest: string, mapping: map<string, string>, htmlDir: string)
    requires UrlCallAt(css) == Some(|g|) && css[4..4 + |g|] == g && css[5 + |g|..] == rest
    requires Unquoted(g) in mapping
    ensures RewriteCssUrls(css, mapping, htmlDir)
      == "url(" + RelPath(mapping[Unquoted(g)], htmlDir) + ")" + RewriteCssUrls(rest, mapping, htmlDir)
  {
  }

  /** A `url(x)` call whose target is mapped becomes a call on the relative path
      of the local copy. */
  lemma RewriteMappedCall(x: string, rest: string, mapping: map<string, string>, htmlDir: string)
    requires x != "" && ')' !in x && Unquoted(x) in mapping
    ensures RewriteCssUrls("url(" + x + ")" + rest, mapping, htmlDir)
      == "url(" + RelPath(mapping[Unquoted(x)], htmlDir) + ")" + RewriteCssUrls(rest, mapping, htmlDir)
  {
    UrlCallAtCall(x, rest);
    RewriteMappedAt("url(" + x + ")" + rest, x, rest, mapping, htmlDir);
  }

  // ---------------------------------------------------------------------------
  // `AssetDownloader`
  // ---------------------------------------------------------------------------

  /** `_wayback_url`: the asset's capture at `timestamp` in the archive's
      "if_" mode, which serves the original bytes. */
  function WaybackAssetUrl(assetUrl: string, timestamp: string): (r: string)
    ensures r == CdxClient.WaybackUrl(timestamp + "if_", assetUrl)
  {
    "https://web.archive.org/web/" + timestamp + "if_/" + assetUrl
  }

  /** The cleaner's archived-URL rewrite turns the capture URL of an asset back
      into the asset's own URL. */
  lemma CleanRestoresAssetUrl(assetUrl: string, timestamp: string, baseDomain: string)
    requires timestamp != [] && forall i :: 0 <= i < |timestamp| ==> IsAsciiDigit(timestamp[i])
    requires StartsWith(assetUrl, "http://") || StartsWith(assetUrl, "https://")
    requires HtmlCleaner.NoArchivePrefix(assetUrl)
    ensures HtmlCleaner.CleanArchivedUrl(WaybackAssetUrl(assetUrl, timestamp), baseDomain) == assetUrl
  {
    var flag := "if_";
    assert forall i :: 0 <= i < |flag| ==> HtmlCleaner.IsWordChar(flag[i], false);
    HtmlCleaner.CleanUndoesCapture(timestamp, flag, assetUrl, baseDomain);
  }

  /** The local name of an asset whose URL has path `path`: the path, with
      "index" appended when it is empty or ends in '/', without leading '/'. */
  function LocalPath(path: string): (r: string)
    ensures r != "" && r[0] != '/' && r[|r| - 1] != '/'
  {
    var p := if path == "" || EndsWith(path, "/") then Paths.Join(path, "index") else path;
    assert p != "" && p[|p| - 1] != '/';
    LStrip(p, {'/'})
  }

  /** `_local_name`: the query and fragment play no part; a URL that does not
      parse raises, as `urlparse` does. */
  function LocalName(url: string): (r: Result<string>)
    ensures r.Ok? ==> r.value != "" && r.value[0] != '/'
  {
    match Url.ParseUrl(url, "")
    case Err(e) => Err(e)
    case Ok(parts) => Ok(LocalPath(parts.path))
  }

  /** The path of an asset's file is the destination directory's prefix
      followed by its local name, which is relative. The local name may hold
      ".." segments (`LocalNameClimbs`), so this is a statement about the text
      of the path, not containment in the directory. */
  lemma LocalNameUnderDest(destDir: string, url: string)
    requires LocalName(url).Ok?
    ensures Paths.Join(destDir, LocalName(url).value) == Paths.DirPrefix(destDir) + LocalName(url).value
  {
    var r := LocalName(url).value;
    assert !StartsWith(r, "/") by {
      assert r[..1][0] == r[0];
    }
    Paths.JoinRelative(destDir, r);
  }

  /** `urlparse` keeps ".." segments in the path, so a local name can climb out
      of the destination directory: an asset at "http://<host>/../<rest>" is
      saved as "../<rest>" under it ("http://h/../../x" as "../../x"). */
  lemma LocalNameClimbs(netloc: string, rest: string)
    requires NoneOf(netloc, Url.NetlocEnd + Url.Unsafe) && '[' !in netloc && ']' !in netloc
    requires rest != "" && rest[|rest| - 1] != '/' && NoneOf(rest, {'?', '#', ';'} + Url.Unsafe)
    ensures LocalName("http://" + netloc + "/../" + rest) == Ok("../" + rest)
  {
    ClimbParse(netloc, rest);
    ClimbPath(rest);
  }

  lemma ClimbParse(netloc: string, rest: string)
    requires NoneOf(netloc, Url.NetlocEnd + Url.Unsafe) && '[' !in netloc && ']' !in netloc
    requires NoneOf(rest, {'?', '#', ';'} + Url.Unsafe)
    ensures Url.ParseUrl("http://" + netloc + "/../" + rest, "") == Ok(Url.Parts("http", netloc, "/../" + rest, "", "", ""))
  {
    var path := "/../" + rest;
    NoneOfAppend("/../", rest, {'?', '#', ';'} + Url.Unsafe);
    var url := "http" + ":" + ("//" + netloc + path + Url.QueryPart("") + Url.FragmentPart(""));
    assert url == "http://" + netloc + "/../" + rest;
    assert NoneOf(url, Url.Unsafe) by {
      NoneOfAppend("http://", netloc, Url.Unsafe);
      NoneOfAppend("http://" + netloc, path, Url.Unsafe);
      assert url == "http://" + netloc + path;
    }
    Url.SplitUrlOf("http", netloc, path, "", "");
    assert ';' !in path;
  }

  lemma ClimbPath(rest: string)
    requires rest != "" && rest[|rest| - 1] != '/'
    ensures LocalPath("/../" + rest) == "../" + rest
  {
    var path := "/../" + rest;
    assert !EndsWith(path, "/") by {
      assert path[|path| - 1] == rest[|rest| - 1];
    }
    StripClimb(rest);
  }

  lemma StripClimb(rest: string)
    ensures LStrip("/../" + rest, {'/'}) == "../" + rest
  {
    var tail := "../" + rest;
    assert ("/" + tail)[1..] == tail;
    StripStep("/", tail);
    StripStop(tail);
  }

  lemma StripStep(sep: string, tail: string)
    requires sep == "/"
    ensures LStrip(sep + tail, {'/'}) == LStrip(tail, {'/'})
  {
    assert (sep + tail)[0] == '/' && (sep + tail)[1..] == tail;
  }

  lemma StripStop(s: string)
    requires s != [] && s[0] == '.'
    ensures LStrip(s, {'/'}) == s
  {
  }

  // ---------------------------------------------------------------------------
  // Assets and the file store
  // ---------------------------------------------------------------------------

  datatype Kind = Image | Stylesheet

  /** The attribute an asset's URL came from; `Css` marks a dependency found in
      a downloaded stylesheet. */
  datatype Source = Src | Srcset | Href | Style | Css

  /** `Asset`, without the local path and content fields, which the pipeline
      never fills in. */
  datatype Asset = Asset(url: string, kind: Kind, source: Source)

  /** The files on disk, by path. */
  class Store {
    var files: map<string, seq<Codec.byte>>

    constructor(files: map<string, seq<Codec.byte>>)
      ensures this.files == files
    {
      this.files := files;
    }
  }
}
