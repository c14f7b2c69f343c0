/** Output naming of the file manager: the file name derived from a page URL and
    capture timestamp, the HTML and PDF paths built from it, the existence query
    over those paths, HTML escaping and the timestamp shown in the index page. */
module FileManager {
  import opened Strings
  import opened Wrappers
  import opened Url
  import Paths

  /** The longest file name `generate_filename` returns. */
  const MaxNameLength: nat := 200

  /** The characters `[\w\-_.]` keeps (ASCII word characters, '-' and '.'). */
  predicate IsNameChar(c: char) {
    IsAsciiAlnum(c) || c == '_' || c == '-' || c == '.'
  }

  /** `re.sub(r'[^\w\-_.]', '_', s)`: every other character becomes '_'. */
  function ReplaceUnsafe(s: string): (r: string)
    ensures |r| == |s|
    ensures forall k :: 0 <= k < |r| ==> IsNameChar(r[k]) && (r[k] == s[k] || r[k] == '_')
  {
    seq(|s|, k requires 0 <= k < |s| => if IsNameChar(s[k]) then s[k] else '_')
  }

  /** `re.sub(r'_+', '_', s)`: every run of '_' becomes a single '_'. */
  function Collapse(s: string): (r: string)
    ensures |r| <= |s|
    decreases |s|
  {
    if |s| < 2 then s
    else if s[0] == '_' && s[1] == '_' then Collapse(s[1..])
    else [s[0]] + Collapse(s[1..])
  }

  /** No two '_' in a row. */
  predicate NoDoubleUnderscore(s: string) {
    forall k :: 0 <= k < |s| - 1 ==> !(s[k] == '_' && s[k + 1] == '_')
  }

  predicate AllNameChars(s: string) {
    forall k :: 0 <= k < |s| ==> IsNameChar(s[k])
  }

  /** What the three cleaning steps promise about the base name: only the kept
      characters, no run of '_', and no '_' at either end. */
  predicate CleanName(s: string) {
    AllNameChars(s) && NoDoubleUnderscore(s) && (s == [] || (s[0] != '_' && s[|s| - 1] != '_'))
  }

  lemma {:induction false} CollapseFirst(s: string)
    requires s != []
    ensures Collapse(s) != [] && Collapse(s)[0] == s[0]
    decreases |s|
  {
    if |s| >= 2 && s[0] == '_' && s[1] == '_' {
      CollapseFirst(s[1..]);
    }
  }

  lemma {:induction false} CollapseNoDouble(s: string)
    ensures NoDoubleUnderscore(Collapse(s))
    decreases |s|
  {
    if |s| >= 2 {
      CollapseNoDouble(s[1..]);
      if !(s[0] == '_' && s[1] == '_') {
        CollapseFirst(s[1..]);
        var r := Collapse(s[1..]);
        assert Collapse(s) == [s[0]] + r;
      }
    }
  }

  lemma {:induction false} CollapseNameChars(s: string)
    requires AllNameChars(s)
    ensures AllNameChars(Collapse(s))
    decreases |s|
  {
    if |s| >= 2 {
      CollapseNameChars(s[1..]);
    }
  }

  /** Collapsing removes underscores only: the other characters stay, in order. */
  lemma {:induction false} CollapseKeepsOthers(s: string)
    ensures Without(Collapse(s), {'_'}) == Without(s, {'_'})
    decreases |s|
  {
    if |s| >= 2 {
      CollapseKeepsOthers(s[1..]);
      assert s == [s[0]] + s[1..];
      WithoutAppend([s[0]], s[1..], {'_'});
      if !(s[0] == '_' && s[1] == '_') {
        WithoutAppend([s[0]], Collapse(s[1..]), {'_'});
      }
    }
  }

  /** `s.strip('_')` after the first two steps. */
  function CleanBase(s: string): string {
    StripSet(Collapse(ReplaceUnsafe(s)), {'_'})
  }

  /** A stripped slice keeps the absence of "__" and the kept characters. */
  lemma SliceClean(s: string, i: nat, j: nat)
    requires i <= j <= |s| && AllNameChars(s) && NoDoubleUnderscore(s)
    ensures AllNameChars(s[i..j]) && NoDoubleUnderscore(s[i..j])
  {
    var t := s[i..j];
    forall k | 0 <= k < |t| - 1
      ensures !(t[k] == '_' && t[k + 1] == '_')
    {
      assert t[k] == s[i + k] && t[k + 1] == s[i + k + 1];
    }
  }

  /** The base name is clean. */
  lemma CleanBaseClean(s: string)
    ensures CleanName(CleanBase(s))
  {
    var c := Collapse(ReplaceUnsafe(s));
    CollapseNoDouble(ReplaceUnsafe(s));
    CollapseNameChars(ReplaceUnsafe(s));
    var l := LStrip(c, {'_'});
    SliceClean(c, |c| - |l|, |c|);
    var r := RStrip(l, {'_'});
    SliceClean(l, 0, |r|);
  }

  /** Text made of '_' only. */
  predicate AllUnderscores(s: string) {
    forall k :: 0 <= k < |s| ==> s[k] == '_'
  }

  lemma {:induction false} WithoutUnderscores(s: string)
    requires AllUnderscores(s)
    ensures Without(s, {'_'}) == ""
    decreases |s|
  {
    if |s| > 0 {
      WithoutUnderscores(s[1..]);
    }
  }

  /** Stripping '_' from the front loses underscores only. */
  lemma LStripKeepsOthers(c: string)
    ensures Without(LStrip(c, {'_'}), {'_'}) == Without(c, {'_'})
  {
    var l := LStrip(c, {'_'});
    var n := |c| - |l|;
    var front := c[..n];
    assert c == front + c[n..];
    forall k | 0 <= k < |front|
      ensures front[k] == '_'
    {
      assert front[k] == c[k] && c[k] in {'_'};
    }
    WithoutAppend(front, l, {'_'});
    WithoutUnderscores(front);
  }

  /** Stripping '_' from the back loses underscores only. */
  lemma RStripKeepsOthers(l: string)
    ensures Without(RStrip(l, {'_'}), {'_'}) == Without(l, {'_'})
  {
    var r := RStrip(l, {'_'});
    var back := l[|r|..];
    assert l == r + back;
    assert AllUnderscores(back);
    WithoutAppend(r, back, {'_'});
    WithoutUnderscores(back);
  }

  /** Cleaning drops underscores only: apart from '_', the base name holds the
      input with unsafe characters replaced, in order. */
  lemma CleanBaseKeepsOthers(s: string)
    ensures Without(CleanBase(s), {'_'}) == Without(ReplaceUnsafe(s), {'_'})
  {
    var c := Collapse(ReplaceUnsafe(s));
    CollapseKeepsOthers(ReplaceUnsafe(s));
    LStripKeepsOthers(c);
    RStripKeepsOthers(LStrip(c, {'_'}));
  }

  /** The readable timestamp appended to the name: `_YYYYMMDD_HHMMSS` from the first
      fourteen characters, nothing for an absent or shorter timestamp. (The source's
      `except` branch cannot be reached: slicing never raises.) */
  function TimestampSuffix(ts: string): (r: string)
    ensures |ts| >= 14 ==> |r| == 16
    ensures |ts| < 14 ==> r == ""
  {
    if ts != "" && |ts| >= 14 then "_" + ts[..8] + "_" + ts[8..14] else ""
  }

  /** The first `n` characters (`s[:n]`). */
  function Truncate(s: string, n: nat): (r: string)
    ensures |r| <= n && StartsWith(s, r)
    ensures |s| <= n ==> r == s
    ensures |s| > n ==> |r| == n
  {
    if |s| > n then s[..n] else s
  }

  /** The domain part: the network location with every "www." removed. */
  function DomainPart(netloc: string): string {
    ReplaceAll(netloc, "www.", "")
  }

  /** The path part: the path without surrounding '/', or "index" when nothing is
      left. */
  function PathPart(path: string): (r: string)
    ensures r != ""
    ensures r != "index" ==> r[0] != '/' && r[|r| - 1] != '/'
  {
    var p := StripSet(path, {'/'});
    if p == "" then "index" else p
  }

  /** The cleaned `domain_path` text before the timestamp. */
  function NameBase(p: Parts): string {
    CleanBase(DomainPart(p.netloc) + "_" + PathPart(p.path))
  }

  /** The file name for the parts of a parsed URL and a timestamp. */
  function FileName(p: Parts, ts: string): (r: string)
    ensures |r| <= MaxNameLength
  {
    Truncate(NameBase(p) + TimestampSuffix(ts), MaxNameLength)
  }

  /** `generate_filename`; `urlparse` raising becomes an error. An absent timestamp
      is the empty text (both are false in the source). */
  function GenerateFilename(url: string, ts: string): (r: Result<string>)
    ensures r.Err? <==> ParseUrl(url, "").Err?
    ensures r.Ok? ==> |r.value| <= MaxNameLength
  {
    match ParseUrl(url, "")
    case Err(e) => Err(e)
    case Ok(p) => Ok(FileName(p, ts))
  }

  /** A prefix of a clean name keeps the allowed characters, has no run of '_' and
      does not begin with '_'; the whole name is clean when nothing is cut. */
  lemma TruncateClean(b: string, n: nat)
    requires CleanName(b)
    ensures var r := Truncate(b, n);
      AllNameChars(r) && NoDoubleUnderscore(r) && (r == [] || r[0] != '_')
      && (|b| <= n ==> CleanName(r))
  {
    if |b| > n {
      SliceClean(b, 0, n);
      if n > 0 {
        assert b[..n][0] == b[0];
      }
    }
  }

  /** Without a timestamp the name uses the allowed characters only, with no run of
      '_' and no leading '_'; a name shorter than the limit is wholly clean. */
  lemma UnstampedNameClean(p: Parts)
    ensures var r := FileName(p, "");
      AllNameChars(r) && NoDoubleUnderscore(r) && (r == [] || r[0] != '_')
      && (|r| < MaxNameLength ==> CleanName(r))
  {
    var b := NameBase(p);
    CleanBaseClean(DomainPart(p.netloc) + "_" + PathPart(p.path));
    assert b + TimestampSuffix("") == b;
    TruncateClean(b, MaxNameLength);
  }

  /** A timestamp of at least fourteen characters appends `_` + its first eight
      characters + `_` + the next six, as long as the result fits. */
  lemma StampedName(p: Parts, ts: string)
    requires |ts| >= 14 && |FileName(p, "")| + 16 <= MaxNameLength
    ensures FileName(p, ts) == FileName(p, "") + "_" + ts[..8] + "_" + ts[8..14]
  {
    var b := NameBase(p);
    assert b + TimestampSuffix("") == b;
    assert FileName(p, "") == b;
    var suffix := TimestampSuffix(ts);
    assert suffix == "_" + ts[..8] + "_" + ts[8..14];
    assert FileName(p, ts) == b + suffix;
  }

  /** A shorter timestamp changes nothing. */
  lemma ShortTimestampIgnored(p: Parts, ts: string)
    requires |ts| < 14
    ensures FileName(p, ts) == FileName(p, "")
  {
  }

  /** A name too long is cut to exactly the limit, keeping its beginning. */
  lemma LongNameCut(p: Parts, ts: string)
    requires |NameBase(p) + TimestampSuffix(ts)| > MaxNameLength
    ensures |FileName(p, ts)| == MaxNameLength
    ensures FileName(p, ts) == (NameBase(p) + TimestampSuffix(ts))[..MaxNameLength]
  {
  }

  /** A leading "www." is removed from the domain. */
  lemma LeadingWwwRemoved(h: string)
    requires !Contains(h, "www.")
    ensures DomainPart("www." + h) == h
  {
    var t := "www." + h;
    assert StartsWith(t, "www.") && t[4..] == h;
    ReplaceAllAbsent(h, "www.", "");
  }

  /** So is one further in: every "www." goes, not only a leading one. */
  lemma InnerWwwRemoved(a: string, b: string)
    requires 'w' !in a && !Contains(b, "www.")
    ensures DomainPart(a + "www." + b) == a + b
  {
    assert a + "www." + b == a + ("www." + b);
    ReplaceAllAbsentPrefix(a, "www." + b);
    LeadingWwwRemoved(b);
  }

  /** `ReplaceAll` passes over a prefix that holds no 'w', the first letter of the
      pattern. */
  lemma {:induction false} ReplaceAllAbsentPrefix(a: string, t: string)
    requires 'w' !in a
    ensures ReplaceAll(a + t, "www.", "") == a + ReplaceAll(t, "www.", "")
    decreases |a|
  {
    if |a| > 0 {
      assert (a + t)[0] == a[0] != 'w';
      assert !StartsWith(a + t, "www.");
      assert (a + t)[1..] == a[1..] + t;
      ReplaceAllAbsentPrefix(a[1..], t);
    } else {
      assert a + t == t;
    }
  }

  /** The HTML and PDF paths for a file name: `<html_dir>/<name>.html` and
      `<pdf_dir>/<name>.pdf`. */
  function PathsFor(htmlDir: string, pdfDir: string, name: string): (string, string) {
    (Paths.Join(htmlDir, name + ".html"), Paths.Join(pdfDir, name + ".pdf"))
  }

  /** `get_file_paths`. */
  function GetFilePaths(htmlDir: string, pdfDir: string, url: string, ts: string): (r: Result<(string, string)>)
    ensures r.Ok? <==> GenerateFilename(url, ts).Ok?
  {
    match GenerateFilename(url, ts)
    case Err(e) => Err(e)
    case Ok(name) => Ok(PathsFor(htmlDir, pdfDir, name))
  }

  /** A name that does not begin with '/', followed by an extension, is relative. */
  lemma NotAbsolute(name: string, ext: string)
    requires ext != "" && ext[0] == '.'
    requires name == [] || name[0] != '/'
    ensures !StartsWith(name + ext, "/")
  {
    assert (name + ext)[0] == (if name == [] then ext[0] else name[0]);
  }

  /** The HTML path is the name with ".html" in the HTML directory, the PDF path the
      same name with ".pdf" in the PDF directory. */
  lemma FilePathsShareName(htmlDir: string, pdfDir: string, name: string)
    requires name == [] || name[0] != '/'
    ensures PathsFor(htmlDir, pdfDir, name) == (Paths.DirPrefix(htmlDir) + (name + ".html"), Paths.DirPrefix(pdfDir) + (name + ".pdf"))
  {
    NotAbsolute(name, ".html");
    NotAbsolute(name, ".pdf");
    Paths.JoinRelative(htmlDir, name + ".html");
    Paths.JoinRelative(pdfDir, name + ".pdf");
  }

  /** A clean base followed by a suffix that is empty or begins with '_' never
      begins with '/', however it is cut. */
  lemma CutNotAbsolute(b: string, suffix: string, n: nat)
    requires CleanName(b) && (suffix == [] || suffix[0] == '_')
    ensures var r := Truncate(b + suffix, n); r == [] || r[0] != '/'
  {
    var full := b + suffix;
    if full != [] && n > 0 {
      assert full[0] == (if b != [] then b[0] else suffix[0]);
      assert Truncate(full, n)[0] == full[0];
    }
  }

  /** A generated name never begins with '/': its first character is an allowed
      name character or the '_' of the timestamp suffix. */
  lemma NameRelative(p: Parts, ts: string)
    ensures var r := FileName(p, ts); r == [] || r[0] != '/'
  {
    CleanBaseClean(DomainPart(p.netloc) + "_" + PathPart(p.path));
    CutNotAbsolute(NameBase(p), TimestampSuffix(ts), MaxNameLength);
  }

  /** `get_file_paths` puts the generated name, with ".html" and ".pdf", directly
      under the HTML and the PDF directory. */
  lemma FilePathsOfUrl(htmlDir: string, pdfDir: string, url: string, ts: string)
    requires GetFilePaths(htmlDir, pdfDir, url, ts).Ok?
    ensures var name := GenerateFilename(url, ts).value;
      GetFilePaths(htmlDir, pdfDir, url, ts).value
        == (Paths.DirPrefix(htmlDir) + (name + ".html"), Paths.DirPrefix(pdfDir) + (name + ".pdf"))
  {
    NameRelative(ParseUrl(url, "").value, ts);
    FilePathsShareName(htmlDir, pdfDir, GenerateFilename(url, ts).value);
  }

  /** The two keys of the report differ. */
  lemma ReportKeysDiffer()
    ensures "html" != "pdf"
  {
    assert "html"[0] != "pdf"[0];
  }

  /** The entries for the two paths: "html" when asked for, "pdf" when asked
      for, each telling whether its path is in the set of existing paths. */
  function Report(paths: (string, string), wantHtml: bool, wantPdf: bool, existing: set<string>): (r: map<string, bool>)
    ensures "html" in r <==> wantHtml
    ensures "pdf" in r <==> wantPdf
    ensures r.Keys <= {"html", "pdf"}
    ensures "html" in r ==> r["html"] == (paths.0 in existing)
    ensures "pdf" in r ==> r["pdf"] == (paths.1 in existing)
  {
    ReportKeysDiffer();
    var withHtml := if wantHtml then map["html" := paths.0 in existing] else map[];
    if wantPdf then withHtml["pdf" := paths.1 in existing] else withHtml
  }

  /** Which of the two files `file_exists` reports, and whether each is in the set
      of existing paths. Any other kind gives no entry. */
  function FileExists(htmlDir: string, pdfDir: string, url: string, ts: string, kind: string, existing: set<string>): (r: Result<map<string, bool>>)
    ensures r.Ok? <==> GenerateFilename(url, ts).Ok?
    ensures r.Ok? ==> ("html" in r.value <==> kind == "html" || kind == "both")
    ensures r.Ok? ==> ("pdf" in r.value <==> kind == "pdf" || kind == "both")
    ensures r.Ok? ==> r.value.Keys <= {"html", "pdf"}
    ensures r.Ok? && "html" in r.value ==> r.value["html"] == (GetFilePaths(htmlDir, pdfDir, url, ts).value.0 in existing)
    ensures r.Ok? && "pdf" in r.value ==> r.value["pdf"] == (GetFilePaths(htmlDir, pdfDir, url, ts).value.1 in existing)
  {
    match GetFilePaths(htmlDir, pdfDir, url, ts)
    case Err(e) => Err(e)
    case Ok(paths) => Ok(Report(paths, kind == "html" || kind == "both", kind == "pdf" || kind == "both", existing))
  }

  /** The entity `_escape_html` writes for one character. */
  function EscapeChar(c: char): string {
    match c
    case '&' => "&amp;"
    case '<' => "&lt;"
    case '>' => "&gt;"
    case '"' => "&quot;"
    case '\'' => "&#x27;"
    case _ => [c]
  }

  /** Character by character escaping. */
  function EscapeEach(s: string): string
    decreases |s|
  {
    if s == [] then "" else EscapeChar(s[0]) + EscapeEach(s[1..])
  }

  /** `_escape_html`: five successive replacements, '&' first. */
  function EscapeHtml(text: string): string {
    ReplaceAll(ReplaceAll(ReplaceAll(ReplaceAll(ReplaceAll(text, "&", "&amp;"), "<", "&lt;"), ">", "&gt;"), "\"", "&quot;"), "'", "&#x27;")
  }

  /** The five replacements as character maps. */
  function EscapeMaps(s: string): string {
    MapChar(MapChar(MapChar(MapChar(MapChar(s, '&', "&amp;"), '<', "&lt;"), '>', "&gt;"), '"', "&quot;"), '\'', "&#x27;")
  }

  lemma EscapeHtmlIsMaps(s: string)
    ensures EscapeHtml(s) == EscapeMaps(s)
  {
    ReplaceCharIsMap(s, '&', "&amp;");
    var s1 := MapChar(s, '&', "&amp;");
    ReplaceCharIsMap(s1, '<', "&lt;");
    var s2 := MapChar(s1, '<', "&lt;");
    ReplaceCharIsMap(s2, '>', "&gt;");
    var s3 := MapChar(s2, '>', "&gt;");
    ReplaceCharIsMap(s3, '"', "&quot;");
    var s4 := MapChar(s3, '"', "&quot;");
    ReplaceCharIsMap(s4, '\'', "&#x27;");
  }

  /** The chain of maps distributes over concatenation. */
  lemma EscapeMapsAppend(a: string, b: string)
    ensures EscapeMaps(a + b) == EscapeMaps(a) + EscapeMaps(b)
  {
    MapCharAppend(a, b, '&', "&amp;");
    var a1, b1 := MapChar(a, '&', "&amp;"), MapChar(b, '&', "&amp;");
    MapCharAppend(a1, b1, '<', "&lt;");
    var a2, b2 := MapChar(a1, '<', "&lt;"), MapChar(b1, '<', "&lt;");
    MapCharAppend(a2, b2, '>', "&gt;");
    var a3, b3 := MapChar(a2, '>', "&gt;"), MapChar(b2, '>', "&gt;");
    MapCharAppend(a3, b3, '"', "&quot;");
    var a4, b4 := MapChar(a3, '"', "&quot;"), MapChar(b3, '"', "&quot;");
    MapCharAppend(a4, b4, '\'', "&#x27;");
  }

  lemma MapCharSingle(c: char, d: char, to: string)
    ensures MapChar([c], d, to) == if c == d then to else [c]
  {
    assert [c][1..] == [];
  }

  /** On one character the chain of maps writes that character's entity: no later
      replacement touches what an earlier one wrote. */
  lemma EscapeMapsChar(c: char)
    ensures EscapeMaps([c]) == EscapeChar(c)
  {
    if c == '&' {
      EscapeAmp();
    } else if c == '<' {
      EscapeLt();
    } else if c == '>' {
      EscapeGt();
    } else if c == '"' {
      EscapeQuot();
    } else if c == '\'' {
      EscapeApos();
    } else {
      EscapeOther(c);
    }
  }

  lemma EscapeAmp()
    ensures EscapeMaps("&") == "&amp;"
  {
    MapCharSingle('&', '&', "&amp;");
    AmpKeptByTags();
    AmpKeptByQuotes();
  }

  lemma AmpKeptByTags()
    ensures MapChar(MapChar("&amp;", '<', "&lt;"), '>', "&gt;") == "&amp;"
  {
    assert MapChar("&amp;", '<', "&lt;") == "&amp;";
  }

  lemma AmpKeptByQuotes()
    ensures MapChar(MapChar("&amp;", '"', "&quot;"), '\'', "&#x27;") == "&amp;"
  {
    assert MapChar("&amp;", '"', "&quot;") == "&amp;";
  }

  lemma EscapeLt()
    ensures EscapeMaps("<") == "&lt;"
  {
    MapCharSingle('<', '&', "&amp;");
    MapCharSingle('<', '<', "&lt;");
    LastMapsKeep("&lt;");
  }

  /** The last three maps leave text without '>' and quotes alone. */
  lemma LastMapsKeep(s: string)
    requires '>' !in s && '"' !in s && '\'' !in s
    ensures MapChar(MapChar(MapChar(s, '>', "&gt;"), '"', "&quot;"), '\'', "&#x27;") == s
  {
    MapCharAbsent(s, '>', "&gt;");
    MapCharAbsent(s, '"', "&quot;");
    MapCharAbsent(s, '\'', "&#x27;");
  }

  lemma EscapeGt()
    ensures EscapeMaps(">") == "&gt;"
  {
    MapCharSingle('>', '&', "&amp;");
    MapCharSingle('>', '<', "&lt;");
    MapCharSingle('>', '>', "&gt;");
    MapCharAbsent("&gt;", '"', "&quot;");
    MapCharAbsent("&gt;", '\'', "&#x27;");
  }

  lemma EscapeQuot()
    ensures EscapeMaps("\"") == "&quot;"
  {
    MapCharSingle('"', '&', "&amp;");
    MapCharSingle('"', '<', "&lt;");
    MapCharSingle('"', '>', "&gt;");
    MapCharSingle('"', '"', "&quot;");
    MapCharAbsent("&quot;", '\'', "&#x27;");
  }

  lemma EscapeApos()
    ensures EscapeMaps("'") == "&#x27;"
  {
    MapCharSingle('\'', '&', "&amp;");
    MapCharSingle('\'', '<', "&lt;");
    MapCharSingle('\'', '>', "&gt;");
    MapCharSingle('\'', '"', "&quot;");
    MapCharSingle('\'', '\'', "&#x27;");
  }

  lemma EscapeOther(c: char)
    requires !Special(c)
    ensures EscapeMaps([c]) == [c]
  {
    MapCharSingle(c, '&', "&amp;");
    MapCharSingle(c, '<', "&lt;");
    MapCharSingle(c, '>', "&gt;");
    MapCharSingle(c, '"', "&quot;");
    MapCharSingle(c, '\'', "&#x27;");
  }

  /** `_escape_html` escapes each character independently. */
  lemma {:induction false} EscapeHtmlEach(s: string)
    ensures EscapeHtml(s) == EscapeEach(s)
    decreases |s|
  {
    EscapeHtmlIsMaps(s);
    if s != [] {
      assert s == [s[0]] + s[1..];
      EscapeMapsAppend([s[0]], s[1..]);
      EscapeMapsChar(s[0]);
      EscapeHtmlEach(s[1..]);
      EscapeHtmlIsMaps(s[1..]);
    }
  }

  /** The five characters the escaping rewrites. */
  predicate Special(c: char) {
    c == '&' || c == '<' || c == '>' || c == '"' || c == '\''
  }

  /** Escaped text holds no raw '<', '>', '"' or '\''. */
  lemma {:induction false} EscapedHasNoMarkup(s: string)
    ensures forall k :: 0 <= k < |EscapeEach(s)| ==> !Special(EscapeEach(s)[k]) || EscapeEach(s)[k] == '&'
    decreases |s|
  {
    if s != [] {
      EscapedHasNoMarkup(s[1..]);
      var head := EscapeChar(s[0]);
      assert forall k :: 0 <= k < |head| ==> !Special(head[k]) || head[k] == '&';
    }
  }

  /** Decoding the five entities, left to right. */
  function Unescape(s: string): string
    decreases |s|
  {
    if s == [] then ""
    else if StartsWith(s, "&amp;") then "&" + Unescape(s[5..])
    else if StartsWith(s, "&lt;") then "<" + Unescape(s[4..])
    else if StartsWith(s, "&gt;") then ">" + Unescape(s[4..])
    else if StartsWith(s, "&quot;") then "\"" + Unescape(s[6..])
    else if StartsWith(s, "&#x27;") then "'" + Unescape(s[6..])
    else [s[0]] + Unescape(s[1..])
  }

  /** Text whose second character differs from an entity's does not begin with it. */
  lemma SecondDiffers(e: string, entity: string)
    requires |e| >= 2 && |entity| >= 2 && e[1] != entity[1]
    ensures !StartsWith(e, entity)
  {
  }

  /** Decoding after one escaped character gives that character back. */
  lemma UnescapeChar(c: char, t: string)
    ensures Unescape(EscapeChar(c) + t) == [c] + Unescape(t)
  {
    if c == '&' {
      UnescapeAmp(t);
    } else if c == '<' {
      UnescapeLt(t);
    } else if c == '>' {
      UnescapeGt(t);
    } else if c == '"' {
      UnescapeQuot(t);
    } else if c == '\'' {
      UnescapeApos(t);
    } else {
      UnescapeOther(c, t);
    }
  }

  lemma UnescapeAmp(t: string)
    ensures Unescape("&amp;" + t) == "&" + Unescape(t)
  {
    UnescapeAt("&amp;", t);
  }

  lemma UnescapeLt(t: string)
    ensures Unescape("&lt;" + t) == "<" + Unescape(t)
  {
    SecondDiffers("&lt;" + t, "&amp;");
    UnescapeAt("&lt;", t);
  }

  lemma UnescapeGt(t: string)
    ensures Unescape("&gt;" + t) == ">" + Unescape(t)
  {
    SecondDiffers("&gt;" + t, "&amp;");
    SecondDiffers("&gt;" + t, "&lt;");
    UnescapeAt("&gt;", t);
  }

  lemma UnescapeOther(c: char, t: string)
    requires !Special(c)
    ensures Unescape([c] + t) == [c] + Unescape(t)
  {
    var e := [c] + t;
    assert e[0] == c && e[1..] == t;
    FirstDiffers(e, "&amp;");
    FirstDiffers(e, "&lt;");
    FirstDiffers(e, "&gt;");
    FirstDiffers(e, "&quot;");
    FirstDiffers(e, "&#x27;");
  }

  /** Text whose first character differs from an entity's does not begin with it. */
  lemma FirstDiffers(e: string, entity: string)
    requires e != [] && entity != [] && e[0] != entity[0]
    ensures !StartsWith(e, entity)
  {
  }

  /** An entity in front of `t` is where decoding starts. */
  lemma UnescapeAt(entity: string, t: string)
    ensures StartsWith(entity + t, entity) && (entity + t)[|entity|..] == t
  {
  }

  lemma UnescapeQuot(t: string)
    ensures Unescape("&quot;" + t) == "\"" + Unescape(t)
  {
    var e := "&quot;" + t;
    SecondDiffers(e, "&amp;");
    SecondDiffers(e, "&lt;");
    SecondDiffers(e, "&gt;");
    UnescapeAt("&quot;", t);
  }

  lemma UnescapeApos(t: string)
    ensures Unescape("&#x27;" + t) == "'" + Unescape(t)
  {
    var e := "&#x27;" + t;
    SecondDiffers(e, "&amp;");
    SecondDiffers(e, "&lt;");
    SecondDiffers(e, "&gt;");
    SecondDiffers(e, "&quot;");
    UnescapeAt("&#x27;", t);
  }

  /** Escaping loses nothing: decoding the entities gives the text back. */
  lemma {:induction false} UnescapeEscape(s: string)
    ensures Unescape(EscapeHtml(s)) == s
    decreases |s|
  {
    EscapeHtmlEach(s);
    if s != [] {
      EscapeHtmlEach(s[1..]);
      UnescapeEscape(s[1..]);
      UnescapeChar(s[0], EscapeEach(s[1..]));
    }
  }

  /** The capture time shown for an index entry: "Archived: YYYY-MM-DD HH:MM" from a
      timestamp of at least fourteen characters, nothing otherwise. (As in the file
      name, the `except` branch cannot be reached.) */
  function TimestampDisplay(ts: string): (r: string)
    ensures |ts| >= 14 ==> |r| == 26 && StartsWith(r, "Archived: ")
    ensures |ts| < 14 ==> r == ""
  {
    if ts != "" && |ts| >= 14 then
      "Archived: " + ts[..4] + "-" + ts[4..6] + "-" + ts[6..8] + " " + ts[8..10] + ":" + ts[10..12]
    else ""
  }

  /** The digits of a displayed time, read back. */
  function DisplayedDigits(d: string): string
    requires |d| == 26
  {
    d[10..14] + d[15..17] + d[18..20] + d[21..23] + d[24..26]
  }

  /** The display shows the first twelve characters of the timestamp (year to
      minute), which are also the first twelve of the file-name suffix after its
      leading '_' once the inner '_' is dropped. */
  lemma DisplayShowsStamp(ts: string)
    requires |ts| >= 14
    ensures DisplayedDigits(TimestampDisplay(ts)) == ts[..12]
    ensures var f := TimestampSuffix(ts); f[1..9] + f[10..14] == ts[..12]
  {
    var d := TimestampDisplay(ts);
    var digits := DisplayedDigits(d);
    forall i | 0 <= i < 12
      ensures digits[i] == ts[i]
    {
      assert d[10 + i + (if i < 4 then 0 else if i < 6 then 1 else if i < 8 then 2 else if i < 10 then 3 else 4)] == ts[i];
    }
    var f := TimestampSuffix(ts);
    var g := f[1..9] + f[10..14];
    forall i | 0 <= i < 12
      ensures g[i] == ts[i]
    {
      assert f[1 + i + (if i < 8 then 0 else 1)] == ts[i];
    }
  }
}
