/** The cleaner that strips the Wayback Machine's injected interface from an
    archived page: the regular-expression substitutions on strings, the
    archived-URL rewrite, and the passes over the parsed document tree. */
module HtmlCleaner {
  import opened Strings
  import opened Wrappers
  import opened Url
  import CdxClient

  // ---------------------------------------------------------------------------
  // The regular expressions, as left-to-right scanners
  // ---------------------------------------------------------------------------

  /** The regular expressions the cleaner substitutes:
      - ArchivePrefix: http or https, "://web.archive.org/web/", one or more
        digits, any run of letters a-z and '_', then '/';
      - ArchiveItPrefix: http or https, "://wayback.archive-it.org/", digits,
        '/', digits, '/';
      - EmptyScript, EmptyStyle: an opening tag of that name with any
        attributes up to the first '>', whitespace only, and the closing tag;
      - BlankLines: a newline, whitespace, a newline, whitespace, a newline. */
  datatype Pattern = ArchivePrefix | ArchiveItPrefix | EmptyScript | EmptyStyle | BlankLines

  /** `lit` (lower case) at the start of `s`; letters compared
      case-insensitively when `ci`. */
  predicate LitAt(s: string, lit: string, ci: bool) {
    |lit| <= |s| && (if ci then Lower(s[..|lit|]) == lit else s[..|lit|] == lit)
  }

  /** The length of the longest prefix of ASCII digits. */
  function DigitRun(s: string): (n: nat)
    ensures n <= |s| && (n < |s| ==> !IsAsciiDigit(s[n]))
    ensures forall i :: 0 <= i < n ==> IsAsciiDigit(s[i])
  {
    if s != [] && IsAsciiDigit(s[0]) then 1 + DigitRun(s[1..]) else 0
  }

  /** A letter a-z or '_' (any case when `ci`). */
  predicate IsWordChar(c: char, ci: bool) {
    IsAsciiLower(c) || c == '_' || (ci && IsAsciiUpper(c))
  }

  function WordRun(s: string, ci: bool): (n: nat)
    ensures n <= |s| && (n < |s| ==> !IsWordChar(s[n], ci))
    ensures forall i :: 0 <= i < n ==> IsWordChar(s[i], ci)
  {
    if s != [] && IsWordChar(s[0], ci) then 1 + WordRun(s[1..], ci) else 0
  }

  /** The length of the longest prefix without '>'. */
  function NotGtRun(s: string): (n: nat)
    ensures n <= |s| && (n < |s| ==> s[n] == '>')
  {
    if s != [] && s[0] != '>' then 1 + NotGtRun(s[1..]) else 0
  }

  /** The length of the longest prefix of whitespace. */
  function SpaceRun(s: string): (n: nat)
    ensures n <= |s| && (n < |s| ==> !IsSpace(s[n]))
  {
    if s != [] && IsSpace(s[0]) then 1 + SpaceRun(s[1..]) else 0
  }

  /** "https://" or "http://" at the start. */
  function SchemeLen(s: string, ci: bool): Option<nat> {
    if LitAt(s, "https://", ci) then Some(8)
    else if LitAt(s, "http://", ci) then Some(7)
    else None
  }

  function ArchivePrefixLen(s: string, ci: bool): (r: Option<nat>)
    ensures r.Some? ==> 0 < r.value <= |s|
  {
    match SchemeLen(s, ci)
    case None => None
    case Some(a) =>
      if !LitAt(s[a..], "web.archive.org/web/", ci) then None
      else
        var b := a + 20;
        var d := DigitRun(s[b..]);
        if d == 0 then None
        else
          var e := b + d + WordRun(s[b + d..], ci);
          if e < |s| && s[e] == '/' then Some(e + 1) else None
  }

  function ArchiveItPrefixLen(s: string, ci: bool): (r: Option<nat>)
    ensures r.Some? ==> 0 < r.value <= |s|
  {
    match SchemeLen(s, ci)
    case None => None
    case Some(a) =>
      if !LitAt(s[a..], "wayback.archive-it.org/", ci) then None
      else
        var b := a + 23;
        var d := DigitRun(s[b..]);
        if d == 0 || b + d >= |s| || s[b + d] != '/' then None
        else
          var c := b + d + 1;
          var d2 := DigitRun(s[c..]);
          if d2 == 0 || c + d2 >= |s| || s[c + d2] != '/' then None
          else Some(c + d2 + 1)
  }

  /** An empty element of the given tag, letters compared case-insensitively. */
  function EmptyTagLen(s: string, tag: string): (r: Option<nat>)
    ensures r.Some? ==> 0 < r.value <= |s|
  {
    if !LitAt(s, "<" + tag, true) then None
    else
      var a := 1 + |tag|;
      var g := a + NotGtRun(s[a..]);
      if g >= |s| then None
      else
        var b := g + 1 + SpaceRun(s[g + 1..]);
        if LitAt(s[b..], "</" + tag + ">", true) then Some(b + 3 + |tag|) else None
  }

  /** Within the whitespace run of `s` from `i`: the number of newlines counted so
      far, and one past the last of them. */
  function NewlinesInRun(s: string, i: nat, count: nat, last: nat): (r: (nat, nat))
    requires i <= |s| && count <= last <= i
    ensures r.0 <= r.1 <= |s| && r.0 >= count
    decreases |s| - i
  {
    if i < |s| && IsSpace(s[i]) then
      if s[i] == '\n' then NewlinesInRun(s, i + 1, count + 1, i + 1)
      else NewlinesInRun(s, i + 1, count, last)
    else (count, last)
  }

  /** A run of whitespace holding at least three newlines, from the first newline
      to the last one in the run. */
  function BlankLinesLen(s: string): (r: Option<nat>)
    ensures r.Some? ==> 3 <= r.value <= |s|
  {
    if s == [] || s[0] != '\n' then None
    else
      var (count, end) := NewlinesInRun(s, 1, 1, 1);
      if count >= 3 then Some(end) else None
  }

  /** The length of the match of `p` at the start of `s`, if any: each of these
      patterns matches in at most one way there. */
  function MatchLen(p: Pattern, s: string, ci: bool): (r: Option<nat>)
    ensures r.Some? ==> 0 < r.value <= |s|
    ensures p == BlankLines && r.Some? ==> r.value >= 3
  {
    match p
    case ArchivePrefix => ArchivePrefixLen(s, ci)
    case ArchiveItPrefix => ArchiveItPrefixLen(s, ci)
    case EmptyScript => EmptyTagLen(s, "script")
    case EmptyStyle => EmptyTagLen(s, "style")
    case BlankLines => BlankLinesLen(s)
  }

  /** `re.search`: a match somewhere in `s`. */
  predicate HasMatch(p: Pattern, s: string, ci: bool) {
    exists i :: 0 <= i < |s| && MatchLen(p, s[i..], ci).Some?
  }

  /** `re.sub(p, repl, s)`: scanning left to right, each match is replaced and
      the scan resumes after it; elsewhere the scan moves one character on. */
  function Sub(p: Pattern, s: string, ci: bool, repl: string): string
    decreases |s|
  {
    if s == [] then []
    else match MatchLen(p, s, ci)
      case Some(n) => repl + Sub(p, s[n..], ci, repl)
      case None => [s[0]] + Sub(p, s[1..], ci, repl)
  }

  /** Deleting matches never lengthens a string. */
  lemma {:induction false} DeleteShortens(p: Pattern, s: string, ci: bool)
    ensures |Sub(p, s, ci, "")| <= |s|
    decreases |s|
  {
    if s != [] {
      match MatchLen(p, s, ci)
      case Some(n) => DeleteShortens(p, s[n..], ci);
      case None => DeleteShortens(p, s[1..], ci);
    }
  }

  /** Replacing blank-line runs (three characters or more) by two newlines never
      lengthens a string. */
  lemma {:induction false} CollapseShortens(s: string)
    ensures |Sub(BlankLines, s, false, "\n\n")| <= |s|
    decreases |s|
  {
    if s != [] {
      match MatchLen(BlankLines, s, false)
      case Some(n) => CollapseShortens(s[n..]);
      case None => CollapseShortens(s[1..]);
    }
  }

  /** A string without any match is left as it is. */
  lemma {:induction false} SubWithoutMatch(p: Pattern, s: string, ci: bool, repl: string)
    requires !HasMatch(p, s, ci)
    ensures Sub(p, s, ci, repl) == s
    decreases |s|
  {
    if s != [] {
      assert MatchLen(p, s[0..], ci).None?;
      assert s[0..] == s;
      forall i | 0 <= i < |s[1..]|
        ensures MatchLen(p, s[1..][i..], ci).None?
      {
        assert s[1..][i..] == s[i + 1..];
      }
      SubWithoutMatch(p, s[1..], ci, repl);
      assert [s[0]] + s[1..] == s;
    }
  }

  /** A match at the start is replaced and the rest scanned on its own. */
  lemma SubAfterMatch(p: Pattern, m: string, rest: string, ci: bool, repl: string)
    requires MatchLen(p, m + rest, ci) == Some(|m|)
    ensures Sub(p, m + rest, ci, repl) == repl + Sub(p, rest, ci, repl)
  {
    assert (m + rest)[|m|..] == rest;
  }

  // ---------------------------------------------------------------------------
  // `_clean_archived_url` and `_post_process_html`
  // ---------------------------------------------------------------------------

  /** The two archive prefixes deleted, case-sensitively, in turn. */
  function Unarchived(s: string): string {
    Sub(ArchiveItPrefix, Sub(ArchivePrefix, s, false, ""), false, "")
  }

  /** Prefixes that mark a value as absolute or not a location. */
  const KeptPrefixes: seq<string> := ["http://", "https://", "//", "mailto:", "javascript:", "#"]

  predicate StartsWithAny(s: string, ps: seq<string>) {
    exists i :: 0 <= i < |ps| && StartsWith(s, ps[i])
  }

  /** `_clean_archived_url`: an empty value is returned as it is; otherwise the
      archive prefixes are deleted, a root-relative value is put under the site,
      a value with one of the kept prefixes is left, and anything else is put
      under the site root with its leading dots and slashes removed. */
  function CleanArchivedUrl(url: string, baseDomain: string): (r: string)
    ensures url == "" ==> r == ""
    ensures r == Unarchived(url) || StartsWith(r, baseDomain)
  {
    if url == "" then url
    else
      var u := Unarchived(url);
      if StartsWith(u, "/") && !StartsWith(u, "//") then baseDomain + u
      else if StartsWith(u, "../") || !StartsWithAny(u, KeptPrefixes) then
        if !StartsWith(u, "#") && !StartsWith(u, "javascript:") then baseDomain + "/" + LStrip(u, {'.', '/'})
        else u
      else u
  }

  /** A value with a kept prefix is neither root-relative nor dot-relative:
      only "//" starts with '/', and none starts with '.'. */
  lemma KeptFirstChar(u: string)
    requires StartsWithAny(u, KeptPrefixes)
    ensures u != [] && u[0] != '.' && (u[0] == '/' ==> StartsWith(u, "//"))
  {
    var i :| 0 <= i < |KeptPrefixes| && StartsWith(u, KeptPrefixes[i]);
    assert u[0] == KeptPrefixes[i][0];
  }

  /** A root-relative value is put under the site. */
  lemma CleanRootRelative(url: string, baseDomain: string)
    requires url != ""
    requires StartsWith(Unarchived(url), "/") && !StartsWith(Unarchived(url), "//")
    ensures CleanArchivedUrl(url, baseDomain) == baseDomain + Unarchived(url)
  {
  }

  /** A value with a kept prefix is returned without its archive prefixes. */
  lemma CleanKept(url: string, baseDomain: string)
    requires url != ""
    requires StartsWithAny(Unarchived(url), KeptPrefixes)
    ensures CleanArchivedUrl(url, baseDomain) == Unarchived(url)
  {
    var u := Unarchived(url);
    KeptFirstChar(u);
    KeptNotRelative(u);
  }

  /** Text whose first character is not '.', and is '/' only before another
      '/', is neither root-relative nor dot-relative. */
  lemma KeptNotRelative(u: string)
    requires u != [] && u[0] != '.' && (u[0] == '/' ==> StartsWith(u, "//"))
    ensures !(StartsWith(u, "/") && !StartsWith(u, "//")) && !StartsWith(u, "../")
  {
    assert "../"[0] == '.';
  }

  /** Any other value is put under the site root, less its leading dots and
      slashes. */
  lemma CleanRelative(url: string, baseDomain: string)
    requires url != ""
    requires !StartsWithAny(Unarchived(url), KeptPrefixes) && !StartsWith(Unarchived(url), "/")
    ensures CleanArchivedUrl(url, baseDomain) == baseDomain + "/" + LStrip(Unarchived(url), {'.', '/'})
  {
    var u := Unarchived(url);
    assert !StartsWith(u, KeptPrefixes[5]);
    assert !StartsWith(u, KeptPrefixes[4]);
  }

  predicate NoArchivePrefix(s: string) {
    !HasMatch(ArchivePrefix, s, false) && !HasMatch(ArchiveItPrefix, s, false)
  }

  lemma UnarchivedWithoutPrefix(s: string)
    requires NoArchivePrefix(s)
    ensures Unarchived(s) == s
  {
    SubWithoutMatch(ArchivePrefix, s, false, "");
    SubWithoutMatch(ArchiveItPrefix, s, false, "");
  }

  /** A value under an http or https site starts with one of the kept prefixes. */
  lemma KeptPrefixOfBase(r: string, baseDomain: string)
    requires StartsWith(baseDomain, "http://") || StartsWith(baseDomain, "https://")
    requires StartsWith(r, baseDomain)
    ensures StartsWithAny(r, KeptPrefixes)
  {
    if StartsWith(baseDomain, "http://") {
      assert r[..7] == baseDomain[..7];
      assert StartsWith(r, KeptPrefixes[0]);
    } else {
      assert r[..8] == baseDomain[..8];
      assert StartsWith(r, KeptPrefixes[1]);
    }
  }

  /** Under an http or https site, every cleaned non-empty value is absolute or
      not a location: it starts with one of the kept prefixes. */
  lemma CleanedIsKept(url: string, baseDomain: string)
    requires StartsWith(baseDomain, "http://") || StartsWith(baseDomain, "https://")
    requires url != ""
    ensures StartsWithAny(CleanArchivedUrl(url, baseDomain), KeptPrefixes)
  {
    var u := Unarchived(url);
    var r := CleanArchivedUrl(url, baseDomain);
    if StartsWith(r, baseDomain) {
      KeptPrefixOfBase(r, baseDomain);
    } else if StartsWith(u, "#") {
      assert StartsWith(u, KeptPrefixes[5]);
    } else if StartsWith(u, "javascript:") {
      assert StartsWith(u, KeptPrefixes[4]);
    }
  }

  /** Cleaning a cleaned value changes nothing, when the site is given as an
      http or https address and the result holds no archive prefix. */
  lemma CleanArchivedUrlIdempotent(url: string, baseDomain: string)
    requires StartsWith(baseDomain, "http://") || StartsWith(baseDomain, "https://")
    requires NoArchivePrefix(CleanArchivedUrl(url, baseDomain))
    ensures CleanArchivedUrl(CleanArchivedUrl(url, baseDomain), baseDomain) == CleanArchivedUrl(url, baseDomain)
  {
    var r := CleanArchivedUrl(url, baseDomain);
    if url != "" {
      CleanedIsKept(url, baseDomain);
      assert r != "";
      UnarchivedWithoutPrefix(r);
      CleanKept(r, baseDomain);
    }
  }

  lemma {:induction false} DigitRunOf(ds: string, rest: string)
    requires forall i :: 0 <= i < |ds| ==> IsAsciiDigit(ds[i])
    requires rest == [] || !IsAsciiDigit(rest[0])
    ensures DigitRun(ds + rest) == |ds|
    decreases |ds|
  {
    if ds == [] {
      assert ds + rest == rest;
    } else {
      assert (ds + rest)[0] == ds[0];
      assert (ds + rest)[1..] == ds[1..] + rest;
      DigitRunOf(ds[1..], rest);
    }
  }

  lemma {:induction false} WordRunOf(ws: string, rest: string, ci: bool)
    requires forall i :: 0 <= i < |ws| ==> IsWordChar(ws[i], ci)
    requires rest == [] || !IsWordChar(rest[0], ci)
    ensures WordRun(ws + rest, ci) == |ws|
    decreases |ws|
  {
    if ws == [] {
      assert ws + rest == rest;
    } else {
      assert (ws + rest)[0] == ws[0];
      assert (ws + rest)[1..] == ws[1..] + rest;
      WordRunOf(ws[1..], rest, ci);
    }
  }

  /** `ArchivePrefixLen` in terms of where its digit and flag runs end. */
  lemma ArchivePrefixLenAt(s: string, c: nat, e: nat)
    requires 28 < c <= e < |s| && s[e] == '/'
    requires SchemeLen(s, false) == Some(8) && LitAt(s[8..], "web.archive.org/web/", false)
    requires DigitRun(s[28..]) == c - 28 && WordRun(s[c..], false) == e - c
    ensures ArchivePrefixLen(s, false) == Some(e + 1)
  {
  }

  /** The scheme and host of a capture URL, as the archive pattern reads them. */
  lemma CapturePrefixFacts(s: string)
    requires StartsWith(s, CdxClient.WaybackPrefix)
    ensures SchemeLen(s, false) == Some(8) && LitAt(s[8..], "web.archive.org/web/", false)
  {
    assert s[..8] == CdxClient.WaybackPrefix[..8];
    assert s[8..][..20] == CdxClient.WaybackPrefix[8..];
  }

  /** After the 28 characters of "https://web.archive.org/web/", a capture URL
      holds the digit run, then the flag run, then '/'. */
  lemma CaptureRuns(digits: string, flag: string, url: string)
    requires forall i :: 0 <= i < |digits| ==> IsAsciiDigit(digits[i])
    requires forall i :: 0 <= i < |flag| ==> IsWordChar(flag[i], false)
    ensures var s := CdxClient.WaybackUrl(digits + flag, url);
      && |s| > 28 + |digits| + |flag|
      && DigitRun(s[28..]) == |digits|
      && WordRun(s[28 + |digits|..], false) == |flag|
      && s[28 + |digits| + |flag|] == '/'
  {
    var s := CdxClient.WaybackUrl(digits + flag, url);
    var tail := flag + ("/" + url);
    assert s[28..] == digits + tail;
    assert tail == [] || !IsAsciiDigit(tail[0]) by {
      if flag != [] {
        assert tail[0] == flag[0];
      } else {
        assert tail[0] == '/';
      }
    }
    DigitRunOf(digits, tail);
    assert s[28 + |digits|..] == flag + ("/" + url);
    WordRunOf(flag, "/" + url, false);
  }

  /** The archive pattern matches exactly the prefix of a capture URL whose
      timestamp is digits followed by a flag such as "if_". */
  lemma ArchivePrefixOf(digits: string, flag: string, url: string)
    requires digits != [] && forall i :: 0 <= i < |digits| ==> IsAsciiDigit(digits[i])
    requires forall i :: 0 <= i < |flag| ==> IsWordChar(flag[i], false)
    ensures ArchivePrefixLen(CdxClient.WaybackUrl(digits + flag, url), false) == Some(29 + |digits| + |flag|)
  {
    var s := CdxClient.WaybackUrl(digits + flag, url);
    CapturePrefixFacts(s);
    CaptureRuns(digits, flag, url);
    ArchivePrefixLenAt(s, 28 + |digits|, 28 + |digits| + |flag|);
  }

  /** The archive prefixes of a capture URL whose timestamp is digits followed by
      a flag such as "if_" are deleted, leaving the address when it holds none. */
  lemma UnarchivedCapture(digits: string, flag: string, url: string)
    requires digits != [] && forall i :: 0 <= i < |digits| ==> IsAsciiDigit(digits[i])
    requires forall i :: 0 <= i < |flag| ==> IsWordChar(flag[i], false)
    requires NoArchivePrefix(url)
    ensures Unarchived(CdxClient.WaybackUrl(digits + flag, url)) == url
  {
    var m := CdxClient.WaybackPrefix + (digits + flag) + "/";
    var s := CdxClient.WaybackUrl(digits + flag, url);
    assert s == m + url;
    ArchivePrefixOf(digits, flag, url);
    assert MatchLen(ArchivePrefix, m + url, false) == Some(|m|);
    SubAfterMatch(ArchivePrefix, m, url, false, "");
    SubWithoutMatch(ArchivePrefix, url, false, "");
    assert Sub(ArchivePrefix, s, false, "") == url;
    SubWithoutMatch(ArchiveItPrefix, url, false, "");
  }

  /** Cleaning the capture URL of an absolute address free of archive prefixes
      gives back that address, for a page timestamp and for the "if_" form used
      for assets alike. */
  lemma CleanUndoesCapture(digits: string, flag: string, url: string, baseDomain: string)
    requires digits != [] && forall i :: 0 <= i < |digits| ==> IsAsciiDigit(digits[i])
    requires forall i :: 0 <= i < |flag| ==> IsWordChar(flag[i], false)
    requires StartsWith(url, "http://") || StartsWith(url, "https://")
    requires NoArchivePrefix(url)
    ensures CleanArchivedUrl(CdxClient.WaybackUrl(digits + flag, url), baseDomain) == url
  {
    UnarchivedCapture(digits, flag, url);
    KeptPrefixOfBase(url, url);
    CleanKept(CdxClient.WaybackUrl(digits + flag, url), baseDomain);
  }

  /** `_post_process_html`: the archive prefixes deleted, empty script and style
      elements deleted, and blank-line runs collapsed to one blank line. */
  function PostProcess(html: string): string {
    var a := Unarchived(html);
    var b := Sub(EmptyScript, a, true, "");
    var c := Sub(EmptyStyle, b, true, "");
    Sub(BlankLines, c, false, "\n\n")
  }

  /** Post-processing never lengthens the page. */
  lemma PostProcessShortens(html: string)
    ensures |PostProcess(html)| <= |html|
  {
    var a0 := Sub(ArchivePrefix, html, false, "");
    DeleteShortens(ArchivePrefix, html, false);
    var a := Unarchived(html);
    DeleteShortens(ArchiveItPrefix, a0, false);
    var b := Sub(EmptyScript, a, true, "");
    DeleteShortens(EmptyScript, a, true);
    var c := Sub(EmptyStyle, b, true, "");
    DeleteShortens(EmptyStyle, b, true);
    CollapseShortens(c);
  }

  /** A page in which none of the patterns occurs is left as it is. */
  lemma PostProcessStable(html: string)
    requires NoArchivePrefix(html)
    requires !HasMatch(EmptyScript, html, true) && !HasMatch(EmptyStyle, html, true) && !HasMatch(BlankLines, html, false)
    ensures PostProcess(html) == html
  {
    UnarchivedWithoutPrefix(html);
    SubWithoutMatch(EmptyScript, html, true, "");
    SubWithoutMatch(EmptyStyle, html, true, "");
    SubWithoutMatch(BlankLines, html, false, "\n\n");
  }
}
