/** The index page of the file manager: `_build_index_html` filling its
    template with the number of pages, the time of generation and one entry per
    archived page, and `generate_index_file` writing the result. */
module IndexFile {
  import opened Strings
  import opened Wrappers
  import opened FileManager
  import Paths
  import Codec
  import Assets

  /** `str(n)`. */
  function Decimal(n: nat): (r: string)
    ensures r != [] && forall k :: 0 <= k < |r| ==> IsAsciiDigit(r[k])
    decreases n
  {
    (if n < 10 then "" else Decimal(n / 10)) + [(('0' as int) + n % 10) as char]
  }

  /** The fields `_build_index_html` reads from one entry of the processed list
      with `get`: 'url' (None when missing), then 'timestamp', 'html_path' and
      'pdf_path' ("" when missing). */
  datatype IndexInfo = IndexInfo(url: Option<string>, timestamp: string, htmlPath: string, pdfPath: string)

  /** A link from the output directory to a file, `relpath` standing for
      `os.path.relpath`; none for an empty path. */
  function Link(path: string, baseDir: string, relpath: (string, string) -> string): string {
    if path == "" then "" else relpath(path, baseDir)
  }

  /** What one entry of the listing shows: its number, its title, the capture
      time and the links to the two files. */
  datatype IndexEntry = IndexEntry(number: nat, title: string, archived: string, htmlLink: string, pdfLink: string)

  /** Entry number `n` for `info`: the title is the URL, or "Unknown URL",
      escaped, so it holds no markup and decodes back to the URL. */
  function EntryOf(n: nat, info: IndexInfo, baseDir: string, relpath: (string, string) -> string): (e: IndexEntry)
    ensures e.number == n && e.archived == TimestampDisplay(info.timestamp)
    ensures Unescape(e.title) == (if info.url.Some? then info.url.value else "Unknown URL")
    ensures forall k :: 0 <= k < |e.title| ==> !Special(e.title[k]) || e.title[k] == '&'
    ensures info.htmlPath == "" ==> e.htmlLink == ""
    ensures info.pdfPath == "" ==> e.pdfLink == ""
  {
    var url := if info.url.Some? then info.url.value else "Unknown URL";
    UnescapeEscape(url);
    EscapeHtmlEach(url);
    EscapedHasNoMarkup(url);
    IndexEntry(n, EscapeHtml(url), TimestampDisplay(info.timestamp),
      Link(info.htmlPath, baseDir, relpath), Link(info.pdfPath, baseDir, relpath))
  }

  /** The markup of one entry of the listing. */
  function EntryText(e: IndexEntry): string {
    "\n        <div class=\"url-entry\">\n            <div class=\"url-title\">" + Decimal(e.number) + ". " + e.title
    + "</div>\n            <div class=\"timestamp\">" + e.archived
    + "</div>\n            <div class=\"file-links\">\n                "
    + (if e.htmlLink != "" then "<a href=\"" + e.htmlLink + "\">\U{1F4C4} View HTML</a>" else "")
    + "\n                "
    + (if e.pdfLink != "" then "<a href=\"" + e.pdfLink + "\">\U{1F4CB} View PDF</a>" else "")
    + "\n            </div>\n        </div>"
  }

  /** The markup of entry `n` for `info`. */
  function EntryMarkup(baseDir: string, relpath: (string, string) -> string): (nat, IndexInfo) -> string {
    (n: nat, info: IndexInfo) => EntryText(EntryOf(n, info, baseDir, relpath))
  }

  /** The listing: the markup of the items' entries, numbered from 1, in order;
      `entry` gives the markup of an entry from its number and item. */
  function Listing(items: seq<IndexInfo>, entry: (nat, IndexInfo) -> string): string
    decreases |items|
  {
    if items == [] then ""
    else Listing(items[..|items| - 1], entry) + entry(|items|, items[|items| - 1])
  }

  /** Every item appears in the listing, as the entry with its position as
      number. */
  lemma {:induction false} ListingHasEntry(items: seq<IndexInfo>, entry: (nat, IndexInfo) -> string, k: nat)
    requires k < |items|
    ensures Contains(Listing(items, entry), entry(k + 1, items[k]))
    decreases |items|
  {
    var n := |items| - 1;
    var last := entry(|items|, items[n]);
    if k == n {
      ContainsAt(last, last, 0);
      ContainsInSuffix(Listing(items[..n], entry), last, last);
    } else {
      assert items[..n][k] == items[k];
      ListingHasEntry(items[..n], entry, k);
      ContainsInPrefix(Listing(items[..n], entry), last, entry(k + 1, items[k]));
    }
  }

  /** The entry loop of `_build_index_html`. */
  method BuildListing(items: seq<IndexInfo>, entry: (nat, IndexInfo) -> string) returns (entries: string)
    ensures entries == Listing(items, entry)
  {
    entries := "";
    for i := 0 to |items|
      invariant entries == Listing(items[..i], entry)
    {
      assert items[..i + 1][..i] == items[..i];
      entries := entries + entry(i + 1, items[i]);
    }
    assert items[..|items|] == items;
  }

  const Braces := {'{', '}'}

  predicate BraceFree(s: string) {
    NoneOf(s, Braces)
  }

  /** `s` prefixed to what `r` holds; an error stays as it is. */
  function Then(s: string, r: Result<string>): Result<string> {
    if r.Ok? then Ok(s + r.value) else r
  }

  /** `str.format` with keyword arguments only: "{{" and "}}" stand for single
      braces; a replacement field runs from '{' to the next '}', and its name, the
      text before the first ':' or '!' in it, is looked up in `args` (the format
      specification plays no part for the text values given here). A missing name
      raises `KeyError`; a '{' with no '}' after it, or a single '}', raises
      `ValueError`. */
  function Format(t: string, args: map<string, string>): (r: Result<string>)
    ensures r.Err? ==> r.error == "KeyError" || r.error == "ValueError"
    decreases |t|
  {
    if t == [] then Ok("")
    else if |t| >= 2 && t[0] == '{' && t[1] == '{' then Then("{", Format(t[2..], args))
    else if |t| >= 2 && t[0] == '}' && t[1] == '}' then Then("}", Format(t[2..], args))
    else if t[0] == '{' then
      var close := IndexOf(t, '}');
      if close == |t| then Err("ValueError")
      else
        var field := t[1..close];
        var name := field[..IndexOfAny(field, {':', '!'})];
        if name !in args then Err("KeyError") else Then(args[name], Format(t[close + 1..], args))
    else if t[0] == '}' then Err("ValueError")
    else Then([t[0]], Format(t[1..], args))
  }

  /** Text without braces is copied. */
  lemma {:induction false} FormatPlain(p: string, t: string, args: map<string, string>)
    requires BraceFree(p)
    ensures Format(p + t, args) == Then(p, Format(t, args))
    decreases |p|
  {
    if p != [] {
      assert (p + t)[0] == p[0] && (p + t)[1..] == p[1..] + t;
      FormatPlain(p[1..], t, args);
      var r := Format(t, args);
      if r.Ok? {
        assert [p[0]] + (p[1..] + r.value) == p + r.value;
      }
    } else {
      assert p + t == t;
      assert Format(t, args).Ok? ==> "" + Format(t, args).value == Format(t, args).value;
    }
  }

  /** One unfolding of `Format` at a replacement field. */
  lemma FormatAtField(s: string, args: map<string, string>)
    requires |s| >= 2 && s[0] == '{' && s[1] != '{' && IndexOf(s, '}') < |s|
    ensures var field := s[1..IndexOf(s, '}')];
      var name := field[..IndexOfAny(field, {':', '!'})];
      Format(s, args) == if name in args then Then(args[name], Format(s[IndexOf(s, '}') + 1..], args)) else Err("KeyError")
  {
  }

  /** `x` between braces. */
  function Braced(x: string): string {
    "{" + x + "}"
  }

  /** Where a field with brace-free text `field` in front of `t` closes. */
  lemma FieldParts(field: string, t: string)
    requires NoneOf(field, {'}'})
    ensures var s := Braced(field) + t;
      IndexOf(s, '}') == |field| + 1 && s[1..|field| + 1] == field && s[|field| + 2..] == t
  {
    var open := "{" + field;
    assert Braced(field) + t == open + ("}" + t);
    assert NoneOf(open, {'}'}) by {
      assert forall k :: 1 <= k < |open| ==> open[k] == field[k - 1];
    }
    IndexOfConcat(open, "}" + t, '}');
  }

  /** The name `Format` reads from the field text `name + spec`. */
  lemma NameOf(name: string, spec: string)
    requires NoneOf(name, {':', '!'})
    requires spec == [] || spec[0] == ':'
    ensures (name + spec)[..IndexOfAny(name + spec, {':', '!'})] == name
  {
    IndexOfAnyConcat(name, spec, {':', '!'});
    assert (name + spec)[..|name|] == name;
  }

  /** A replacement field "{name}" or "{name:spec}" is looked up. */
  lemma FormatField(name: string, spec: string, t: string, args: map<string, string>)
    requires name != [] && name[0] != '{' && NoneOf(name, {':', '!'}) && NoneOf(name, {'}'})
    requires spec == [] || (spec[0] == ':' && NoneOf(spec, {'}'}))
    ensures Format(Braced(name + spec) + t, args) ==
      if name in args then Then(args[name], Format(t, args)) else Err("KeyError")
  {
    var field := name + spec;
    NoneOfAppend(name, spec, {'}'});
    FieldParts(field, t);
    NameOf(name, spec);
    var s := Braced(field) + t;
    assert s[1] == name[0];
    FormatAtField(s, args);
  }

  /** Every brace written twice, as the template must spell literal braces. */
  function Doubled(css: string): (r: string)
    decreases |css|
  {
    if css == [] then ""
    else (if css[0] == '{' || css[0] == '}' then [css[0], css[0]] else [css[0]]) + Doubled(css[1..])
  }

  /** A doubled style sheet comes out as it was meant. */
  lemma {:induction false} FormatDoubled(css: string, t: string, args: map<string, string>)
    ensures Format(Doubled(css) + t, args) == Then(css, Format(t, args))
    decreases |css|
  {
    if css != [] {
      var head := if css[0] == '{' || css[0] == '}' then [css[0], css[0]] else [css[0]];
      var rest := Doubled(css[1..]) + t;
      assert Doubled(css) == head + Doubled(css[1..]);
      assert Doubled(css) + t == head + rest;
      FormatDoubled(css[1..], t, args);
      FormatDoubledHead(css[0], rest, args);
      ThenThen(css[0], css[1..], Format(t, args));
      assert [css[0]] + css[1..] == css;
    } else {
      assert Doubled(css) + t == t;
      assert Format(t, args).Ok? ==> "" + Format(t, args).value == Format(t, args).value;
    }
  }

  /** One character of a doubled style sheet comes out once. */
  lemma FormatDoubledHead(c: char, rest: string, args: map<string, string>)
    ensures var head := if c == '{' || c == '}' then [c, c] else [c];
      Format(head + rest, args) == Then([c], Format(rest, args))
  {
    var head := if c == '{' || c == '}' then [c, c] else [c];
    assert (head + rest)[0] == c;
    if c == '{' || c == '}' {
      assert (head + rest)[1] == c && (head + rest)[2..] == rest;
    } else {
      assert (head + rest)[1..] == rest;
    }
  }

  lemma ThenThen(c: char, s: string, r: Result<string>)
    ensures Then([c], Then(s, r)) == Then([c] + s, r)
  {
    if r.Ok? {
      assert [c] + (s + r.value) == [c] + s + r.value;
    }
  }

  /** The text of the page template of `_build_index_html` around its style
      sheet and its three fields. */
  datatype PageText = PageText(head: string, stats: string, generated: string, list: string, foot: string)

  predicate Plain(pt: PageText) {
    BraceFree(pt.head) && BraceFree(pt.stats) && BraceFree(pt.generated) && BraceFree(pt.list) && BraceFree(pt.foot)
  }

  /** The template with the style sheet `css` spelt as given. */
  function Template(pt: PageText, css: string): string {
    pt.head + (css + (pt.stats + (Braced("total_pages") + (pt.generated + (Braced("generation_time") + (pt.list + (Braced("url_entries") + pt.foot)))))))
  }

  /** The page filled in: the style sheet, the number of pages, the time of
      generation and the listing. */
  function Page(pt: PageText, css: string, total: string, now: string, entries: string): string {
    pt.head + (css + (pt.stats + (total + (pt.generated + (now + (pt.list + (entries + pt.foot)))))))
  }

  /** The names `_build_index_html` hands to `format`. */
  function IndexArgs(total: string, now: string, entries: string): map<string, string> {
    map["total_pages" := total, "generation_time" := now, "url_entries" := entries]
  }

  /** A field of the page's own three, in front of `t`. */
  lemma FormatIndexField(name: string, t: string, total: string, now: string, entries: string)
    requires name == "total_pages" || name == "generation_time" || name == "url_entries"
    ensures Format(Braced(name) + t, IndexArgs(total, now, entries)) == Then(IndexArgs(total, now, entries)[name], Format(t, IndexArgs(total, now, entries)))
  {
    assert NoneOf(name, {':', '!'}) && NoneOf(name, {'}'});
    assert name + "" == name;
    FormatField(name, "", t, IndexArgs(total, now, entries));
  }

  /** The part of the template from the listing on. */
  lemma FillsEntries(pt: PageText, total: string, now: string, entries: string)
    requires Plain(pt)
    ensures Format(pt.list + (Braced("url_entries") + pt.foot), IndexArgs(total, now, entries)) == Ok(pt.list + (entries + pt.foot))
  {
    var args := IndexArgs(total, now, entries);
    FormatPlain(pt.foot, "", args);
    assert pt.foot + "" == pt.foot;
    FormatIndexField("url_entries", pt.foot, total, now, entries);
    FormatPlain(pt.list, Braced("url_entries") + pt.foot, args);
  }

  /** The part of the template from the time of generation on. */
  lemma FillsTime(pt: PageText, total: string, now: string, entries: string)
    requires Plain(pt)
    ensures Format(pt.generated + (Braced("generation_time") + (pt.list + (Braced("url_entries") + pt.foot))), IndexArgs(total, now, entries))
      == Ok(pt.generated + (now + (pt.list + (entries + pt.foot))))
  {
    var args := IndexArgs(total, now, entries);
    var s4 := pt.list + (Braced("url_entries") + pt.foot);
    FillsEntries(pt, total, now, entries);
    FormatIndexField("generation_time", s4, total, now, entries);
    FormatPlain(pt.generated, Braced("generation_time") + s4, args);
  }

  /** The part of the template after the style sheet. */
  lemma FillsTotal(pt: PageText, total: string, now: string, entries: string)
    requires Plain(pt)
    ensures Format(pt.stats + (Braced("total_pages") + (pt.generated + (Braced("generation_time") + (pt.list + (Braced("url_entries") + pt.foot))))), IndexArgs(total, now, entries))
      == Ok(pt.stats + (total + (pt.generated + (now + (pt.list + (entries + pt.foot))))))
  {
    var args := IndexArgs(total, now, entries);
    var s2 := pt.generated + (Braced("generation_time") + (pt.list + (Braced("url_entries") + pt.foot)));
    FillsTime(pt, total, now, entries);
    FormatIndexField("total_pages", s2, total, now, entries);
    FormatPlain(pt.stats, Braced("total_pages") + s2, args);
  }

  /** Whatever the fixed text, a template whose style sheet has its braces
      doubled is filled in to the page with the style sheet as meant. */
  lemma TemplateFills(pt: PageText, css: string, total: string, now: string, entries: string)
    requires Plain(pt)
    ensures Format(Template(pt, Doubled(css)), IndexArgs(total, now, entries)) == Ok(Page(pt, css, total, now, entries))
  {
    var args := IndexArgs(total, now, entries);
    var s0 := pt.stats + (Braced("total_pages") + (pt.generated + (Braced("generation_time") + (pt.list + (Braced("url_entries") + pt.foot)))));
    FillsTotal(pt, total, now, entries);
    FormatDoubled(css, s0, args);
    FormatPlain(pt.head, Doubled(css) + s0, args);
  }

  /** Whatever the listing shows, the page shows. */
  lemma PageShowsEntries(pt: PageText, css: string, total: string, now: string, entries: string, sub: string)
    requires Contains(entries, sub)
    ensures Contains(Page(pt, css, total, now, entries), sub)
  {
    var before := pt.head + (css + (pt.stats + (total + (pt.generated + (now + pt.list)))));
    assert Page(pt, css, total, now, entries) == before + (entries + pt.foot);
    ContainsInPrefix(entries, pt.foot, sub);
    ContainsInSuffix(before, entries + pt.foot, sub);
  }

  /** Whatever the fixed text and the style sheet, the template with the style
      sheet's braces doubled gives a page that lists every item, whatever markup
      `entry` gives an item. */
  lemma TemplateListsItems(pt: PageText, css: string, items: seq<IndexInfo>, entry: (nat, IndexInfo) -> string, now: string, k: nat)
    requires Plain(pt) && k < |items|
    ensures var page := Format(Template(pt, Doubled(css)), IndexArgs(Decimal(|items|), now, Listing(items, entry)));
      page.Ok? && Contains(page.value, entry(k + 1, items[k]))
  {
    var entries := Listing(items, entry);
    TemplateFills(pt, css, Decimal(|items|), now, entries);
    ListingHasEntry(items, entry, k);
    PageShowsEntries(pt, css, Decimal(|items|), now, entries, entry(k + 1, items[k]));
  }

  /** Whatever the fixed text, a style sheet that opens a field whose name is
      not one of the three makes `format` raise `KeyError`. */
  lemma TemplateRaises(pt: PageText, lead: string, name: string, spec: string, rest: string, total: string, now: string, entries: string)
    requires Plain(pt) && BraceFree(lead)
    requires name != [] && name[0] != '{' && NoneOf(name, {':', '!'}) && NoneOf(name, {'}'})
    requires spec == [] || (spec[0] == ':' && NoneOf(spec, {'}'}))
    requires name !in IndexArgs(total, now, entries)
    ensures Format(Template(pt, lead + (Braced(name + spec) + rest)), IndexArgs(total, now, entries)) == Err("KeyError")
  {
    var args := IndexArgs(total, now, entries);
    var tail := pt.stats + (Braced("total_pages") + (pt.generated + (Braced("generation_time") + (pt.list + (Braced("url_entries") + pt.foot)))));
    var field := Braced(name + spec) + (rest + tail);
    assert Template(pt, lead + (Braced(name + spec) + rest)) == pt.head + (lead + field);
    assert Format(field, args) == Err("KeyError") by {
      FormatField(name, spec, rest + tail, args);
    }
    assert Format(lead + field, args) == Err("KeyError") by {
      FormatPlain(lead, field, args);
    }
    FormatPlain(pt.head, lead + field, args);
  }

  /** What `_build_index_html` returns or raises: the template filled in with
      the number of items, `now` and the listing of the items' entries. */
  function IndexHtml(template: string, items: seq<IndexInfo>, baseDir: string, relpath: (string, string) -> string, now: string): Result<string> {
    Format(template, IndexArgs(Decimal(|items|), now, Listing(items, EntryMarkup(baseDir, relpath))))
  }

  /** `_build_index_html`, `now` standing for the formatted clock reading. */
  method BuildIndexHtml(template: string, items: seq<IndexInfo>, baseDir: string, relpath: (string, string) -> string, now: string)
    returns (r: Result<string>)
    ensures r == IndexHtml(template, items, baseDir, relpath, now)
  {
    var entries := BuildListing(items, EntryMarkup(baseDir, relpath));
    r := Format(template, IndexArgs(Decimal(|items|), now, entries));
  }

  /** The file the index page goes to by default. */
  function IndexPath(baseDir: string): string {
    Paths.Join(baseDir, "index.html")
  }

  /** `generate_index_file` with the default output path: the page is written,
      UTF-8 encoded, to "index.html" in the output directory and that path is
      returned; when building the page raises, nothing is written and "" is
      returned. */
  method GenerateIndexFile(store: Assets.Store, template: string, items: seq<IndexInfo>, baseDir: string,
                           relpath: (string, string) -> string, now: string) returns (written: string)
    modifies store
    ensures var page := IndexHtml(template, items, baseDir, relpath, now);
      if page.Ok? then written == IndexPath(baseDir) && store.files == old(store.files)[written := Codec.Utf8Encode(page.value)]
      else written == "" && store.files == old(store.files)
  {
    var page := BuildIndexHtml(template, items, baseDir, relpath, now);
    if page.Err? {
      return "";
    }
    written := IndexPath(baseDir);
    store.files := store.files[written := Codec.Utf8Encode(page.value)];
  }
}
