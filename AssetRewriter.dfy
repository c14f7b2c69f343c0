/** `AssetRewriter`: pointing a page and its stylesheets at the local copies of
    their assets, and embedding those copies for a single-file page. The tree
    passes are functions from the parsed document to the edited one. */
module AssetRewriter {
  import opened Strings
  import opened Wrappers
  import Paths
  import Codec
  import opened HtmlTree
  import opened Assets
  import opened AssetCollector

  // ---------------------------------------------------------------------------
  // Editing a document
  // ---------------------------------------------------------------------------

  /** `element[name] = value`: the first attribute of that name gets the value,
      or the attribute is added. */
  function SetAttr(attrs: seq<Attr>, name: string, value: string): (r: seq<Attr>)
    ensures Get(r, name) == value
    ensures forall other :: other != name ==> Get(r, other) == Get(attrs, other)
    decreases |attrs|
  {
    if attrs == [] then [Attr(name, value)]
    else if attrs[0].name == name then [Attr(name, value)] + attrs[1..]
    else
      var r := [attrs[0]] + SetAttr(attrs[1..], name, value);
      assert r[1..] == SetAttr(attrs[1..], name, value);
      r
  }

  /** A pass that edits every element: the children first, then the element
      itself. The parser puts only text under a `style` element, so no element
      is edited after an element above it. */
  function Edit(ns: seq<Node>, f: Node -> Node): seq<Node>
    decreases ns
  {
    if ns == [] then []
    else
      var x := ns[0];
      [if x.Element? then f(x.(children := Edit(x.children, f))) else x] + Edit(ns[1..], f)
  }

  lemma ElementsCons(x: Node, rest: seq<Node>)
    ensures Elements([x] + rest) == (if x.Element? then [x] + Elements(x.children) else []) + Elements(rest)
  {
    assert ([x] + rest)[0] == x && ([x] + rest)[1..] == rest;
  }

  /** A pass that leaves every element of a document as it is leaves the
      document as it is. */
  lemma {:induction false} EditIdentity(ns: seq<Node>, f: Node -> Node)
    requires forall x :: x in Elements(ns) ==> f(x) == x
    ensures Edit(ns, f) == ns
    decreases ns
  {
    if ns != [] {
      var x := ns[0];
      assert [x] + ns[1..] == ns;
      ElementsCons(x, ns[1..]);
      EditIdentity(ns[1..], f);
      if x.Element? {
        EditIdentity(x.children, f);
        assert x.(children := x.children) == x;
      }
    }
  }

  // ---------------------------------------------------------------------------
  // `rewrite_html`
  // ---------------------------------------------------------------------------

  /** `rel_from_abs`: the local file relative to the page's directory; the
      separator is already '/'. */
  function RelFromAbs(localAbs: string, htmlDir: string): string {
    Assets.RelPath(localAbs, htmlDir)
  }

  /** The image pass on one element. */
  function ImagePass(e: Node, mapping: map<string, string>, htmlDir: string): Node
    requires e.Element?
  {
    var src := Get(e.attrs, "src");
    if e.tag == "img" && src != "" && src in mapping then e.(attrs := SetAttr(e.attrs, "src", RelFromAbs(mapping[src], htmlDir)))
    else e
  }

  /** The stylesheet pass on one element. */
  function LinkPass(e: Node, mapping: map<string, string>, htmlDir: string): Node
    requires e.Element?
  {
    var href := Get(e.attrs, "href");
    if IsStylesheetLink(e) && href != "" && href in mapping then e.(attrs := SetAttr(e.attrs, "href", RelFromAbs(mapping[href], htmlDir)))
    else e
  }

  /** The `style` attribute pass on one element. */
  function StyleAttrPass(e: Node, mapping: map<string, string>, htmlDir: string): Node
    requires e.Element?
  {
    var style := Get(e.attrs, "style");
    var newStyle := RewriteCssUrls(style, mapping, htmlDir);
    if newStyle != style then e.(attrs := SetAttr(e.attrs, "style", newStyle)) else e
  }

  /** The `<style>` pass on one element: `style_tag.string = new_css` puts a
      single text child in place of the old ones. */
  function StyleTagPass(e: Node, mapping: map<string, string>, htmlDir: string): Node
    requires e.Element?
  {
    var css := TextOf(e.children);
    var newCss := RewriteCssUrls(css, mapping, htmlDir);
    if e.tag == "style" && newCss != css then e.(children := [Text(newCss)]) else e
  }

  /** `item.split()` for an entry of a `srcset`; the URL and the descriptor
      words. */
  function RewriteEntry(item: string, mapping: map<string, string>, htmlDir: string): string {
    var tokens := Words(item);
    if tokens == [] then item
    else
      var url := tokens[0];
      var descriptor := Join(tokens[1..], " ");
      if url in mapping then Strip(RelFromAbs(mapping[url], htmlDir) + (if descriptor != "" then " " + descriptor else ""))
      else item
  }

  /** The `srcset` rewrite: the non-blank entries, a mapped URL replaced by its
      relative path before the descriptor words, joined with ", ". */
  function RewriteSrcset(srcset: string, mapping: map<string, string>, htmlDir: string): string {
    var items := Entries(Split(srcset, ','));
    Join(seq(|items|, k requires 0 <= k < |items| => RewriteEntry(items[k], mapping, htmlDir)), ", ")
  }

  /** The `srcset` pass on one element: every non-empty `srcset` of an `img` or
      `source` is written back, rewritten or not. */
  function SrcsetPass(e: Node, mapping: map<string, string>, htmlDir: string): Node
    requires e.Element?
  {
    var srcset := Get(e.attrs, "srcset");
    if (e.tag == "img" || e.tag == "source") && srcset != "" then e.(attrs := SetAttr(e.attrs, "srcset", RewriteSrcset(srcset, mapping, htmlDir)))
    else e
  }

  datatype Pass = ImageSrc | LinkHref | StyleAttr | StyleTag | SrcsetAttr

  function Apply(p: Pass, e: Node, mapping: map<string, string>, htmlDir: string): Node {
    if !e.Element? then e
    else
      match p
      case ImageSrc => ImagePass(e, mapping, htmlDir)
      case LinkHref => LinkPass(e, mapping, htmlDir)
      case StyleAttr => StyleAttrPass(e, mapping, htmlDir)
      case StyleTag => StyleTagPass(e, mapping, htmlDir)
      case SrcsetAttr => SrcsetPass(e, mapping, htmlDir)
  }

  function RunPass(doc: seq<Node>, p: Pass, mapping: map<string, string>, htmlDir: string): seq<Node> {
    Edit(doc, e => Apply(p, e, mapping, htmlDir))
  }

  /** `rewrite_html` on a parsed page: the five passes, in order. */
  function RewriteHtml(doc: seq<Node>, mapping: map<string, string>, htmlDir: string): seq<Node> {
    var d1 := RunPass(doc, ImageSrc, mapping, htmlDir);
    var d2 := RunPass(d1, LinkHref, mapping, htmlDir);
    var d3 := RunPass(d2, StyleAttr, mapping, htmlDir);
    var d4 := RunPass(d3, StyleTag, mapping, htmlDir);
    RunPass(d4, SrcsetAttr, mapping, htmlDir)
  }

  /** A mapped image source becomes the path of its file relative to the
      page's directory; for a file stored under that directory, the part below
      it. Nothing else about the element changes. */
  lemma ImagePassMapped(e: Node, mapping: map<string, string>, htmlDir: string, rel: string)
    requires e.Element? && e.tag == "img"
    requires Get(e.attrs, "src") != "" && Get(e.attrs, "src") in mapping
    requires mapping[Get(e.attrs, "src")] == Paths.Join(htmlDir, rel) && rel != "" && rel[0] != '/'
    ensures var r := ImagePass(e, mapping, htmlDir);
      Get(r.attrs, "src") == rel && r.tag == e.tag && r.children == e.children &&
      forall other :: other != "src" ==> Get(r.attrs, other) == Get(e.attrs, other)
  {
    RelPathOfJoin(htmlDir, rel);
  }

  /** The same for the `href` of a stylesheet link. */
  lemma LinkPassMapped(e: Node, mapping: map<string, string>, htmlDir: string, rel: string)
    requires e.Element? && IsStylesheetLink(e)
    requires Get(e.attrs, "href") != "" && Get(e.attrs, "href") in mapping
    requires mapping[Get(e.attrs, "href")] == Paths.Join(htmlDir, rel) && rel != "" && rel[0] != '/'
    ensures var r := LinkPass(e, mapping, htmlDir);
      Get(r.attrs, "href") == rel && r.tag == e.tag && r.children == e.children &&
      forall other :: other != "href" ==> Get(r.attrs, other) == Get(e.attrs, other)
  {
    RelPathOfJoin(htmlDir, rel);
  }

  /** A `<style>` element's text becomes its rewritten text. */
  lemma StyleTagPassText(e: Node, mapping: map<string, string>, htmlDir: string)
    requires e.Element? && e.tag == "style"
    ensures TextOf(StyleTagPass(e, mapping, htmlDir).children) == RewriteCssUrls(TextOf(e.children), mapping, htmlDir)
  {
    var t := RewriteCssUrls(TextOf(e.children), mapping, htmlDir);
    assert TextOf([Text(t)]) == t + TextOf([]);
  }

  /** A `<style>` text that opens with `url(x)` for a mapped `x` opens, once
      rewritten, with `url(` and the relative path. */
  lemma StyleTagPassMapped(e: Node, mapping: map<string, string>, htmlDir: string, x: string, rest: string)
    requires e.Element? && e.tag == "style"
    requires TextOf(e.children) == "url(" + x + ")" + rest
    requires x != "" && ')' !in x && Unquoted(x) in mapping
    ensures TextOf(StyleTagPass(e, mapping, htmlDir).children)
      == "url(" + RelFromAbs(mapping[Unquoted(x)], htmlDir) + ")" + RewriteCssUrls(rest, mapping, htmlDir)
  {
    StyleTagPassText(e, mapping, htmlDir);
    RewriteMappedCall(x, rest, mapping, htmlDir);
  }

  /** An element none of whose references the first four passes look at is
      mapped. */
  predicate Unmapped(e: Node, mapping: map<string, string>)
    requires e.Element?
  {
    (e.tag == "img" ==> Get(e.attrs, "src") == "" || Get(e.attrs, "src") !in mapping) &&
    (IsStylesheetLink(e) ==> Get(e.attrs, "href") == "" || Get(e.attrs, "href") !in mapping) &&
    NoneMapped(UrlCalls(Get(e.attrs, "style")), mapping) &&
    (e.tag == "style" ==> NoneMapped(UrlCalls(TextOf(e.children)), mapping))
  }

  lemma UnmappedKept(p: Pass, e: Node, mapping: map<string, string>, htmlDir: string)
    requires p != SrcsetAttr && e.Element? && Unmapped(e, mapping)
    ensures Apply(p, e, mapping, htmlDir) == e
  {
    match p
    case StyleAttr => RewriteUnmapped(Get(e.attrs, "style"), mapping, htmlDir);
    case StyleTag =>
      if e.tag == "style" {
        RewriteUnmapped(TextOf(e.children), mapping, htmlDir);
      }
    case _ =>
  }

  lemma PassIdentity(doc: seq<Node>, p: Pass, mapping: map<string, string>, htmlDir: string)
    requires p != SrcsetAttr
    requires forall x :: x in Elements(doc) ==> x.Element? && Unmapped(x, mapping)
    ensures RunPass(doc, p, mapping, htmlDir) == doc
  {
    forall x | x in Elements(doc)
      ensures Apply(p, x, mapping, htmlDir) == x
    {
      UnmappedKept(p, x, mapping, htmlDir);
    }
    EditIdentity(doc, e => Apply(p, e, mapping, htmlDir));
  }

  /** When no image source, stylesheet link or CSS `url(...)` target of the page
      is mapped, `rewrite_html` changes nothing but the `srcset` values. */
  lemma RewriteHtmlUnmapped(doc: seq<Node>, mapping: map<string, string>, htmlDir: string)
    requires forall x :: x in Elements(doc) ==> x.Element? && Unmapped(x, mapping)
    ensures RewriteHtml(doc, mapping, htmlDir) == RunPass(doc, SrcsetAttr, mapping, htmlDir)
  {
    PassIdentity(doc, ImageSrc, mapping, htmlDir);
    PassIdentity(doc, LinkHref, mapping, htmlDir);
    PassIdentity(doc, StyleAttr, mapping, htmlDir);
    PassIdentity(doc, StyleTag, mapping, htmlDir);
  }

  // ---------------------------------------------------------------------------
  // `srcset` rewriting
  // ---------------------------------------------------------------------------

  lemma WordsOfCandidate(u: string)
    requires IsCandidate(u)
    ensures Words(u) == [u]
  {
    StripCandidate(u);
    assert LStripSpace(u) == u;
    assert IndexOfSpace(u) == |u|;
    assert u[|u|..] == [];
  }

  /** A candidate entry is replaced by the relative path of its file when it is
      mapped and kept otherwise. */
  lemma RewriteCandidate(u: string, mapping: map<string, string>, htmlDir: string)
    requires IsCandidate(u)
    ensures RewriteEntry(u, mapping, htmlDir) == if u in mapping then Strip(RelFromAbs(mapping[u], htmlDir)) else u
  {
    WordsOfCandidate(u);
    assert Words(u)[1..] == [];
    if u in mapping {
      assert RelFromAbs(mapping[u], htmlDir) + "" == RelFromAbs(mapping[u], htmlDir);
    }
  }

  /** A `srcset` written as candidates joined with ", " comes back with each
      mapped candidate replaced by its relative path and the others kept. */
  lemma RewriteSrcsetOfJoin(us: seq<string>, mapping: map<string, string>, htmlDir: string)
    requires forall k :: 0 <= k < |us| ==> IsCandidate(us[k])
    ensures RewriteSrcset(Join(us, ", "), mapping, htmlDir)
      == Join(seq(|us|, k requires 0 <= k < |us| => if us[k] in mapping then Strip(RelFromAbs(mapping[us[k]], htmlDir)) else us[k]), ", ")
  {
    EntriesOfJoined(us);
    var items := Entries(Split(Join(us, ", "), ','));
    var a := seq(|items|, k requires 0 <= k < |items| => RewriteEntry(items[k], mapping, htmlDir));
    var b := seq(|us|, k requires 0 <= k < |us| => if us[k] in mapping then Strip(RelFromAbs(mapping[us[k]], htmlDir)) else us[k]);
    forall k | 0 <= k < |us|
      ensures a[k] == b[k]
    {
      RewriteCandidate(us[k], mapping, htmlDir);
    }
    assert a == b;
  }

  /** An unmapped entry is kept as it is: with none mapped, the rewrite only
      drops blank entries and the spacing around the commas. */
  lemma RewriteSrcsetUnmapped(srcset: string, mapping: map<string, string>, htmlDir: string)
    requires forall k :: 0 <= k < |ParseSrcset(srcset)| ==> ParseSrcset(srcset)[k] !in mapping
    ensures RewriteSrcset(srcset, mapping, htmlDir) == Join(Entries(Split(srcset, ',')), ", ")
  {
    var items := Entries(Split(srcset, ','));
    EntriesNonBlank(Split(srcset, ','));
    var r := seq(|items|, k requires 0 <= k < |items| => RewriteEntry(items[k], mapping, htmlDir));
    forall k | 0 <= k < |items|
      ensures r[k] == items[k]
    {
      var item := items[k];
      assert ParseSrcset(srcset)[k] == FirstToken(item);
      assert LStripSpace(item) == item;
      assert Words(item) == [item[..IndexOfSpace(item)]] + Words(item[IndexOfSpace(item)..]);
    }
    assert r == items;
  }

  // ---------------------------------------------------------------------------
  // `embed_single_file`
  // ---------------------------------------------------------------------------

  /** What the embedding reads from outside: the files on disk, `abspath`
      (which depends on the working directory), `mimetypes.guess_type`, and
      the decoding of a file read as text with errors ignored. */
  datatype Outside = Outside(files: map<string, seq<Codec.byte>>, abspath: string -> string,
                             guessType: string -> Option<string>, decode: seq<Codec.byte> -> string)

  /** The file an image or stylesheet reference stands for: its mapped file, or
      the reference taken relative to the page's directory. */
  function LocalFile(ref: string, mapping: map<string, string>, htmlDir: string, out: Outside): string {
    if ref in mapping && mapping[ref] != "" then mapping[ref] else out.abspath(Paths.Join(htmlDir, ref))
  }

  const DefaultMime := "application/octet-stream"

  function MimeOf(path: string, out: Outside): string {
    var guess := out.guessType(path);
    if guess.Some? && guess.value != "" then guess.value else DefaultMime
  }

  /** An image is inlined when its file exists and is no larger than the
      limit. */
  predicate Inlinable(path: string, out: Outside, sizeLimit: int) {
    path in out.files && |out.files[path]| <= sizeLimit
  }

  function EmbedImage(e: Node, mapping: map<string, string>, htmlDir: string, out: Outside, sizeLimit: int): Node {
    if !e.Element? || e.tag != "img" || Get(e.attrs, "src") == "" then e
    else
      var src := Get(e.attrs, "src");
      var path := LocalFile(src, mapping, htmlDir, out);
      if Inlinable(path, out, sizeLimit) then e.(attrs := SetAttr(e.attrs, "src", Codec.DataUri(MimeOf(path, out), out.files[path])))
      else e
  }

  /** A stylesheet link whose file exists becomes a `<style>` element holding
      the file's text. */
  function InlineStylesheet(e: Node, mapping: map<string, string>, htmlDir: string, out: Outside): Node {
    if !e.Element? || !IsStylesheetLink(e) || Get(e.attrs, "href") == "" then e
    else
      var href := Get(e.attrs, "href");
      var path := LocalFile(href, mapping, htmlDir, out);
      if path !in out.files then e
      else Element("style", None, None, [], [Text(out.decode(out.files[path]))])
  }

  /** `embed_single_file` on a parsed page: the images, then the stylesheets. */
  function EmbedSingleFile(doc: seq<Node>, mapping: map<string, string>, htmlDir: string, out: Outside, sizeLimit: int): seq<Node> {
    var withImages := Edit(doc, e => EmbedImage(e, mapping, htmlDir, out, sizeLimit));
    Edit(withImages, e => InlineStylesheet(e, mapping, htmlDir, out))
  }

  /** `size_limit`'s default. */
  const DefaultSizeLimit := 1_500_000

  /** An inlined image's source is a base 64 data URI from which the file's
      bytes decode back. */
  lemma EmbedImageDecodes(e: Node, mapping: map<string, string>, htmlDir: string, out: Outside, sizeLimit: int)
    requires e.Element? && EmbedImage(e, mapping, htmlDir, out, sizeLimit) != e
    ensures var path := LocalFile(Get(e.attrs, "src"), mapping, htmlDir, out);
      var uri := Get(EmbedImage(e, mapping, htmlDir, out, sizeLimit).attrs, "src");
      var head := "data:" + MimeOf(path, out) + ";base64,";
      Inlinable(path, out, sizeLimit) && StartsWith(uri, head) &&
      Codec.IsEncoded(uri[|head|..]) && Codec.Decode(uri[|head|..]) == out.files[path]
  {
    var path := LocalFile(Get(e.attrs, "src"), mapping, htmlDir, out);
    var head := "data:" + MimeOf(path, out) + ";base64,";
    var data := out.files[path];
    Codec.DecodeEncode(data);
    var uri := Codec.DataUri(MimeOf(path, out), data);
    assert uri == head + Codec.Encode(data);
    assert uri[|head|..] == Codec.Encode(data);
  }

  predicate NothingToEmbed(x: Node, mapping: map<string, string>, htmlDir: string, out: Outside, sizeLimit: int)
    requires x.Element?
  {
    (x.tag == "img" && Get(x.attrs, "src") != "" ==> !Inlinable(LocalFile(Get(x.attrs, "src"), mapping, htmlDir, out), out, sizeLimit)) &&
    (IsStylesheetLink(x) && Get(x.attrs, "href") != "" ==> LocalFile(Get(x.attrs, "href"), mapping, htmlDir, out) !in out.files)
  }

  /** Nothing is embedded when no image's file can be inlined and no
      stylesheet's file exists. */
  lemma EmbedNothing(doc: seq<Node>, mapping: map<string, string>, htmlDir: string, out: Outside, sizeLimit: int)
    requires forall x :: x in Elements(doc) ==> x.Element? && NothingToEmbed(x, mapping, htmlDir, out, sizeLimit)
    ensures EmbedSingleFile(doc, mapping, htmlDir, out, sizeLimit) == doc
  {
    EditIdentity(doc, e => EmbedImage(e, mapping, htmlDir, out, sizeLimit));
    EditIdentity(doc, e => InlineStylesheet(e, mapping, htmlDir, out));
  }

  // ---------------------------------------------------------------------------
  // `rewrite_css_file`
  // ---------------------------------------------------------------------------

  /** The files after `rewrite_css_file`: a file that cannot be opened is left
      (the error is logged), and the file is written, UTF-8 encoded, only when
      the rewrite changed its text. */
  function CssFileAfter(files: map<string, seq<Codec.byte>>, cssPath: string, mapping: map<string, string>, htmlDir: string,
                        decode: seq<Codec.byte> -> string): (r: map<string, seq<Codec.byte>>)
    ensures r.Keys == files.Keys
    ensures forall p :: p in files && p != cssPath ==> r[p] == files[p]
  {
    if cssPath !in files then files
    else
      var css := decode(files[cssPath]);
      var newCss := RewriteCssUrls(css, mapping, htmlDir);
      if newCss != css then files[cssPath := Codec.Utf8Encode(newCss)] else files
  }

  /** A stylesheet none of whose `url(...)` targets is mapped is not written. */
  lemma CssFileUnmapped(files: map<string, seq<Codec.byte>>, cssPath: string, mapping: map<string, string>, htmlDir: string,
                        decode: seq<Codec.byte> -> string)
    requires cssPath in files ==> NoneMapped(UrlCalls(decode(files[cssPath])), mapping)
    ensures CssFileAfter(files, cssPath, mapping, htmlDir, decode) == files
  {
    if cssPath in files {
      RewriteUnmapped(decode(files[cssPath]), mapping, htmlDir);
    }
  }

  /** `rewrite_css_file`. */
  method RewriteCssFile(store: Store, cssPath: string, mapping: map<string, string>, htmlDir: string, decode: seq<Codec.byte> -> string)
    modifies store
    ensures store.files == CssFileAfter(old(store.files), cssPath, mapping, htmlDir, decode)
  {
    if cssPath !in store.files {
      return;
    }
    var css := decode(store.files[cssPath]);
    var newCss := RewriteCssUrls(css, mapping, htmlDir);
    if newCss != css {
      store.files := store.files[cssPath := Codec.Utf8Encode(newCss)];
    }
  }
}
