/** `AssetCollector.collect`: the images and stylesheets a cleaned page refers
    to, each URL resolved against the page's URL, one asset per URL. */
module AssetCollector {
  import opened Strings
  import opened Wrappers
  import Url
  import opened HtmlTree
  import opened Assets

  // ---------------------------------------------------------------------------
  // The references of a document
  // ---------------------------------------------------------------------------

  /** The elements of a document in document order (pre-order), as `find_all`
      visits them. */
  function Elements(ns: seq<Node>): seq<Node>
    decreases ns
  {
    if ns == [] then []
    else
      var x := ns[0];
      (if x.Element? then [x] + Elements(x.children) else []) + Elements(ns[1..])
  }

  /** `get_text()`: the text nodes below, in order; comments are not text. */
  function TextOf(ns: seq<Node>): string
    decreases ns
  {
    if ns == [] then ""
    else
      var x := ns[0];
      (match x
       case Text(t) => t
       case Comment(_) => ""
       case Element(_, _, _, _, children) => TextOf(children))
      + TextOf(ns[1..])
  }

  /** A reference found in the document, before it is resolved. */
  datatype Ref = Ref(raw: string, kind: Kind, source: Source)

  /** The test every reference passes: non-empty and not starting with "data:"
      (in this case only). */
  predicate Wanted(raw: string) {
    raw != "" && !StartsWith(raw, "data:")
  }

  /** The wanted URLs of a list, as references of one kind and source. */
  function RefsOf(us: seq<string>, kind: Kind, source: Source): (r: seq<Ref>)
    ensures forall k :: 0 <= k < |r| ==> Wanted(r[k].raw) && r[k].kind == kind && r[k].source == source
  {
    if us == [] then []
    else (if Wanted(us[0]) then [Ref(us[0], kind, source)] else []) + RefsOf(us[1..], kind, source)
  }

  /** The filter `rel=lambda v: v and 'stylesheet' in v`: the test is applied to
      each token of the `rel` attribute and to their join, so a token that
      merely contains "stylesheet" also matches. */
  predicate IsStylesheetLink(e: Node)
    requires e.Element?
  {
    e.tag == "link" && Contains(Get(e.attrs, "rel"), "stylesheet")
  }

  /** The candidates of a non-empty `srcset`, as image references. */
  function SrcsetRefs(srcset: string): seq<Ref> {
    if srcset == "" then [] else RefsOf(Assets.ParseSrcset(srcset), Image, Srcset)
  }

  /** What the image query finds in one element: `src`, then its `srcset`. */
  function ImageRefs(e: Node): seq<Ref> {
    if e.Element? && e.tag == "img" then RefsOf([Get(e.attrs, "src")], Image, Src) + SrcsetRefs(Get(e.attrs, "srcset"))
    else []
  }

  /** What the stylesheet query finds in one element. */
  function LinkRefs(e: Node): seq<Ref> {
    if e.Element? && IsStylesheetLink(e) then RefsOf([Get(e.attrs, "href")], Stylesheet, Href) else []
  }

  /** What the `source` query finds in one element. */
  function SourceRefs(e: Node): seq<Ref> {
    if e.Element? && e.tag == "source" then SrcsetRefs(Get(e.attrs, "srcset")) else []
  }

  /** What the `style` attribute query finds in one element. */
  function StyleAttrRefs(e: Node): seq<Ref> {
    if e.Element? then RefsOf(Assets.ExtractCssUrls(Get(e.attrs, "style")), Image, Style) else []
  }

  /** What the `<style>` query finds in one element. */
  function StyleTagRefs(e: Node): seq<Ref> {
    if e.Element? && e.tag == "style" then RefsOf(Assets.ExtractCssUrls(TextOf(e.children)), Image, Style) else []
  }

  datatype Query = Images | Links | Sources | StyleAttrs | StyleTags

  function QueryRefs(q: Query, e: Node): seq<Ref> {
    match q
    case Images => ImageRefs(e)
    case Links => LinkRefs(e)
    case Sources => SourceRefs(e)
    case StyleAttrs => StyleAttrRefs(e)
    case StyleTags => StyleTagRefs(e)
  }

  /** One query run over the elements, in document order. */
  function Gather(q: Query, els: seq<Node>): seq<Ref> {
    if els == [] then [] else QueryRefs(q, els[0]) + Gather(q, els[1..])
  }

  /** Every reference `collect` resolves, in the order it resolves them: the five
      queries one after another, each over the whole document. */
  function Refs(doc: seq<Node>): seq<Ref> {
    var els := Elements(doc);
    Gather(Images, els) + Gather(Links, els) + Gather(Sources, els) + Gather(StyleAttrs, els) + Gather(StyleTags, els)
  }

  lemma {:induction false} GatherWanted(q: Query, els: seq<Node>)
    ensures forall k :: 0 <= k < |Gather(q, els)| ==> Wanted(Gather(q, els)[k].raw)
    decreases |els|
  {
    if els != [] {
      GatherWanted(q, els[1..]);
      var h := QueryRefs(q, els[0]);
      assert forall k :: 0 <= k < |h| ==> Wanted(h[k].raw);
    }
  }

  /** No reference is empty or a data URL written with a lower-case scheme. */
  lemma RefsWanted(doc: seq<Node>)
    ensures forall k :: 0 <= k < |Refs(doc)| ==> Wanted(Refs(doc)[k].raw)
  {
    var els := Elements(doc);
    GatherWanted(Images, els);
    GatherWanted(Links, els);
    GatherWanted(Sources, els);
    GatherWanted(StyleAttrs, els);
    GatherWanted(StyleTags, els);
  }

  // ---------------------------------------------------------------------------
  // Resolution and de-duplication
  // ---------------------------------------------------------------------------

  /** `urljoin(page_url, raw)` for each reference in turn, `join` standing for
      `urljoin`; the first URL that does not parse raises, and so ends the
      collection. */
  function Resolve(refs: seq<Ref>, pageUrl: string, join: (string, string) -> Result<string>): Result<seq<Asset>>
    decreases |refs|
  {
    if refs == [] then Ok([])
    else
      match Resolve(refs[..|refs| - 1], pageUrl, join)
      case Err(e) => Err(e)
      case Ok(assets) =>
        var x := refs[|refs| - 1];
        match join(pageUrl, x.raw)
        case Err(e) => Err(e)
        case Ok(u) => Ok(assets + [Asset(u, x.kind, x.source)])
  }

  lemma InitOfSnoc<T>(xs: seq<T>, i: nat)
    requires i < |xs|
    ensures xs[..i + 1][..i] == xs[..i] && xs[..i + 1][i] == xs[i] && |xs[..i + 1]| == i + 1
  {
  }

  /** Resolution succeeds exactly when every reference joins, and then yields
      one asset per reference, in order, with the joined URL. */
  lemma {:induction false} ResolveMeaning(refs: seq<Ref>, pageUrl: string, join: (string, string) -> Result<string>)
    ensures Resolve(refs, pageUrl, join).Ok? <==> forall i :: 0 <= i < |refs| ==> join(pageUrl, refs[i].raw).Ok?
    ensures Resolve(refs, pageUrl, join).Ok? ==>
      var assets := Resolve(refs, pageUrl, join).value;
      |assets| == |refs| &&
      forall i :: 0 <= i < |refs| ==>
        join(pageUrl, refs[i].raw) == Ok(assets[i].url) && assets[i].kind == refs[i].kind && assets[i].source == refs[i].source
    decreases |refs|
  {
    if refs != [] {
      var n := |refs| - 1;
      var init := refs[..n];
      ResolveMeaning(init, pageUrl, join);
      assert forall i :: 0 <= i < n ==> init[i] == refs[i];
    }
  }

  /** Once a prefix fails to resolve, every longer prefix fails the same way. */
  lemma {:induction false} ResolveErrSticks(refs: seq<Ref>, i: nat, pageUrl: string, join: (string, string) -> Result<string>)
    requires i <= |refs| && Resolve(refs[..i], pageUrl, join).Err?
    ensures Resolve(refs, pageUrl, join) == Resolve(refs[..i], pageUrl, join)
    decreases |refs| - i
  {
    if i < |refs| {
      InitOfSnoc(refs, i);
      ResolveErrSticks(refs, i + 1, pageUrl, join);
    } else {
      assert refs[..i] == refs;
    }
  }

  /** The URLs of the assets, in order. */
  function Urls(assets: seq<Asset>): (r: seq<string>)
    ensures |r| == |assets| && forall i :: 0 <= i < |assets| ==> r[i] == assets[i].url
  {
    seq(|assets|, i requires 0 <= i < |assets| => assets[i].url)
  }

  /** The distinct URLs, in the order they first appear: the keys of the
      de-duplicating dictionary. */
  function Keys(assets: seq<Asset>): seq<string>
    decreases |assets|
  {
    if assets == [] then []
    else
      var ks := Keys(assets[..|assets| - 1]);
      var u := assets[|assets| - 1].url;
      if u in ks then ks else ks + [u]
  }

  /** The dictionary's values: for each URL, the last asset with it. */
  function LastMap(assets: seq<Asset>): map<string, Asset>
    decreases |assets|
  {
    if assets == [] then map[]
    else
      var a := assets[|assets| - 1];
      LastMap(assets[..|assets| - 1])[a.url := a]
  }

  predicate Distinct(us: seq<string>) {
    forall i, j :: 0 <= i < j < |us| ==> us[i] != us[j]
  }

  /** The keys are distinct, and they are the URLs of the assets, which are
      the keys of the map. */
  lemma {:induction false} KeysMeaning(assets: seq<Asset>)
    ensures Distinct(Keys(assets))
    ensures forall u :: u in Keys(assets) <==> u in LastMap(assets)
    ensures forall u :: u in LastMap(assets) <==> u in Urls(assets)
    decreases |assets|
  {
    if assets != [] {
      var n := |assets| - 1;
      var init := assets[..n];
      KeysMeaning(init);
      assert Urls(assets) == Urls(init) + [assets[n].url];
    }
  }

  /** The last index at which `u` occurs. */
  predicate LastAt(assets: seq<Asset>, j: int, u: string) {
    0 <= j < |assets| && assets[j].url == u && forall j' :: j < j' < |assets| ==> assets[j'].url != u
  }

  /** The value kept for a URL is its last occurrence. */
  lemma {:induction false} LastMapIsLast(assets: seq<Asset>, u: string) returns (j: int)
    requires u in LastMap(assets)
    ensures LastAt(assets, j, u) && assets[j] == LastMap(assets)[u]
    decreases |assets|
  {
    var n := |assets| - 1;
    var init := assets[..n];
    if assets[n].url == u {
      j := n;
    } else {
      j := LastMapIsLast(init, u);
      assert assets[j] == init[j];
      assert forall j' :: j < j' < n ==> assets[j'].url == init[j'].url;
    }
  }

  /** `list(dedup.values())`. */
  function Dedup(assets: seq<Asset>): seq<Asset> {
    var ks := Keys(assets);
    var m := LastMap(assets);
    KeysMeaning(assets);
    seq(|ks|, k requires 0 <= k < |ks| => m[ks[k]])
  }

  /** The de-duplicated assets have pairwise distinct URLs; a URL is among them
      exactly when some asset has it; each is the last asset with its URL. */
  lemma DedupMeaning(assets: seq<Asset>)
    ensures Distinct(Urls(Dedup(assets)))
    ensures forall u :: u in Urls(Dedup(assets)) <==> u in Urls(assets)
    ensures forall k :: 0 <= k < |Dedup(assets)| ==> exists j :: LastAt(assets, j, Dedup(assets)[k].url) && assets[j] == Dedup(assets)[k]
  {
    var ks := Keys(assets);
    var r := Dedup(assets);
    KeysMeaning(assets);
    forall k | 0 <= k < |r|
      ensures r[k].url == ks[k] && exists j :: LastAt(assets, j, r[k].url) && assets[j] == r[k]
    {
      var j := LastMapIsLast(assets, ks[k]);
    }
    assert Urls(r) == ks;
  }

  /** What `collect` returns for a parsed page. */
  function Collected(doc: seq<Node>, pageUrl: string, join: (string, string) -> Result<string>): Result<seq<Asset>> {
    match Resolve(Refs(doc), pageUrl, join)
    case Err(e) => Err(e)
    case Ok(assets) => Ok(Dedup(assets))
  }

  /** The collected assets have distinct URLs; every one is the join of the
      page URL with a reference of the page, and every reference's join is
      among them. */
  lemma CollectedMeaning(doc: seq<Node>, pageUrl: string, join: (string, string) -> Result<string>)
    requires Collected(doc, pageUrl, join).Ok?
    ensures Distinct(Urls(Collected(doc, pageUrl, join).value))
    ensures forall u :: u in Urls(Collected(doc, pageUrl, join).value) <==>
      exists i :: 0 <= i < |Refs(doc)| && join(pageUrl, Refs(doc)[i].raw) == Ok(u)
  {
    var refs := Refs(doc);
    ResolveMeaning(refs, pageUrl, join);
    var assets := Resolve(refs, pageUrl, join).value;
    DedupMeaning(assets);
    forall u
      ensures u in Urls(assets) <==> exists i :: 0 <= i < |refs| && join(pageUrl, refs[i].raw) == Ok(u)
    {
      if u in Urls(assets) {
        var i :| 0 <= i < |assets| && Urls(assets)[i] == u;
        assert join(pageUrl, refs[i].raw) == Ok(u);
      }
    }
  }

  /** For a URL several references join to, the kind and source come from the
      last of them. */
  lemma CollectedLastWins(doc: seq<Node>, pageUrl: string, join: (string, string) -> Result<string>, k: nat)
    requires Collected(doc, pageUrl, join).Ok? && k < |Collected(doc, pageUrl, join).value|
    ensures var a := Collected(doc, pageUrl, join).value[k];
      var refs := Refs(doc);
      exists j :: 0 <= j < |refs| && join(pageUrl, refs[j].raw) == Ok(a.url) &&
        a.kind == refs[j].kind && a.source == refs[j].source &&
        forall j' :: j < j' < |refs| ==> join(pageUrl, refs[j'].raw) != Ok(a.url)
  {
    var refs := Refs(doc);
    ResolveMeaning(refs, pageUrl, join);
    var assets := Resolve(refs, pageUrl, join).value;
    DedupMeaning(assets);
    var a := Dedup(assets)[k];
    var j :| LastAt(assets, j, a.url) && assets[j] == a;
    assert join(pageUrl, refs[j].raw) == Ok(a.url);
  }

  /** The first loop of `collect`: each reference joined in order. */
  method ResolveRefs(refs: seq<Ref>, pageUrl: string, join: (string, string) -> Result<string>) returns (r: Result<seq<Asset>>)
    ensures r == Resolve(refs, pageUrl, join)
  {
    var assets: seq<Asset> := [];
    for i := 0 to |refs|
      invariant Resolve(refs[..i], pageUrl, join) == Ok(assets)
    {
      InitOfSnoc(refs, i);
      var joined := join(pageUrl, refs[i].raw);
      if joined.Err? {
        ResolveErrSticks(refs, i + 1, pageUrl, join);
        return Err(joined.error);
      }
      assets := assets + [Asset(joined.value, refs[i].kind, refs[i].source)];
    }
    assert refs[..|refs|] == refs;
    r := Ok(assets);
  }

  /** The second loop of `collect`: the dictionary from URL to asset, filled in
      order, and its values. */
  method DedupAssets(assets: seq<Asset>) returns (r: seq<Asset>)
    ensures r == Dedup(assets)
  {
    var keys: seq<string> := [];
    var latest: map<string, Asset> := map[];
    for j := 0 to |assets|
      invariant keys == Keys(assets[..j]) && latest == LastMap(assets[..j])
    {
      InitOfSnoc(assets, j);
      KeysMeaning(assets[..j]);
      if assets[j].url !in latest {
        keys := keys + [assets[j].url];
      }
      latest := latest[assets[j].url := assets[j]];
    }
    assert assets[..|assets|] == assets;
    KeysMeaning(assets);
    r := seq(|keys|, k requires 0 <= k < |keys| => latest[keys[k]]);
  }

  /** `collect` on a parsed page. */
  method Collect(doc: seq<Node>, pageUrl: string) returns (r: Result<seq<Asset>>)
    ensures r == Collected(doc, pageUrl, Url.UrlJoin)
  {
    var resolved := ResolveRefs(Refs(doc), pageUrl, Url.UrlJoin);
    if resolved.Err? {
      return Err(resolved.error);
    }
    var assets := DedupAssets(resolved.value);
    r := Ok(assets);
  }
}
