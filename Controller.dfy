/** `ArchaicController`: discovery, the resume check against the manifest, and
    for each capture the retrieve, clean, offline-asset, save and PDF steps,
    each logged to the manifest, run serially under a stop flag. */
module Controller {
  import opened Wrappers
  import opened Strings
  import Paths
  import Codec
  import Url
  import Validators
  import FileManager
  import M = Manifest
  import RateLimiter
  import CdxClient
  import HtmlRetriever
  import HtmlTree
  import opened Assets
  import AssetCollector
  import AssetDownloader
  import AssetRewriter

  /** `RunConfig`. */
  datatype RunConfig = RunConfig(
    baseUrl: string,
    outputDir: string,
    delaySecs: real,
    maxRetries: int,
    offlineAssets: bool,
    singleFileHtml: bool,
    concurrency: int,
    maxPages: int)

  /** A configuration with every field but the base URL at its default. */
  function DefaultConfig(baseUrl: string): RunConfig {
    RunConfig(baseUrl, "output", 1.5, 3, true, false, 1, 0)
  }

  // ---------------------------------------------------------------------------
  // The shared rate limiter
  // ---------------------------------------------------------------------------

  const MinDelay: real := 0.1
  const LimiterBurst: nat := 1
  const LimiterJitterMs: int := 300

  /** The limiter's rate: one token per `delay_secs`, never more than ten a
      second. */
  function LimiterRate(delaySecs: real): (r: real)
    ensures 0.0 < r <= 10.0
    ensures delaySecs >= MinDelay ==> r * delaySecs == 1.0
    ensures delaySecs <= MinDelay ==> r == 10.0
  {
    if delaySecs >= MinDelay then 1.0 / delaySecs else 1.0 / MinDelay
  }

  // ---------------------------------------------------------------------------
  // Counters
  // ---------------------------------------------------------------------------

  /** What `process_one` adds to the counters: (downloaded, cleaned, pdf,
      failed). */
  datatype Tally = Tally(downloaded: nat, cleaned: nat, pdf: nat, failed: nat)

  const Untouched := Tally(0, 0, 0, 0)
  const StepFailed := Tally(0, 0, 0, 1)
  const PdfFailed := Tally(1, 1, 0, 1)
  const Finished := Tally(1, 1, 1, 0)

  /** The four tuples `process_one` can return. */
  predicate Possible(t: Tally) {
    t == Untouched || t == StepFailed || t == PdfFailed || t == Finished
  }

  function Add(a: Tally, b: Tally): Tally {
    Tally(a.downloaded + b.downloaded, a.cleaned + b.cleaned, a.pdf + b.pdf, a.failed + b.failed)
  }

  /** The counters after adding the tallies in order. */
  function Sum(ts: seq<Tally>): Tally
    decreases |ts|
  {
    if ts == [] then Untouched else Add(Sum(ts[..|ts| - 1]), ts[|ts| - 1])
  }

  /** Over tallies `process_one` can return, as many pages were downloaded as
      were cleaned, and each page counts at most once towards pdf or failed. */
  lemma {:induction false} SumOfPossible(ts: seq<Tally>)
    requires forall i :: 0 <= i < |ts| ==> Possible(ts[i])
    ensures Sum(ts).downloaded == Sum(ts).cleaned
    ensures Sum(ts).pdf + Sum(ts).failed <= |ts|
    ensures Sum(ts).pdf <= Sum(ts).downloaded
    decreases |ts|
  {
    if ts != [] {
      SumOfPossible(ts[..|ts| - 1]);
    }
  }

  /** `run`'s result. */
  datatype Stats = Stats(discovered: nat, downloaded: nat, cleaned: nat, pdf: nat, failed: nat)

  function StatsOf(discovered: nat, t: Tally): Stats {
    Stats(discovered, t.downloaded, t.cleaned, t.pdf, t.failed)
  }

  /** The four counters of `run` after adding one item's tally. */
  function Counted(s: Stats, t: Tally): Stats {
    Stats(s.discovered, s.downloaded + t.downloaded, s.cleaned + t.cleaned, s.pdf + t.pdf, s.failed + t.failed)
  }

  /** Counting one more tally is adding it to the sum. */
  lemma CountedSum(discovered: nat, ts: seq<Tally>, t: Tally)
    ensures Counted(StatsOf(discovered, Sum(ts)), t) == StatsOf(discovered, Sum(ts + [t]))
  {
    assert (ts + [t])[..|ts|] == ts;
  }

  // ---------------------------------------------------------------------------
  // Discovery cap and resume key
  // ---------------------------------------------------------------------------

  /** The pages processed: the first `max_pages` when that is positive and
      fewer than were discovered, otherwise all of them. */
  function Cap(pages: seq<CdxClient.Capture>, maxPages: int): (r: seq<CdxClient.Capture>)
    ensures r <= pages
    ensures |r| == if 0 < maxPages < |pages| then maxPages else |pages|
  {
    if maxPages > 0 && |pages| > maxPages then pages[..maxPages] else pages
  }

  /** The resume key of a capture from `normalize_host`'s verdict on its URL:
      the normalised URL when valid, else the URL as discovered, with the
      timestamp. */
  function KeyFor(v: Validators.Validation, url: string, timestamp: string): M.Key {
    (if v.ok then v.normalized else url, Some(timestamp))
  }

  // ---------------------------------------------------------------------------
  // Manifest records written by process_one
  // ---------------------------------------------------------------------------

  const Discovered := "discovered"
  const DownloadFailedError := "download_failed"
  const CleanFailedError := "clean_failed"
  const PdfFailedError := "pdf_failed"

  function DiscoveredRecord(page: CdxClient.Capture, nkey: string, now: real): M.Record {
    M.Record(page.url, nkey, page.timestamp, page.waybackUrl, Discovered, None, None, now, 0.0, None)
  }

  function FailedRecord(page: CdxClient.Capture, nkey: string, error: string, htmlPath: Option<string>, pdfPath: Option<string>, now: real): M.Record {
    M.Record(page.url, nkey, page.timestamp, page.waybackUrl, M.Failed, htmlPath, pdfPath, now, now, Some(error))
  }

  function CompletedRecord(page: CdxClient.Capture, nkey: string, htmlPath: string, pdfPath: string, now: real): M.Record {
    M.Record(page.url, nkey, page.timestamp, page.waybackUrl, M.Completed, Some(htmlPath), Some(pdfPath), now, now, None)
  }

  /** The record that ends an item, against the tally the item returned. */
  predicate Terminal(rec: M.Record, t: Tally) {
    (t == StepFailed && rec.status == M.Failed && (rec.error == Some(DownloadFailedError) || rec.error == Some(CleanFailedError)))
    || (t == PdfFailed && rec.status == M.Failed && rec.error == Some(PdfFailedError) && rec.pdfPath.Some?)
    || (t == Finished && rec.status == M.Completed && rec.error == None && rec.htmlPath.Some? && rec.pdfPath.Some?)
  }

  /** The lines an item that was not skipped adds: its 'discovered' record,
      then, unless an exception escaped, exactly one terminal record for the
      same capture. */
  predicate Logged(added: seq<M.Line>, page: CdxClient.Capture, nkey: string, r: Result<Tally>) {
    |added| >= 1 && added[0].Entry? && added[0].rec.status == Discovered
    && added[0].rec.url == page.url && added[0].rec.normalizedUrl == nkey && added[0].rec.timestamp == page.timestamp
    && (r.Err? ==> |added| == 1)
    && (r.Ok? ==> |added| == 2 && added[1].Entry? && Terminal(added[1].rec, r.value)
                  && M.RecordKey(added[1].rec) == (nkey, Some(page.timestamp)) && added[1].rec.url == page.url)
  }

  /** Lines appended after `before`, seen as a slice of the whole. */
  lemma Appended(before: seq<M.Line>, after: seq<M.Line>, added: seq<M.Line>)
    requires after == before + added
    ensures after[..|before|] == before && after[|before|..] == added
  {
  }

  /** What one call of `process_one` did to the manifest: nothing when the
      item was skipped, else the lines `Logged` describes appended. */
  predicate Effect(before: seq<M.Line>, after: seq<M.Line>, page: CdxClient.Capture, key: M.Key, skipped: bool,
                   r: Result<Tally>, entry: Option<Processed>)
  {
    if skipped then r == Ok(Untouched) && entry == None && after == before
    else r != Ok(Untouched) && |before| < |after| && after[..|before|] == before && Logged(after[|before|..], page, key.0, r)
  }

  /** An entry of the list handed to `generate_index_file`. */
  datatype Processed = Processed(url: string, timestamp: string, htmlPath: string, pdfPath: string)

  // ---------------------------------------------------------------------------
  // The deep CSS pass
  // ---------------------------------------------------------------------------

  /** Which of two behaviours is modelled where the code as written raises: the
      code as written, or the evidently intended one. */
  datatype Build = AsWritten | Intended

  /** `u.lower().endswith('.css')`. */
  predicate IsCssUrl(u: string) {
    EndsWith(Lower(u), ".css")
  }

  /** The mapping's keys, in insertion order, that name stylesheets. The
      collected assets have distinct URLs, so the order of the mapping's keys
      is the order of the assets that arrived. */
  function CssKeys(assets: seq<Asset>, mapping: map<string, string>): (r: seq<string>)
    ensures forall k :: 0 <= k < |r| ==> r[k] in mapping && IsCssUrl(r[k])
    ensures forall i :: 0 <= i < |assets| && assets[i].url in mapping && IsCssUrl(assets[i].url) ==> assets[i].url in r
    decreases |assets|
  {
    if assets == [] then []
    else
      var rest := CssKeys(assets[..|assets| - 1], mapping);
      var u := assets[|assets| - 1].url;
      if u in mapping && IsCssUrl(u) then rest + [u] else rest
  }

  /** `extract_css_dependencies` as the pass calls it: the method is missing
      as written, so the call raises; the intended one lists the stylesheet's
      non-data URLs. */
  function Dependencies(build: Build, css: string): (r: Result<seq<string>>)
    ensures build == AsWritten ==> r.Err?
    ensures build == Intended ==> r == Ok(ExtractCssDependencies(css))
  {
    match build
    case AsWritten => ExtractCssDependenciesAsWritten(css)
    case Intended => Ok(ExtractCssDependencies(css))
  }

  /** What the deep CSS pass works with besides the mapping and the files:
      the asset directory, the page's directory, the capture time, the archive
      request, the text read and which behaviour of the dependency call. */
  datatype CssEnv = CssEnv(assetsDir: string, htmlDir: string, timestamp: string,
                           fetch: string -> Option<seq<Codec.byte>>, decode: seq<Codec.byte> -> string, build: Build)

  /** The dependencies as assets to download: `Asset(url=…, type='image', attr='css')`. */
  function DepRefs(deps: seq<string>): (r: seq<AssetCollector.Ref>)
    ensures |r| == |deps| && forall k :: 0 <= k < |deps| ==> r[k] == AssetCollector.Ref(deps[k], Image, Css)
  {
    seq(|deps|, k requires 0 <= k < |deps| => AssetCollector.Ref(deps[k], Image, Css))
  }

  function DownloadEnv(e: CssEnv): AssetDownloader.Env {
    AssetDownloader.Env(e.assetsDir, e.timestamp, e.fetch, LocalName)
  }

  /** The body of the pass for one stylesheet: read the file, list its
      dependencies, resolve them against the stylesheet's URL, download them,
      merge them into the mapping and rewrite the file. A step that raises
      ends the body with the mapping as it was and the files as they are at
      that point. */
  function DeepStep(e: CssEnv, cssUrl: string, m: map<string, string>, files: map<string, seq<Codec.byte>>)
    : (map<string, string>, map<string, seq<Codec.byte>>)
  {
    if cssUrl !in m || m[cssUrl] !in files then (m, files)
    else
      var localCss := m[cssUrl];
      match Dependencies(e.build, e.decode(files[localCss]))
      case Err(_) => (m, files)
      case Ok(deps) =>
        match AssetCollector.Resolve(DepRefs(deps), cssUrl, Url.UrlJoin)
        case Err(_) => (m, files)
        case Ok(depAssets) =>
          var p := AssetDownloader.Downloading(depAssets, DownloadEnv(e), files);
          if p.mapping.Err? then (m, p.files)
          else
            var m2 := m + p.mapping.value;
            (m2, AssetRewriter.CssFileAfter(p.files, localCss, m2, e.htmlDir, e.decode))
  }

  /** The pass over the stylesheets `keys`, in order. */
  function DeepCss(e: CssEnv, keys: seq<string>, mapping: map<string, string>, files: map<string, seq<Codec.byte>>)
    : (map<string, string>, map<string, seq<Codec.byte>>)
    decreases |keys|
  {
    if keys == [] then (mapping, files)
    else
      var s := DeepCss(e, keys[..|keys| - 1], mapping, files);
      DeepStep(e, keys[|keys| - 1], s.0, s.1)
  }

  /** As written every dependency call raises, so the pass changes nothing. */
  lemma {:induction false} DeepCssAsWritten(e: CssEnv, keys: seq<string>, mapping: map<string, string>, files: map<string, seq<Codec.byte>>)
    requires e.build == AsWritten
    ensures DeepCss(e, keys, mapping, files) == (mapping, files)
    decreases |keys|
  {
    if keys != [] {
      DeepCssAsWritten(e, keys[..|keys| - 1], mapping, files);
    }
  }

  /** As intended, a stylesheet that is on disk and whose dependencies
      resolve and download has its dependencies resolved against its own URL,
      the downloaded ones merged into the mapping, and the stylesheet
      rewritten with the updated mapping. */
  lemma DeepStepIntended(e: CssEnv, cssUrl: string, m: map<string, string>, files: map<string, seq<Codec.byte>>,
                         deps: seq<string>, depAssets: seq<Asset>)
    requires e.build == Intended && cssUrl in m && m[cssUrl] in files
    requires deps == ExtractCssDependencies(e.decode(files[m[cssUrl]]))
    requires AssetCollector.Resolve(DepRefs(deps), cssUrl, Url.UrlJoin) == Ok(depAssets)
    requires AssetDownloader.Downloading(depAssets, DownloadEnv(e), files).mapping.Ok?
    ensures |depAssets| == |deps|
    ensures forall i :: 0 <= i < |deps| ==> Url.UrlJoin(cssUrl, deps[i]) == Ok(depAssets[i].url)
    ensures var p := AssetDownloader.Downloading(depAssets, DownloadEnv(e), files);
      DeepStep(e, cssUrl, m, files)
        == (m + p.mapping.value, AssetRewriter.CssFileAfter(p.files, m[cssUrl], m + p.mapping.value, e.htmlDir, e.decode))
  {
    AssetCollector.ResolveMeaning(DepRefs(deps), cssUrl, Url.UrlJoin);
  }

  /** After such a step every dependency that arrived is in the mapping, maps
      to the asset directory joined with its local name, and that file is on disk. */
  lemma DeepStepArrived(e: CssEnv, cssUrl: string, m: map<string, string>, files: map<string, seq<Codec.byte>>,
                        deps: seq<string>, depAssets: seq<Asset>)
    requires e.build == Intended && cssUrl in m && m[cssUrl] in files
    requires deps == ExtractCssDependencies(e.decode(files[m[cssUrl]]))
    requires AssetCollector.Resolve(DepRefs(deps), cssUrl, Url.UrlJoin) == Ok(depAssets)
    requires AssetDownloader.Downloading(depAssets, DownloadEnv(e), files).mapping.Ok?
    ensures var r := DeepStep(e, cssUrl, m, files);
      forall i :: 0 <= i < |depAssets| && AssetDownloader.Arrived(depAssets[i], DownloadEnv(e)) ==>
        && depAssets[i].url in r.0
        && r.0[depAssets[i].url] == Paths.Join(e.assetsDir, LocalName(depAssets[i].url).value)
        && r.0[depAssets[i].url] in r.1
  {
    var env := DownloadEnv(e);
    var p := AssetDownloader.Downloading(depAssets, env, files);
    DeepStepIntended(e, cssUrl, m, files, deps, depAssets);
    var m2 := m + p.mapping.value;
    var f2 := AssetRewriter.CssFileAfter(p.files, m[cssUrl], m2, e.htmlDir, e.decode);
    assert DeepStep(e, cssUrl, m, files) == (m2, f2);
    AssetDownloader.DownloadingKeys(depAssets, env, files);
    AssetDownloader.DownloadingPaths(depAssets, env, files);
    forall i | 0 <= i < |depAssets| && AssetDownloader.Arrived(depAssets[i], env)
      ensures depAssets[i].url in m2 && m2[depAssets[i].url] == Paths.Join(e.assetsDir, LocalName(depAssets[i].url).value)
        && m2[depAssets[i].url] in f2
    {
      var u := depAssets[i].url;
      assert u in p.mapping.value;
      assert m2[u] == p.mapping.value[u];
    }
  }

  /** `m2` and `files2` extend `m` and `files`, and every entry of `m2` not
      carried over from `m` maps its URL to the file under `assetsDir` named by
      the URL's local name, which is on disk. */
  predicate AddsLocal(assetsDir: string, m: map<string, string>, files: map<string, seq<Codec.byte>>,
                      m2: map<string, string>, files2: map<string, seq<Codec.byte>>)
  {
    && m.Keys <= m2.Keys
    && files.Keys <= files2.Keys
    && forall u :: u in m2 ==>
         (u in m && m2[u] == m[u])
         || (LocalName(u).Ok? && m2[u] == Paths.Join(assetsDir, LocalName(u).value) && m2[u] in files2)
  }

  lemma AddsLocalTrans(assetsDir: string, m1: map<string, string>, f1: map<string, seq<Codec.byte>>,
                       m2: map<string, string>, f2: map<string, seq<Codec.byte>>,
                       m3: map<string, string>, f3: map<string, seq<Codec.byte>>)
    requires AddsLocal(assetsDir, m1, f1, m2, f2) && AddsLocal(assetsDir, m2, f2, m3, f3)
    ensures AddsLocal(assetsDir, m1, f1, m3, f3)
  {
  }

  /** Whatever the pass adds to the mapping, or overwrites in it, maps to the
      asset directory joined with the URL's local name; the URLs
      and files already there stay. */
  lemma {:induction false} DeepCssLocal(e: CssEnv, keys: seq<string>, mapping: map<string, string>, files: map<string, seq<Codec.byte>>)
    ensures var r := DeepCss(e, keys, mapping, files);
      AddsLocal(e.assetsDir, mapping, files, r.0, r.1)
    decreases |keys|
  {
    if keys == [] {
    } else {
      var s := DeepCss(e, keys[..|keys| - 1], mapping, files);
      var r := DeepStep(e, keys[|keys| - 1], s.0, s.1);
      assert DeepCss(e, keys, mapping, files) == r;
      DeepCssLocal(e, keys[..|keys| - 1], mapping, files);
      DeepStepLocal(e, keys[|keys| - 1], s.0, s.1);
      AddsLocalTrans(e.assetsDir, mapping, files, s.0, s.1, r.0, r.1);
    }
  }

  lemma DeepStepLocal(e: CssEnv, cssUrl: string, m: map<string, string>, files: map<string, seq<Codec.byte>>)
    ensures var r := DeepStep(e, cssUrl, m, files);
      AddsLocal(e.assetsDir, m, files, r.0, r.1)
  {
    if cssUrl in m && m[cssUrl] in files {
      var deps := Dependencies(e.build, e.decode(files[m[cssUrl]]));
      if deps.Ok? {
        var resolved := AssetCollector.Resolve(DepRefs(deps.value), cssUrl, Url.UrlJoin);
        if resolved.Ok? {
          DownloadLocal(e, m[cssUrl], m, files, resolved.value);
        }
      }
    }
  }

  /** The download and rewrite at the end of one stylesheet's step. */
  lemma DownloadLocal(e: CssEnv, localCss: string, m: map<string, string>, files: map<string, seq<Codec.byte>>,
                      depAssets: seq<Asset>)
    ensures var p := AssetDownloader.Downloading(depAssets, DownloadEnv(e), files);
      p.mapping.Err? ==> AddsLocal(e.assetsDir, m, files, m, p.files)
    ensures var p := AssetDownloader.Downloading(depAssets, DownloadEnv(e), files);
      p.mapping.Ok? ==>
        var m2 := m + p.mapping.value;
        AddsLocal(e.assetsDir, m, files, m2, AssetRewriter.CssFileAfter(p.files, localCss, m2, e.htmlDir, e.decode))
  {
    var env := DownloadEnv(e);
    AssetDownloader.DownloadingKeepsFiles(depAssets, env, files);
    var p := AssetDownloader.Downloading(depAssets, env, files);
    if p.mapping.Ok? {
      AssetDownloader.DownloadingPaths(depAssets, env, files);
      var m2 := m + p.mapping.value;
      var f2 := AssetRewriter.CssFileAfter(p.files, localCss, m2, e.htmlDir, e.decode);
      assert f2.Keys == p.files.Keys;
      forall u | u in m2
        ensures (u in m && m2[u] == m[u])
          || (LocalName(u).Ok? && m2[u] == Paths.Join(e.assetsDir, LocalName(u).value) && m2[u] in f2)
      {
        if u in p.mapping.value {
          assert m2[u] == p.mapping.value[u];
        }
      }
    }
  }

  /** The deep CSS pass: for each downloaded stylesheet, read it, download the
      URLs it refers to (resolved against the stylesheet's URL), add them to
      the mapping and rewrite the stylesheet. Any exception in the body of one
      stylesheet is swallowed and the next one is tried. */
  method DeepCssPass(store: Store, keys: seq<string>, mapping: map<string, string>, e: CssEnv)
    returns (m: map<string, string>)
    requires forall k :: 0 <= k < |keys| ==> keys[k] in mapping
    modifies store
    ensures (m, store.files) == DeepCss(e, keys, mapping, old(store.files))
    ensures forall u :: u in mapping ==> u in m
    ensures e.build == AsWritten ==> m == mapping && store.files == old(store.files)
  {
    m := mapping;
    for i := 0 to |keys|
      invariant (m, store.files) == DeepCss(e, keys[..i], mapping, old(store.files))
      invariant forall u :: u in mapping ==> u in m
      invariant e.build == AsWritten ==> m == mapping && store.files == old(store.files)
    {
      AssetDownloader.InitOfSnoc(keys, i);
      var cssUrl := keys[i];
      var localCss := m[cssUrl];
      if localCss !in store.files {
        continue;
      }
      var deps := Dependencies(e.build, e.decode(store.files[localCss]));
      if deps.Err? {
        continue;
      }
      var depAssets := AssetCollector.ResolveRefs(DepRefs(deps.value), cssUrl, Url.UrlJoin);
      if depAssets.Err? {
        continue;
      }
      var depMap, _ := AssetDownloader.Download(store, depAssets.value, e.assetsDir, e.timestamp, e.fetch);
      if depMap.Err? {
        continue;
      }
      m := m + depMap.value;
      AssetRewriter.RewriteCssFile(store, localCss, m, e.htmlDir, e.decode);
    }
    assert keys[..|keys|] == keys;
  }

  // ---------------------------------------------------------------------------
  // The steps process_one hands to other components
  // ---------------------------------------------------------------------------

  /** `retrieve` stands for `retrieve_page`, `clean` for `clean_html`, `parse`
      and `render` for BeautifulSoup's parser and `str(soup)`, `fetch` for the
      archive request of an asset, `abspath`, `guessType` and `decode` for the
      library calls of `embed_single_file` and the text reads, and `pdf` for
      the PDF generator's result. */
  datatype Steps = Steps(
    retrieve: (string, string) -> HtmlRetriever.Fetch,
    clean: (string, string) -> Option<string>,
    parse: string -> seq<HtmlTree.Node>,
    render: seq<HtmlTree.Node> -> string,
    fetch: string -> Option<seq<Codec.byte>>,
    abspath: string -> string,
    guessType: string -> Option<string>,
    decode: seq<Codec.byte> -> string,
    pdf: (string, string, string) -> bool)

  /** The page after the offline-asset step: references rewritten to the
      mapping, then, in single-file mode, images and stylesheets embedded from
      the files on disk. */
  function FinalHtml(cleaned: string, mapping: map<string, string>, htmlDir: string, singleFile: bool,
                     steps: Steps, files: map<string, seq<Codec.byte>>): string
  {
    var page := steps.render(AssetRewriter.RewriteHtml(steps.parse(cleaned), mapping, htmlDir));
    if singleFile then
      var out := AssetRewriter.Outside(files, steps.abspath, steps.guessType, steps.decode);
      steps.render(AssetRewriter.EmbedSingleFile(steps.parse(page), mapping, htmlDir, out, AssetRewriter.DefaultSizeLimit))
    else page
  }

  /** The call to the PDF generator. As written it passes `base_url=`, which
      `generate_pdf` does not accept, so the call raises `TypeError`; as
      intended it returns the generator's result. */
  function PdfStep(build: Build, generated: bool): (r: Result<bool>)
    ensures build == AsWritten ==> r == Err("TypeError")
    ensures build == Intended ==> r == Ok(generated)
  {
    match build
    case AsWritten => Err("TypeError")
    case Intended => Ok(generated)
  }

  /** How far `process_one` got before the PDF step. */
  datatype Prepared = Escaped(error: string) | DownloadFailed | CleanFailed | Saved(htmlPath: string, pdfPath: string, html: string)

  /** `FileManager`'s `html` and `pdf` directories under the output
      directory. */
  function HtmlRoot(config: RunConfig): string {
    Paths.Join(config.outputDir, "html")
  }

  function PdfRoot(config: RunConfig): string {
    Paths.Join(config.outputDir, "pdf")
  }

  /** The result of an item that was not skipped, from how far it got and
      what the PDF generator returned. */
  function Outcome(o: Prepared, build: Build, generated: bool): (r: Result<Tally>)
    ensures r.Ok? ==> Possible(r.value) && r.value != Untouched
    ensures r.Err? <==> o.Escaped? || (o.Saved? && build == AsWritten)
    ensures r == Ok(Finished) <==> o.Saved? && build == Intended && generated
    ensures r == Ok(PdfFailed) <==> o.Saved? && build == Intended && !generated
  {
    match o
    case Escaped(e) => Err(e)
    case DownloadFailed => Ok(StepFailed)
    case CleanFailed => Ok(StepFailed)
    case Saved(_, _, _) =>
      match PdfStep(build, generated)
      case Err(e) => Err(e)
      case Ok(ok) => Ok(if ok then Finished else PdfFailed)
  }

  /** The record that closes an item that got as far as `o`. */
  function TerminalRecord(o: Prepared, page: CdxClient.Capture, nkey: string, now: real, generated: bool): M.Record
    requires !o.Escaped?
  {
    match o
    case DownloadFailed => FailedRecord(page, nkey, DownloadFailedError, None, None, now)
    case CleanFailed => FailedRecord(page, nkey, CleanFailedError, None, None, now)
    case Saved(htmlPath, pdfPath, _) =>
      if generated then CompletedRecord(page, nkey, htmlPath, pdfPath, now)
      else FailedRecord(page, nkey, PdfFailedError, Some(htmlPath), Some(pdfPath), now)
  }

  /** The closing record agrees with the result: a failed step is logged as
      failed with its reason, a finished page as completed with both paths. */
  lemma TerminalMatches(o: Prepared, build: Build, generated: bool, page: CdxClient.Capture, nkey: string, now: real)
    requires Outcome(o, build, generated).Ok?
    ensures Terminal(TerminalRecord(o, page, nkey, now, generated), Outcome(o, build, generated).value)
    ensures M.RecordKey(TerminalRecord(o, page, nkey, now, generated)) == (nkey, Some(page.timestamp))
    ensures TerminalRecord(o, page, nkey, now, generated).url == page.url
  {
  }

  /** `os.path.join(html_dir, 'assets', splitext(basename(html_path))[0])`. */
  function AssetsDir(htmlDir: string, htmlPath: string): string {
    Paths.Join(Paths.Join(htmlDir, "assets"), Paths.Root(Paths.BaseName(htmlPath)))
  }

  // ---------------------------------------------------------------------------
  // What process_one does, as functions of its inputs and the state before
  // ---------------------------------------------------------------------------

  /** Every entry of the mapping names the file under `assetsDir` given by the
      URL's local name, and that file is on disk. */
  predicate LocalMapping(assetsDir: string, mapping: map<string, string>, files: map<string, seq<Codec.byte>>) {
    forall u :: u in mapping ==>
      LocalName(u).Ok? && mapping[u] == Paths.Join(assetsDir, LocalName(u).value) && mapping[u] in files
  }

  /** The offline-asset step: the page's HTML and the files afterwards. An
      error from collecting or downloading escapes; the deep CSS pass swallows
      its own. */
  function OfflineSpec(cleaned: string, url: string, htmlDir: string, assetsDir: string, timestamp: string,
                       steps: Steps, build: Build, singleFile: bool, files: map<string, seq<Codec.byte>>)
    : (Result<string>, map<string, seq<Codec.byte>>)
  {
    match AssetCollector.Collected(steps.parse(cleaned), url, Url.UrlJoin)
    case Err(e) => (Err(e), files)
    case Ok(assets) =>
      var p := AssetDownloader.Downloading(assets, AssetDownloader.Env(assetsDir, timestamp, steps.fetch, LocalName), files);
      if p.mapping.Err? then (Err(p.mapping.error), p.files)
      else
        var d := DeepCss(CssEnv(assetsDir, htmlDir, timestamp, steps.fetch, steps.decode, build),
                         CssKeys(assets, p.mapping.value), p.mapping.value, p.files);
        (Ok(FinalHtml(cleaned, d.0, htmlDir, singleFile, steps, d.1)), d.1)
  }

  /** A page whose offline-asset step succeeds is the cleaned page rewritten
      against a mapping that holds every collected asset that arrived and
      sends every URL to the asset directory joined with its local name, on disk.
      As written the deep CSS pass changes nothing, so that mapping is the
      download's. */
  lemma OfflineSpecMeaning(cleaned: string, url: string, htmlDir: string, assetsDir: string, timestamp: string,
                           steps: Steps, build: Build, singleFile: bool, files: map<string, seq<Codec.byte>>)
    ensures var s := OfflineSpec(cleaned, url, htmlDir, assetsDir, timestamp, steps, build, singleFile, files);
      s.0.Ok? ==>
        && AssetCollector.Collected(steps.parse(cleaned), url, Url.UrlJoin).Ok?
        && var assets := AssetCollector.Collected(steps.parse(cleaned), url, Url.UrlJoin).value;
           var env := AssetDownloader.Env(assetsDir, timestamp, steps.fetch, LocalName);
           exists mapping :: s.0.value == FinalHtml(cleaned, mapping, htmlDir, singleFile, steps, s.1)
             && LocalMapping(assetsDir, mapping, s.1)
             && forall i :: 0 <= i < |assets| && AssetDownloader.Arrived(assets[i], env) ==> assets[i].url in mapping
    ensures var s := OfflineSpec(cleaned, url, htmlDir, assetsDir, timestamp, steps, build, singleFile, files);
      build == AsWritten && s.0.Ok? ==>
        var assets := AssetCollector.Collected(steps.parse(cleaned), url, Url.UrlJoin).value;
        var env := AssetDownloader.Env(assetsDir, timestamp, steps.fetch, LocalName);
        var p := AssetDownloader.Downloading(assets, env, files);
        p.mapping.Ok? && s.1 == p.files && s.0.value == FinalHtml(cleaned, p.mapping.value, htmlDir, singleFile, steps, p.files)
  {
    var collected := AssetCollector.Collected(steps.parse(cleaned), url, Url.UrlJoin);
    if collected.Ok? {
      var assets := collected.value;
      var env := AssetDownloader.Env(assetsDir, timestamp, steps.fetch, LocalName);
      var p := AssetDownloader.Downloading(assets, env, files);
      if p.mapping.Ok? {
        var e := CssEnv(assetsDir, htmlDir, timestamp, steps.fetch, steps.decode, build);
        var keys := CssKeys(assets, p.mapping.value);
        var d := DeepCss(e, keys, p.mapping.value, p.files);
        assert OfflineSpec(cleaned, url, htmlDir, assetsDir, timestamp, steps, build, singleFile, files)
          == (Ok(FinalHtml(cleaned, d.0, htmlDir, singleFile, steps, d.1)), d.1);
        DownloadedLocal(assets, env, files);
        assert LocalMapping(assetsDir, p.mapping.value, p.files);
        DeepCssLocal(e, keys, p.mapping.value, p.files);
        LocalMappingGrows(assetsDir, p.mapping.value, p.files, d.0, d.1);
        if build == AsWritten {
          DeepCssAsWritten(e, keys, p.mapping.value, p.files);
        }
      }
    }
  }

  /** A successful download's mapping is local and holds every asset that
      arrived. */
  lemma DownloadedLocal(assets: seq<Asset>, env: AssetDownloader.Env, files: map<string, seq<Codec.byte>>)
    requires env.localName == LocalName
    requires AssetDownloader.Downloading(assets, env, files).mapping.Ok?
    ensures var p := AssetDownloader.Downloading(assets, env, files);
      LocalMapping(env.destDir, p.mapping.value, p.files)
      && forall i :: 0 <= i < |assets| && AssetDownloader.Arrived(assets[i], env) ==> assets[i].url in p.mapping.value
  {
    AssetDownloader.DownloadingPaths(assets, env, files);
    AssetDownloader.DownloadingKeys(assets, env, files);
  }

  lemma LocalMappingGrows(assetsDir: string, m: map<string, string>, files: map<string, seq<Codec.byte>>,
                          m2: map<string, string>, files2: map<string, seq<Codec.byte>>)
    requires LocalMapping(assetsDir, m, files) && AddsLocal(assetsDir, m, files, m2, files2)
    ensures LocalMapping(assetsDir, m2, files2) && m.Keys <= m2.Keys
  {
  }

  /** The page as saved: the cleaned HTML, or with offline assets on, what the
      offline-asset step makes of it next to `htmlPath`. */
  function PageSpec(config: RunConfig, build: Build, cleaned: string, page: CdxClient.Capture, htmlPath: string,
                    steps: Steps, files: map<string, seq<Codec.byte>>): (Result<string>, map<string, seq<Codec.byte>>)
  {
    if !config.offlineAssets then (Ok(cleaned), files)
    else
      var htmlDir := Paths.DirName(steps.abspath(htmlPath));
      OfflineSpec(cleaned, page.url, htmlDir, AssetsDir(htmlDir, htmlPath), page.timestamp, steps, build, config.singleFileHtml, files)
  }

  /** `process_one` from retrieval to saving the page, given what
      `get_file_paths` returns for the page (a pure function of its URL and
      timestamp, called once the page is cleaned) and the step that makes the
      page to save from the cleaned HTML, the HTML path and the files. */
  function PrepareWith(page: CdxClient.Capture, steps: Steps, files: map<string, seq<Codec.byte>>,
                       paths: Result<(string, string)>,
                       pageStep: (string, string, map<string, seq<Codec.byte>>) -> (Result<string>, map<string, seq<Codec.byte>>))
    : (Prepared, map<string, seq<Codec.byte>>)
  {
    var f := steps.retrieve(page.waybackUrl, page.url);
    if f.Raised? then (Escaped(f.error), files)
    else if f.NotFetched? || f.page.html == "" then (DownloadFailed, files)
    else
      var cleaned := steps.clean(f.page.html, page.url);
      if cleaned.None? || cleaned.value == "" then (CleanFailed, files)
      else if paths.Err? then (Escaped(paths.error), files)
      else
        var (htmlPath, pdfPath) := paths.value;
        var s := pageStep(cleaned.value, htmlPath, files);
        if s.0.Err? then (Escaped(s.0.error), s.1)
        else (Saved(htmlPath, pdfPath, s.0.value), s.1[htmlPath := Codec.Utf8Encode(s.0.value)])
  }

  /** `process_one` from retrieval to saving the page. */
  function PrepareSpec(config: RunConfig, build: Build, page: CdxClient.Capture, steps: Steps, files: map<string, seq<Codec.byte>>)
    : (Prepared, map<string, seq<Codec.byte>>)
  {
    PrepareWith(page, steps, files, FileManager.GetFilePaths(HtmlRoot(config), PdfRoot(config), page.url, page.timestamp),
                (cleaned, htmlPath, fs) => PageSpec(config, build, cleaned, page, htmlPath, steps, fs))
  }

  /** How far an item gets: a failed retrieval (no answer or an empty page) is
      a download failure and an empty clean a clean failure, both leaving the
      files alone; an exception from the retrieval escapes. */
  lemma PreparedFailures(page: CdxClient.Capture, steps: Steps, files: map<string, seq<Codec.byte>>, paths: Result<(string, string)>,
                         pageStep: (string, string, map<string, seq<Codec.byte>>) -> (Result<string>, map<string, seq<Codec.byte>>))
    ensures var f := steps.retrieve(page.waybackUrl, page.url);
      var s := PrepareWith(page, steps, files, paths, pageStep);
      && (s.0 == DownloadFailed <==> f.NotFetched? || (f.Fetched? && f.page.html == ""))
      && (s.0 == CleanFailed <==> f.Fetched? && f.page.html != ""
                                   && (steps.clean(f.page.html, page.url).None? || steps.clean(f.page.html, page.url).value == ""))
      && (s.0 == DownloadFailed || s.0 == CleanFailed ==> s.1 == files)
      && (f.Raised? ==> s == (Escaped(f.error), files))
  {
  }

  /** A saved page has the paths `get_file_paths` gave and is the page the
      page step made, written as UTF-8. */
  lemma PreparedSaved(page: CdxClient.Capture, steps: Steps, files: map<string, seq<Codec.byte>>, paths: Result<(string, string)>,
                      pageStep: (string, string, map<string, seq<Codec.byte>>) -> (Result<string>, map<string, seq<Codec.byte>>))
    ensures var f := steps.retrieve(page.waybackUrl, page.url);
      var s := PrepareWith(page, steps, files, paths, pageStep);
      s.0.Saved? ==>
        && f.Fetched? && steps.clean(f.page.html, page.url).Some?
        && var cleaned := steps.clean(f.page.html, page.url).value;
           && paths == Ok((s.0.htmlPath, s.0.pdfPath))
           && pageStep(cleaned, s.0.htmlPath, files).0 == Ok(s.0.html)
           && s.0.htmlPath in s.1 && s.1[s.0.htmlPath] == Codec.Utf8Encode(s.0.html)
  {
    if paths.Ok? {
      assert paths.value == (paths.value.0, paths.value.1);
    }
  }

  /** `process_one` up to the save: a download failure exactly when the
      retrieval gave nothing or an empty page, a clean failure only after a
      clean that gave nothing; a saved page was retrieved and cleaned (and,
      with offline assets off, is the cleaned page), has the paths
      `get_file_paths` gave and is written as UTF-8. */
  lemma PrepareSpecMeaning(config: RunConfig, build: Build, page: CdxClient.Capture, steps: Steps, files: map<string, seq<Codec.byte>>)
    ensures var f := steps.retrieve(page.waybackUrl, page.url);
      var s := PrepareSpec(config, build, page, steps, files);
      && (s.0 == DownloadFailed <==> f.NotFetched? || (f.Fetched? && f.page.html == ""))
      && (s.0 == CleanFailed <==> f.Fetched? && f.page.html != ""
                                   && (steps.clean(f.page.html, page.url).None? || steps.clean(f.page.html, page.url).value == ""))
      && (s.0.Saved? ==> f.Fetched? && steps.clean(f.page.html, page.url).Some?
                         && (!config.offlineAssets ==> s.0.html == steps.clean(f.page.html, page.url).value))
      && (s.0.Saved? ==> FileManager.GetFilePaths(HtmlRoot(config), PdfRoot(config), page.url, page.timestamp) == Ok((s.0.htmlPath, s.0.pdfPath)))
      && (s.0.Saved? ==> s.0.htmlPath in s.1 && s.1[s.0.htmlPath] == Codec.Utf8Encode(s.0.html))
  {
    var paths := FileManager.GetFilePaths(HtmlRoot(config), PdfRoot(config), page.url, page.timestamp);
    PreparedFailures(page, steps, files, paths, (cleaned, htmlPath, fs) => PageSpec(config, build, cleaned, page, htmlPath, steps, fs));
    PreparedSaved(page, steps, files, paths, (cleaned, htmlPath, fs) => PageSpec(config, build, cleaned, page, htmlPath, steps, fs));
  }

  /** What `process_one` works with besides the page, the clock and the
      state: which behaviour of the calls that raise as written,
      `normalize_host`, the part from retrieval to saving the page (given the
      files before, how far it got and the files after) and the PDF
      generator. */
  datatype Ctx = Ctx(build: Build, normalize: string -> Validators.Validation,
                     prepare: (CdxClient.Capture, map<string, seq<Codec.byte>>) -> (Prepared, map<string, seq<Codec.byte>>),
                     pdf: (string, string, string) -> bool)

  /** The context of a controller whose retrieval-to-save part is
      `PrepareSpec`. */
  function ContextOf(config: RunConfig, build: Build, normalize: string -> Validators.Validation, steps: Steps): Ctx {
    Ctx(build, normalize, (page, files) => PrepareSpec(config, build, page, steps, files), steps.pdf)
  }

  /** One item's result, its entry for the index, and the manifest and files
      afterwards. */
  datatype Item = Item(r: Result<Tally>, entry: Option<Processed>, lines: seq<M.Line>, files: map<string, seq<Codec.byte>>)

  /** `process_one`. */
  function ProcessSpec(ctx: Ctx, now: real, page: CdxClient.Capture, completed: set<M.Key>, stopped: bool,
                       lines: seq<M.Line>, files: map<string, seq<Codec.byte>>): Item
  {
    var key := KeyFor(ctx.normalize(page.url), page.url, page.timestamp);
    if stopped || key in completed then Item(Ok(Untouched), None, lines, files)
    else
      var logged := lines + [M.Entry(DiscoveredRecord(page, key.0, now))];
      var s := ctx.prepare(page, files);
      var o := s.0;
      var generated := o.Saved? && ctx.pdf(o.html, o.pdfPath, page.url);
      var r := Outcome(o, ctx.build, generated);
      if r.Err? then Item(r, None, logged, s.1)
      else
        var entry := if r == Ok(Finished) then Some(Processed(page.url, page.timestamp, o.htmlPath, o.pdfPath)) else None;
        Item(r, entry, logged + [M.Entry(TerminalRecord(o, page, key.0, now, generated))], s.1)
  }

  /** Skipped (stop requested, or the capture already completed) an item
      writes nothing; otherwise it logs 'discovered' and then exactly one
      terminal record that agrees with its tally, unless an exception
      escapes. */
  lemma ItemMeaning(ctx: Ctx, now: real, page: CdxClient.Capture, completed: set<M.Key>, stopped: bool,
                    lines: seq<M.Line>, files: map<string, seq<Codec.byte>>)
    ensures var key := KeyFor(ctx.normalize(page.url), page.url, page.timestamp);
      var it := ProcessSpec(ctx, now, page, completed, stopped, lines, files);
      && Effect(lines, it.lines, page, key, stopped || key in completed, it.r, it.entry)
      && (stopped || key in completed ==> it.files == files)
  {
    var key := KeyFor(ctx.normalize(page.url), page.url, page.timestamp);
    if !(stopped || key in completed) {
      var discovered := DiscoveredRecord(page, key.0, now);
      var s := ctx.prepare(page, files);
      var generated := s.0.Saved? && ctx.pdf(s.0.html, s.0.pdfPath, page.url);
      var r := Outcome(s.0, ctx.build, generated);
      if r.Ok? {
        var terminal := TerminalRecord(s.0, page, key.0, now, generated);
        TerminalMatches(s.0, ctx.build, generated, page, key.0, now);
        Appended(lines, lines + [M.Entry(discovered), M.Entry(terminal)], [M.Entry(discovered), M.Entry(terminal)]);
        assert lines + [M.Entry(discovered)] + [M.Entry(terminal)] == lines + [M.Entry(discovered), M.Entry(terminal)];
      } else {
        Appended(lines, lines + [M.Entry(discovered)], [M.Entry(discovered)]);
      }
    }
  }

  /** An item's tally is one `process_one` can return; only a finished page
      gets an entry for the index, and as written none finishes; the manifest
      only grows. */
  lemma ItemTally(ctx: Ctx, now: real, page: CdxClient.Capture, completed: set<M.Key>, stopped: bool,
                  lines: seq<M.Line>, files: map<string, seq<Codec.byte>>)
    ensures var it := ProcessSpec(ctx, now, page, completed, stopped, lines, files);
      && (it.r.Ok? ==> Possible(it.r.value))
      && lines <= it.lines
      && (it.entry.Some? <==> it.r == Ok(Finished))
      && (it.entry.Some? ==> it.entry.value.url == page.url && it.entry.value.timestamp == page.timestamp)
      && (ctx.build == AsWritten ==> it.r != Ok(Finished) && it.r != Ok(PdfFailed))
  {
  }

  /** Adding a tally `process_one` can return, with an index entry exactly
      when the page finished (which, as written, it never does), keeps the
      tallies accounted for. */
  lemma AccountedStep(build: Build, tallies: seq<Tally>, entries: seq<Processed>, t: Tally, entry: Option<Processed>)
    requires Accounted(build, tallies, entries) && Possible(t) && (entry.Some? <==> t == Finished)
    requires build == AsWritten ==> t != Finished
    ensures Accounted(build, tallies + [t], entries + (if entry.Some? then [entry.value] else []))
  {
    var tallies' := tallies + [t];
    assert tallies'[..|tallies|] == tallies;
  }

  /** Where the serial loop ends: the exception that escaped, if any, how many
      pages were started, the tallies and index entries of those that
      returned, the manifest, the files and the stop flag. */
  datatype Sweep = Sweep(err: Option<string>, started: nat, tallies: seq<Tally>, entries: seq<Processed>,
                         lines: seq<M.Line>, files: map<string, seq<Codec.byte>>, stopped: bool)

  /** The serial loop of `run` from page `k` on: before each page the stop
      flag is checked (and set, when `stop` is called at that point, which
      `stopAt` says); an exception from an item ends the loop. */
  function SerialFrom(ctx: Ctx, now: real, capped: seq<CdxClient.Capture>, completed: set<M.Key>, stopAt: Option<nat>, k: nat,
                      stopped: bool, tallies: seq<Tally>, entries: seq<Processed>,
                      lines: seq<M.Line>, files: map<string, seq<Codec.byte>>): Sweep
    decreases |capped| - k
  {
    if k >= |capped| then Sweep(None, k, tallies, entries, lines, files, stopped)
    else if stopped || stopAt == Some(k) then Sweep(None, k, tallies, entries, lines, files, true)
    else
      var it := ProcessSpec(ctx, now, capped[k], completed, false, lines, files);
      if it.r.Err? then Sweep(Some(it.r.error), k, tallies, entries, it.lines, it.files, false)
      else
        SerialFrom(ctx, now, capped, completed, stopAt, k + 1, false, tallies + [it.r.value],
                   entries + (if it.entry.Some? then [it.entry.value] else []), it.lines, it.files)
  }

  /** One page of the serial loop: the page's item, then the loop from the
      next page on with its tally and entry added. */
  lemma SerialFromNext(ctx: Ctx, now: real, capped: seq<CdxClient.Capture>, completed: set<M.Key>, stopAt: Option<nat>, k: nat,
                       tallies: seq<Tally>, entries: seq<Processed>, lines: seq<M.Line>, files: map<string, seq<Codec.byte>>,
                       it: Item)
    requires k < |capped| && stopAt != Some(k)
    requires it == ProcessSpec(ctx, now, capped[k], completed, false, lines, files)
    ensures it.r.Err? ==>
      SerialFrom(ctx, now, capped, completed, stopAt, k, false, tallies, entries, lines, files)
        == Sweep(Some(it.r.error), k, tallies, entries, it.lines, it.files, false)
    ensures it.r.Ok? ==>
      SerialFrom(ctx, now, capped, completed, stopAt, k, false, tallies, entries, lines, files)
        == SerialFrom(ctx, now, capped, completed, stopAt, k + 1, false, tallies + [it.r.value],
                      entries + (if it.entry.Some? then [it.entry.value] else []), it.lines, it.files)
  {
  }

  /** The loop starts no page once the flag is set, and none at or after the
      point where `stop` is called; it stops early only when the flag is set,
      or when an exception escapes, which leaves the flag alone. */
  lemma {:induction false} SerialFromStops(ctx: Ctx, now: real, capped: seq<CdxClient.Capture>, completed: set<M.Key>, stopAt: Option<nat>,
                                           k: nat, stopped: bool, tallies: seq<Tally>, entries: seq<Processed>,
                                           lines: seq<M.Line>, files: map<string, seq<Codec.byte>>)
    requires k <= |capped|
    ensures var s := SerialFrom(ctx, now, capped, completed, stopAt, k, stopped, tallies, entries, lines, files);
      && k <= s.started <= |capped|
      && (s.started > k ==> !stopped)
      && (stopAt.Some? && k <= stopAt.value ==> s.started <= stopAt.value)
      && (s.err.None? && s.started < |capped| ==> s.stopped)
      && (s.err.Some? ==> s.stopped == stopped)
    decreases |capped| - k
  {
    if k < |capped| && !(stopped || stopAt == Some(k)) {
      var it := ProcessSpec(ctx, now, capped[k], completed, false, lines, files);
      if it.r.Ok? {
        SerialFromStops(ctx, now, capped, completed, stopAt, k + 1, false, tallies + [it.r.value],
                        entries + (if it.entry.Some? then [it.entry.value] else []), it.lines, it.files);
      }
    }
  }

  /** Tallies `process_one` can return, with one index entry per finished
      page and, as written, none. */
  predicate Accounted(build: Build, tallies: seq<Tally>, entries: seq<Processed>) {
    && (forall i :: 0 <= i < |tallies| ==> Possible(tallies[i]))
    && |entries| == Sum(tallies).pdf
    && (build == AsWritten ==> entries == [])
  }

  /** The tallies are ones `process_one` can return, one per page started;
      the index entries are one per finished page (none as written); the
      manifest only grows. */
  lemma {:induction false} SerialFromFacts(ctx: Ctx, now: real, capped: seq<CdxClient.Capture>, completed: set<M.Key>, stopAt: Option<nat>,
                                           k: nat, stopped: bool, tallies: seq<Tally>, entries: seq<Processed>,
                                           lines: seq<M.Line>, files: map<string, seq<Codec.byte>>)
    requires k <= |capped| && |tallies| == k && Accounted(ctx.build, tallies, entries)
    ensures var s := SerialFrom(ctx, now, capped, completed, stopAt, k, stopped, tallies, entries, lines, files);
      |s.tallies| == s.started && Accounted(ctx.build, s.tallies, s.entries) && lines <= s.lines
    decreases |capped| - k
  {
    if k < |capped| && !(stopped || stopAt == Some(k)) {
      var it := ProcessSpec(ctx, now, capped[k], completed, false, lines, files);
      SerialFromNext(ctx, now, capped, completed, stopAt, k, tallies, entries, lines, files, it);
      ItemTally(ctx, now, capped[k], completed, false, lines, files);
      if it.r.Ok? {
        var tallies' := tallies + [it.r.value];
        var entries' := entries + (if it.entry.Some? then [it.entry.value] else []);
        AccountedStep(ctx.build, tallies, entries, it.r.value, it.entry);
        SerialFromFacts(ctx, now, capped, completed, stopAt, k + 1, false, tallies', entries', it.lines, it.files);
      }
    }
  }

  // ---------------------------------------------------------------------------
  // The controller
  // ---------------------------------------------------------------------------

  class ArchaicController {
    const config: RunConfig
    const build: Build
    const limiter: RateLimiter.TokenBucket
    const manifest: M.Manifest
    /** `normalize_host`. */
    const normalize: string -> Validators.Validation
    /** The retriever, cleaner, rewriter and PDF generator the controller
        builds, and the library calls they make. */
    const steps: Steps
    /** The files under the output directory. */
    const store: Store
    /** `_stop_event`. */
    var stopped: bool
    /** What `process_one` works with, as the specification functions take
        it. */
    ghost const ctx: Ctx

    /** The context describes this controller: its build, `normalize_host`,
        its PDF generator, and a retrieval-to-save part that agrees with
        `PrepareSpec` on every page and state of the files. */
    ghost predicate Valid() {
      && ctx.build == build && ctx.normalize == normalize && ctx.pdf == steps.pdf
      && forall page, files {:trigger PrepareSpec(config, build, page, steps, files)} ::
           ctx.prepare(page, files) == PrepareSpec(config, build, page, steps, files)
    }

    /** `__init__`: the shared limiter at one token per delay, burst 1, jitter
        300 ms, and the manifest of the output directory. `onDisk` is the
        manifest left by an earlier run, `files` what is already on disk and
        `now` the clock reading. */
    constructor(config: RunConfig, build: Build, steps: Steps, onDisk: Option<seq<M.Line>>, files: map<string, seq<Codec.byte>>, now: real)
      ensures Valid() && ctx == ContextOf(config, build, Validators.NormalizeHost, steps)
      ensures this.config == config && this.build == build && this.steps == steps && !stopped
      ensures limiter.rate == LimiterRate(config.delaySecs) && limiter.capacity == LimiterBurst as real
      ensures limiter.jitterMs == LimiterJitterMs
      ensures manifest.path == Paths.Join(config.outputDir, M.ManifestName)
      ensures manifest.lines == (if onDisk.Some? then onDisk.value else [])
      ensures store.files == files && normalize == Validators.NormalizeHost
      ensures fresh(limiter) && fresh(manifest) && fresh(store)
    {
      this.config := config;
      this.build := build;
      this.steps := steps;
      limiter := new RateLimiter.TokenBucket(LimiterRate(config.delaySecs), LimiterBurst, LimiterJitterMs, now);
      manifest := new M.Manifest(config.outputDir, onDisk);
      store := new Store(files);
      normalize := Validators.NormalizeHost;
      ctx := ContextOf(config, build, Validators.NormalizeHost, steps);
      stopped := false;
    }

    /** `stop`. */
    method Stop()
      modifies this
      ensures stopped
    {
      stopped := true;
    }

    /** The offline-asset step: collect and download the page's assets, run
        the deep CSS pass, then rewrite (and in single-file mode embed). An
        error from collecting or downloading escapes. */
    method OfflineAssets(cleaned: string, url: string, htmlDir: string, assetsDir: string, timestamp: string)
      returns (r: Result<string>)
      modifies store
      ensures (r, store.files) == OfflineSpec(cleaned, url, htmlDir, assetsDir, timestamp, steps, build, config.singleFileHtml, old(store.files))
      ensures r.Ok? ==> AssetCollector.Collected(steps.parse(cleaned), url, Url.UrlJoin).Ok?
      ensures r.Ok? ==> exists mapping :: r.value == FinalHtml(cleaned, mapping, htmlDir, config.singleFileHtml, steps, store.files)
      ensures build == AsWritten && r.Ok? ==>
        var assets := AssetCollector.Collected(steps.parse(cleaned), url, Url.UrlJoin).value;
        var env := AssetDownloader.Env(assetsDir, timestamp, steps.fetch, LocalName);
        var p := AssetDownloader.Downloading(assets, env, old(store.files));
        p.mapping.Ok? && store.files == p.files
        && r.value == FinalHtml(cleaned, p.mapping.value, htmlDir, config.singleFileHtml, steps, p.files)
    {
      ghost var before := store.files;
      r := OfflineSteps(cleaned, url, htmlDir, assetsDir, timestamp);
      OfflineSpecMeaning(cleaned, url, htmlDir, assetsDir, timestamp, steps, build, config.singleFileHtml, before);
    }

    /** The body of the offline-asset step. */
    method OfflineSteps(cleaned: string, url: string, htmlDir: string, assetsDir: string, timestamp: string)
      returns (r: Result<string>)
      modifies store
      ensures (r, store.files) == OfflineSpec(cleaned, url, htmlDir, assetsDir, timestamp, steps, build, config.singleFileHtml, old(store.files))
    {
      var assets := AssetCollector.Collect(steps.parse(cleaned), url);
      if assets.Err? {
        return Err(assets.error);
      }
      var mapping, _ := AssetDownloader.Download(store, assets.value, assetsDir, timestamp, steps.fetch);
      if mapping.Err? {
        return Err(mapping.error);
      }
      var keys := CssKeys(assets.value, mapping.value);
      var deep := DeepCssPass(store, keys, mapping.value, CssEnv(assetsDir, htmlDir, timestamp, steps.fetch, steps.decode, build));
      r := Ok(FinalHtml(cleaned, deep, htmlDir, config.singleFileHtml, steps, store.files));
    }

    /** `process_one` from retrieval to saving the page: the retrieval, the
        clean, the file paths, the offline-asset step and the save. */
    method Prepare(page: CdxClient.Capture) returns (o: Prepared)
      requires Valid()
      modifies store
      ensures (o, store.files) == ctx.prepare(page, old(store.files))
      ensures var f := steps.retrieve(page.waybackUrl, page.url);
        (o == DownloadFailed <==> f.NotFetched? || (f.Fetched? && f.page.html == ""))
        && (o == CleanFailed <==> f.Fetched? && f.page.html != ""
                                  && (steps.clean(f.page.html, page.url).None? || steps.clean(f.page.html, page.url).value == ""))
        && (o.Saved? ==> f.Fetched? && steps.clean(f.page.html, page.url).Some?
                         && (!config.offlineAssets ==> o.html == steps.clean(f.page.html, page.url).value))
      ensures o.Saved? ==> FileManager.GetFilePaths(HtmlRoot(config), PdfRoot(config), page.url, page.timestamp) == Ok((o.htmlPath, o.pdfPath))
      ensures o.Saved? ==> o.htmlPath in store.files && store.files[o.htmlPath] == Codec.Utf8Encode(o.html)
    {
      ghost var before := store.files;
      o := PrepareSteps(page);
      PrepareSpecMeaning(config, build, page, steps, before);
    }

    /** The body of `Prepare`. */
    method PrepareSteps(page: CdxClient.Capture) returns (o: Prepared)
      modifies store
      ensures (o, store.files) == PrepareSpec(config, build, page, steps, old(store.files))
    {
      var fetched := steps.retrieve(page.waybackUrl, page.url);
      if fetched.Raised? {
        return Escaped(fetched.error);
      }
      if fetched.NotFetched? || fetched.page.html == "" {
        return DownloadFailed;
      }
      var cleaned := steps.clean(fetched.page.html, page.url);
      if cleaned.None? || cleaned.value == "" {
        return CleanFailed;
      }
      var paths := FileManager.GetFilePaths(HtmlRoot(config), PdfRoot(config), page.url, page.timestamp);
      if paths.Err? {
        return Escaped(paths.error);
      }
      var (htmlPath, pdfPath) := paths.value;
      var finalStep := PageHtml(cleaned.value, page, htmlPath);
      if finalStep.Err? {
        return Escaped(finalStep.error);
      }
      var finalHtml := finalStep.value;
      store.files := store.files[htmlPath := Codec.Utf8Encode(finalHtml)];
      o := Saved(htmlPath, pdfPath, finalHtml);
    }

    /** The page as it is saved: the cleaned HTML, or with offline assets on,
        what the offline-asset step makes of it next to `htmlPath`. */
    method PageHtml(cleaned: string, page: CdxClient.Capture, htmlPath: string) returns (r: Result<string>)
      modifies store
      ensures (r, store.files) == PageSpec(config, build, cleaned, page, htmlPath, steps, old(store.files))
      ensures !config.offlineAssets ==> r == Ok(cleaned) && store.files == old(store.files)
    {
      if !config.offlineAssets {
        return Ok(cleaned);
      }
      var htmlDir := Paths.DirName(steps.abspath(htmlPath));
      r := OfflineAssets(cleaned, page.url, htmlDir, AssetsDir(htmlDir, htmlPath), page.timestamp);
    }

    /** `process_one`. Skipped (stop requested, or the capture already
        completed) it writes nothing and returns all zeros; otherwise it logs
        'discovered' and then exactly one terminal record, unless an exception
        escapes, which `Err` stands for. `entry` is what it adds to the list
        of processed pages. */
    method ProcessOne(page: CdxClient.Capture, completed: set<M.Key>, now: real)
      returns (r: Result<Tally>, entry: Option<Processed>)
      requires Valid()
      modifies manifest, store
      ensures Item(r, entry, manifest.lines, store.files)
        == ProcessSpec(ctx, now, page, completed, stopped, old(manifest.lines), old(store.files))
      ensures r.Ok? ==> Possible(r.value)
      ensures old(manifest.lines) <= manifest.lines
      ensures Effect(old(manifest.lines), manifest.lines, page, KeyFor(normalize(page.url), page.url, page.timestamp),
                     stopped || KeyFor(normalize(page.url), page.url, page.timestamp) in completed, r, entry)
      ensures stopped || KeyFor(normalize(page.url), page.url, page.timestamp) in completed ==> store.files == old(store.files)
      ensures entry.Some? <==> r == Ok(Finished)
      ensures entry.Some? ==> entry.value.url == page.url && entry.value.timestamp == page.timestamp
      ensures build == AsWritten ==> r != Ok(Finished) && r != Ok(PdfFailed)
    {
      ghost var lines, files := manifest.lines, store.files;
      r, entry := ProcessSteps(page, completed, now);
      ItemMeaning(ctx, now, page, completed, stopped, lines, files);
      ItemTally(ctx, now, page, completed, stopped, lines, files);
    }

    /** The body of `ProcessOne`. */
    method ProcessSteps(page: CdxClient.Capture, completed: set<M.Key>, now: real)
      returns (r: Result<Tally>, entry: Option<Processed>)
      requires Valid()
      modifies manifest, store
      ensures Item(r, entry, manifest.lines, store.files)
        == ProcessSpec(ctx, now, page, completed, stopped, old(manifest.lines), old(store.files))
    {
      entry := None;
      if stopped {
        return Ok(Untouched), None;
      }
      var key := KeyFor(normalize(page.url), page.url, page.timestamp);
      var nkey := key.0;
      if key in completed {
        return Ok(Untouched), None;
      }
      var discovered := DiscoveredRecord(page, nkey, now);
      manifest.Append(discovered);
      var o := Prepare(page);
      var generated := o.Saved? && steps.pdf(o.html, o.pdfPath, page.url);
      r := Outcome(o, build, generated);
      if r.Err? {
        return;
      }
      var terminal := TerminalRecord(o, page, nkey, now, generated);
      manifest.Append(terminal);
      if r == Ok(Finished) {
        entry := Some(Processed(page.url, page.timestamp, o.htmlPath, o.pdfPath));
      }
    }

    /** The serial loop of `run` over the capped pages: before each page the
        stop flag is checked, and `stopAt`, when present, is the index of the
        page the loop is about to check when `stop` is called. `processed`
        collects the entries of the pages completed. */
    method Serial(capped: seq<CdxClient.Capture>, discovered: nat, completed: set<M.Key>, stopAt: Option<nat>, now: real)
      returns (r: Result<Stats>, started: nat, processed: seq<Processed>)
      requires Valid()
      modifies this, manifest, store
      ensures var s := SerialFrom(ctx, now, capped, completed, stopAt, 0, old(stopped), [], [], old(manifest.lines), old(store.files));
        && (r.Err? <==> s.err.Some?) && (r.Err? ==> r.error == s.err.value)
        && (r.Ok? ==> r.value == StatsOf(discovered, Sum(s.tallies)))
        && started == s.started && processed == s.entries
        && manifest.lines == s.lines && store.files == s.files && stopped == s.stopped
      ensures started <= |capped|
      ensures stopAt.Some? ==> started <= stopAt.value
      ensures started > 0 ==> !old(stopped)
      ensures r.Ok? && started < |capped| ==> stopped
      ensures r.Ok? ==> r.value.discovered == discovered
      ensures r.Ok? ==> r.value.downloaded == r.value.cleaned && r.value.pdf + r.value.failed <= started
      ensures r.Ok? ==> |processed| == r.value.pdf
      ensures build == AsWritten ==> processed == []
      ensures old(manifest.lines) <= manifest.lines
    {
      ghost var tallies;
      r, started, processed, tallies := SerialLoop(capped, discovered, completed, stopAt, now);
      SerialFromStops(ctx, now, capped, completed, stopAt, 0, old(stopped), [], [], old(manifest.lines), old(store.files));
      SerialFromFacts(ctx, now, capped, completed, stopAt, 0, old(stopped), [], [], old(manifest.lines), old(store.files));
      if r.Ok? {
        SumOfPossible(tallies);
      }
    }

    /** One page of the serial loop, as `SerialFrom` takes it: the page's
        item, and on success the counters, the index entries and the tallies
        with its own added. */
    method SerialStep(capped: seq<CdxClient.Capture>, discovered: nat, completed: set<M.Key>, stopAt: Option<nat>, k: nat, now: real,
                      stats: Stats, processed: seq<Processed>, ghost tallies: seq<Tally>)
      returns (t: Result<Tally>, stats': Stats, processed': seq<Processed>, ghost tallies': seq<Tally>)
      requires Valid() && k < |capped| && stopAt != Some(k) && !stopped
      requires stats == StatsOf(discovered, Sum(tallies))
      modifies manifest, store
      ensures var before := SerialFrom(ctx, now, capped, completed, stopAt, k, false, tallies, processed, old(manifest.lines), old(store.files));
        && (t.Err? ==> before == Sweep(Some(t.error), k, tallies, processed, manifest.lines, store.files, false))
        && (t.Ok? ==> before == SerialFrom(ctx, now, capped, completed, stopAt, k + 1, false, tallies', processed', manifest.lines, store.files))
      ensures t.Err? ==> processed' == processed && tallies' == tallies
      ensures t.Ok? ==> stats' == StatsOf(discovered, Sum(tallies'))
    {
      ghost var lines, files := manifest.lines, store.files;
      var e;
      t, e := ProcessOne(capped[k], completed, now);
      SerialFromNext(ctx, now, capped, completed, stopAt, k, tallies, processed, lines, files, Item(t, e, manifest.lines, store.files));
      if t.Ok? {
        CountedSum(discovered, tallies, t.value);
        stats', tallies' := Counted(stats, t.value), tallies + [t.value];
        processed' := processed + (if e.Some? then [e.value] else []);
      } else {
        stats', processed', tallies' := stats, processed, tallies;
      }
    }

    /** The loop of `Serial`; `tallies` is the tallies of the pages that
        returned, in order. */
    method SerialLoop(capped: seq<CdxClient.Capture>, discovered: nat, completed: set<M.Key>, stopAt: Option<nat>, now: real)
      returns (r: Result<Stats>, started: nat, processed: seq<Processed>, ghost tallies: seq<Tally>)
      requires Valid()
      modifies this, manifest, store
      ensures Sweep(if r.Err? then Some(r.error) else None, started, tallies, processed, manifest.lines, store.files, stopped)
        == SerialFrom(ctx, now, capped, completed, stopAt, 0, old(stopped), [], [], old(manifest.lines), old(store.files))
      ensures r.Ok? ==> r.value == StatsOf(discovered, Sum(tallies))
    {
      ghost var goal := SerialFrom(ctx, now, capped, completed, stopAt, 0, stopped, [], [], manifest.lines, store.files);
      processed := [];
      tallies := [];
      var stats := StatsOf(discovered, Untouched);
      started := 0;
      while started < |capped|
        invariant started <= |capped|
        invariant stats == StatsOf(discovered, Sum(tallies))
        invariant SerialFrom(ctx, now, capped, completed, stopAt, started, stopped, tallies, processed, manifest.lines, store.files) == goal
        decreases |capped| - started
      {
        if stopAt == Some(started) {
          Stop();
        }
        if stopped {
          break;
        }
        var t;
        t, stats, processed, tallies := SerialStep(capped, discovered, completed, stopAt, started, now, stats, processed, tallies);
        if t.Err? {
          return Err(t.error), started, processed, tallies;
        }
        started := started + 1;
      }
      r := Ok(stats);
    }

    /** `run`, serial mode. `pages` is what discovery returned; `index` is the
        list handed to `generate_index_file`, None when it is not called. Reading
        the completed set before the loop raises when the manifest holds a JSON
        value that is not an object, and nothing else happens then. */
    method Run(pages: seq<CdxClient.Capture>, stopAt: Option<nat>, now: real)
      returns (r: Result<Stats>, started: nat, index: Option<seq<Processed>>)
      requires Valid()
      modifies this, manifest, store
      ensures var c := M.CompletedSet(old(manifest.IterRecords()));
        c.Err? ==> r == Err(c.error) && started == 0 && index == None
                   && manifest.lines == old(manifest.lines) && store.files == old(store.files) && stopped == old(stopped)
      ensures var c := M.CompletedSet(old(manifest.IterRecords()));
        c.Ok? ==>
        var s := SerialFrom(ctx, now, Cap(pages, config.maxPages), c.value, stopAt, 0,
                            old(stopped), [], [], old(manifest.lines), old(store.files));
        && (r.Err? <==> s.err.Some?)
        && (r.Ok? ==> r.value == StatsOf(|pages|, Sum(s.tallies)))
        && index == (if s.err.None? && s.entries != [] then Some(s.entries) else None)
        && started == s.started && manifest.lines == s.lines && store.files == s.files && stopped == s.stopped
      ensures started <= |Cap(pages, config.maxPages)|
      ensures stopAt.Some? ==> started <= stopAt.value
      ensures started > 0 ==> !old(stopped)
      ensures r.Ok? && started < |Cap(pages, config.maxPages)| ==> stopped
      ensures r.Ok? ==> r.value.discovered == |pages|
      ensures r.Ok? ==> r.value.downloaded == r.value.cleaned && r.value.pdf + r.value.failed <= started
      ensures r.Ok? ==> (index.Some? <==> r.value.pdf > 0)
      ensures r.Ok? && index.Some? ==> |index.value| == r.value.pdf
      ensures build == AsWritten ==> index == None
      ensures r.Err? ==> index == None
      ensures old(manifest.lines) <= manifest.lines
    {
      var capped := Cap(pages, config.maxPages);
      var completed := manifest.GetCompletedSet();
      if completed.Err? {
        return Err(completed.error), 0, None;
      }
      var processed;
      r, started, processed := Serial(capped, |pages|, completed.value, stopAt, now);
      index := if r.Ok? && processed != [] then Some(processed) else None;
    }
  }
}
