/** `AssetDownloader.download`: each asset fetched from the archive for the
    page's capture time and written at the asset directory joined with its local name; the result maps
    the URL of each asset that arrived to its file. */
module AssetDownloader {
  import opened Wrappers
  import Paths
  import Codec
  import opened Assets

  /** The state `download` builds: the mapping so far, the files on disk and
      the archive URLs requested, in order. */
  datatype Progress = Progress(mapping: Result<map<string, string>>, files: map<string, seq<Codec.byte>>, requested: seq<string>)

  /** What a download works with: the destination directory, the capture time,
      `fetch` standing for the request to the archive (the body of a response
      that succeeded, or None when the request raised or the status was an
      error) and `localName` standing for `_local_name`. */
  datatype Env = Env(destDir: string, timestamp: string, fetch: string -> Option<seq<Codec.byte>>, localName: string -> Result<string>)

  /** `download` over `assets`. The local name is worked out before the
      request, outside the `try`, so a URL that does not parse ends the
      download with its error. */
  function Downloading(assets: seq<Asset>, env: Env, files: map<string, seq<Codec.byte>>): Progress
    decreases |assets|
  {
    if assets == [] then Progress(Ok(map[]), files, [])
    else
      var p := Downloading(assets[..|assets| - 1], env, files);
      var a := assets[|assets| - 1];
      if p.mapping.Err? then p
      else
        match env.localName(a.url)
        case Err(e) => p.(mapping := Err(e))
        case Ok(rel) =>
          var path := Paths.Join(env.destDir, rel);
          var wayback := WaybackAssetUrl(a.url, env.timestamp);
          match env.fetch(wayback)
          case None => p.(requested := p.requested + [wayback])
          case Some(body) => Progress(Ok(p.mapping.value[a.url := path]), p.files[path := body], p.requested + [wayback])
  }

  lemma InitOfSnoc<T>(xs: seq<T>, i: nat)
    requires i < |xs|
    ensures xs[..i + 1][..i] == xs[..i] && xs[..i + 1][i] == xs[i] && |xs[..i + 1]| == i + 1
  {
  }

  /** An asset whose file was written: its URL has a local name and the
      archive answered. */
  predicate Arrived(a: Asset, env: Env) {
    env.localName(a.url).Ok? && env.fetch(WaybackAssetUrl(a.url, env.timestamp)).Some?
  }

  /** The download fails exactly when some URL has no local name. */
  lemma {:induction false} DownloadingFails(assets: seq<Asset>, env: Env, files: map<string, seq<Codec.byte>>)
    ensures Downloading(assets, env, files).mapping.Err? <==> exists i :: 0 <= i < |assets| && env.localName(assets[i].url).Err?
    decreases |assets|
  {
    if assets != [] {
      var n := |assets| - 1;
      var init := assets[..n];
      DownloadingFails(init, env, files);
      assert forall i :: 0 <= i < n ==> init[i] == assets[i];
    }
  }

  /** A successful download maps exactly the URLs of the assets that
      arrived. */
  lemma {:induction false} DownloadingKeys(assets: seq<Asset>, env: Env, files: map<string, seq<Codec.byte>>)
    requires Downloading(assets, env, files).mapping.Ok?
    ensures forall u :: u in Downloading(assets, env, files).mapping.value <==>
      exists i :: 0 <= i < |assets| && assets[i].url == u && Arrived(assets[i], env)
    decreases |assets|
  {
    if assets != [] {
      var n := |assets| - 1;
      var init := assets[..n];
      DownloadingKeys(init, env, files);
      assert forall i :: 0 <= i < n ==> init[i] == assets[i];
    }
  }

  /** Each mapped URL goes to its local name joined to the destination
      directory, and that file was written. */
  lemma {:induction false} DownloadingPaths(assets: seq<Asset>, env: Env, files: map<string, seq<Codec.byte>>)
    requires Downloading(assets, env, files).mapping.Ok?
    ensures var p := Downloading(assets, env, files);
      forall u :: u in p.mapping.value ==>
        env.localName(u).Ok? && p.mapping.value[u] == Paths.Join(env.destDir, env.localName(u).value) && p.mapping.value[u] in p.files
    decreases |assets|
  {
    if assets != [] {
      DownloadingPaths(assets[..|assets| - 1], env, files);
    }
  }

  /** A successful download requests each asset's capture once, in order. */
  lemma {:induction false} DownloadingRequests(assets: seq<Asset>, env: Env, files: map<string, seq<Codec.byte>>)
    requires Downloading(assets, env, files).mapping.Ok?
    ensures var p := Downloading(assets, env, files);
      |p.requested| == |assets| && forall i :: 0 <= i < |assets| ==> p.requested[i] == WaybackAssetUrl(assets[i].url, env.timestamp)
    decreases |assets|
  {
    if assets != [] {
      var n := |assets| - 1;
      var init := assets[..n];
      DownloadingRequests(init, env, files);
      assert forall i :: 0 <= i < n ==> init[i] == assets[i];
    }
  }

  /** A download only adds files: whatever was on disk stays there. */
  lemma {:induction false} DownloadingKeepsFiles(assets: seq<Asset>, env: Env, files: map<string, seq<Codec.byte>>)
    ensures files.Keys <= Downloading(assets, env, files).files.Keys
    decreases |assets|
  {
    if assets != [] {
      DownloadingKeepsFiles(assets[..|assets| - 1], env, files);
    }
  }

  /** With `_local_name`, every file a successful download maps is named by the
      destination directory's prefix followed by a relative name. That name may
      hold ".." segments, so this is not containment in the directory. */
  lemma MappedUnderDest(assets: seq<Asset>, env: Env, files: map<string, seq<Codec.byte>>, u: string)
    requires env.localName == LocalName
    requires Downloading(assets, env, files).mapping.Ok? && u in Downloading(assets, env, files).mapping.value
    ensures exists rel :: rel != "" && rel[0] != '/' && Downloading(assets, env, files).mapping.value[u] == Paths.DirPrefix(env.destDir) + rel
  {
    DownloadingPaths(assets, env, files);
    LocalNameUnderDest(env.destDir, u);
  }

  /** Once a prefix has failed, the whole download ends in that state. */
  lemma {:induction false} DownloadingErrSticks(assets: seq<Asset>, i: nat, env: Env, files: map<string, seq<Codec.byte>>)
    requires i <= |assets| && Downloading(assets[..i], env, files).mapping.Err?
    ensures Downloading(assets, env, files) == Downloading(assets[..i], env, files)
    decreases |assets| - i
  {
    if i < |assets| {
      InitOfSnoc(assets, i);
      DownloadingErrSticks(assets, i + 1, env, files);
    } else {
      assert assets[..i] == assets;
    }
  }

  /** `download`, writing each body that arrived to the store. */
  method Download(store: Store, assets: seq<Asset>, destDir: string, timestamp: string, fetch: string -> Option<seq<Codec.byte>>)
    returns (r: Result<map<string, string>>, requested: seq<string>)
    modifies store
    ensures Progress(r, store.files, requested) == Downloading(assets, Env(destDir, timestamp, fetch, LocalName), old(store.files))
  {
    var env := Env(destDir, timestamp, fetch, LocalName);
    var mapping: map<string, string> := map[];
    requested := [];
    for i := 0 to |assets|
      invariant Downloading(assets[..i], env, old(store.files)) == Progress(Ok(mapping), store.files, requested)
    {
      InitOfSnoc(assets, i);
      var a := assets[i];
      var wayback := WaybackAssetUrl(a.url, timestamp);
      var localRel := env.localName(a.url);
      if localRel.Err? {
        r := Err(localRel.error);
        DownloadingErrSticks(assets, i + 1, env, old(store.files));
        return;
      }
      var localPath := Paths.Join(destDir, localRel.value);
      var body := fetch(wayback);
      requested := requested + [wayback];
      if body.Some? {
        store.files := store.files[localPath := body.value];
        mapping := mapping[a.url := localPath];
      }
    }
    assert assets[..|assets|] == assets;
    r := Ok(mapping);
  }
}
