/** `WeasyPrintEngine`: the local-only resource fetcher handed to WeasyPrint
    and the rule by which `generate` reports success. */
module PdfEngine {
  import opened Wrappers
  import opened Strings
  import Paths
  import Codec

  /** Why the fetcher raised instead of returning data. */
  datatype Refusal = Remote | OutsideBase | Unreadable

  /** What the fetcher gives WeasyPrint: the bytes of a local file, or the
      `RuntimeError` it raises. */
  datatype Fetched = Resource(data: seq<Codec.byte>) | Blocked(reason: Refusal)

  predicate IsRemote(url: string) {
    StartsWith(url, "http://") || StartsWith(url, "https://")
  }

  /** The path a non-remote URL names: a `file://` prefix is dropped, anything
      else is already a path. */
  function LocalPath(url: string): (r: string)
    ensures StartsWith(url, "file://") ==> url == "file://" + r
    ensures !StartsWith(url, "file://") ==> r == url
  {
    if StartsWith(url, "file://") then url[7..] else url
  }

  /** `if allowed_base:` is false for None and for the empty string. */
  predicate Guarded(allowedBase: Option<string>) {
    allowedBase.Some? && allowedBase.value != ""
  }

  /** The fetcher as written. `abspath` stands for `os.path.abspath` and
      `files` for what can be read from disk. */
  function Fetch(url: string, allowedBase: Option<string>, abspath: string -> string, files: map<string, seq<Codec.byte>>): (r: Fetched)
  {
    if IsRemote(url) then Blocked(Remote)
    else
      var abs := abspath(LocalPath(url));
      if Guarded(allowedBase) && !StartsWith(abs, abspath(allowedBase.value)) then Blocked(OutsideBase)
      else if abs in files then Resource(files[abs])
      else Blocked(Unreadable)
  }

  /** Whatever the base, a remote URL is refused. */
  lemma RemoteBlocked(url: string, allowedBase: Option<string>, abspath: string -> string, files: map<string, seq<Codec.byte>>)
    requires IsRemote(url)
    ensures Fetch(url, allowedBase, abspath, files) == Blocked(Remote)
  {
  }

  /** What the fetcher returns is the file the URL's path resolves to, the URL
      is not remote, and under a base the resolved path starts with the
      resolved base as text. */
  lemma FetchedData(url: string, allowedBase: Option<string>, abspath: string -> string, files: map<string, seq<Codec.byte>>)
    requires Fetch(url, allowedBase, abspath, files).Resource?
    ensures !IsRemote(url)
    ensures abspath(LocalPath(url)) in files && Fetch(url, allowedBase, abspath, files).data == files[abspath(LocalPath(url))]
    ensures Guarded(allowedBase) ==> StartsWith(abspath(LocalPath(url)), abspath(allowedBase.value))
  {
  }

  /** Without a base every local file that exists is served. */
  lemma UnguardedServesAnyFile(url: string, allowedBase: Option<string>, abspath: string -> string, files: map<string, seq<Codec.byte>>)
    requires !Guarded(allowedBase) && !IsRemote(url) && abspath(LocalPath(url)) in files
    ensures Fetch(url, allowedBase, abspath, files) == Resource(files[abspath(LocalPath(url))])
  {
  }

  /** A path allowed through that has no file behind it is a read failure. */
  lemma MissingFileUnreadable(url: string, allowedBase: Option<string>, abspath: string -> string, files: map<string, seq<Codec.byte>>)
    requires !IsRemote(url) && abspath(LocalPath(url)) !in files
    ensures Fetch(url, allowedBase, abspath, files).Blocked?
    ensures !Guarded(allowedBase) || StartsWith(abspath(LocalPath(url)), abspath(allowedBase.value)) ==>
      Fetch(url, allowedBase, abspath, files) == Blocked(Unreadable)
  {
  }

  /** A `file://` URL is local and names the path after the prefix. */
  lemma FileUrl(path: string)
    ensures !IsRemote("file://" + path) && LocalPath("file://" + path) == path
  {
    var url := "file://" + path;
    assert url[..7] == "file://";
    assert url[0] == 'f';
    assert url[7..] == path;
  }

  /** `/base2/secret.css` starts with `/base` as text but is not within it. */
  lemma BaseSibling()
    ensures StartsWith("/base2/secret.css", "/base") && !Within("/base2/secret.css", "/base")
  {
    var abs := "/base2/secret.css";
    assert abs[..5] == "/base";
    assert Paths.DirPrefix("/base") == "/base/" by {
      assert "/base"[4] == 'e';
    }
    assert abs[5] == '2';
  }

  /** The raw prefix test lets a sibling directory through: with base `/base`,
      a file under `/base2` is served. */
  lemma SiblingPassesBase(abspath: string -> string, files: map<string, seq<Codec.byte>>)
    requires abspath("/base") == "/base" && abspath("/base2/secret.css") == "/base2/secret.css"
    requires "/base2/secret.css" in files
    ensures Fetch("file://" + "/base2/secret.css", Some("/base"), abspath, files).Resource?
    ensures !Within("/base2/secret.css", "/base")
  {
    FileUrl("/base2/secret.css");
    BaseSibling();
  }

  /** Containment as a directory: the path is the base itself or lies below
      it. */
  predicate Within(abs: string, base: string) {
    abs == base || StartsWith(abs, Paths.DirPrefix(base))
  }

  /** The fetcher with containment checked on whole path components. */
  function FetchWithin(url: string, allowedBase: Option<string>, abspath: string -> string, files: map<string, seq<Codec.byte>>): (r: Fetched)
    ensures r.Resource? ==> !IsRemote(url) && abspath(LocalPath(url)) in files
    ensures r.Resource? && Guarded(allowedBase) ==> Within(abspath(LocalPath(url)), abspath(allowedBase.value))
  {
    if IsRemote(url) then Blocked(Remote)
    else
      var abs := abspath(LocalPath(url));
      if Guarded(allowedBase) && !Within(abs, abspath(allowedBase.value)) then Blocked(OutsideBase)
      else if abs in files then Resource(files[abs])
      else Blocked(Unreadable)
  }

  lemma PrefixOfPrefix(s: string, p: string, q: string)
    requires StartsWith(s, p + q)
    ensures StartsWith(s, p)
  {
    assert s[..|p|] == (s[..|p + q|])[..|p|];
  }

  /** Being within a directory implies passing the raw prefix test. */
  lemma WithinStartsWith(abs: string, base: string)
    requires Within(abs, base)
    ensures StartsWith(abs, base)
  {
    if abs != base && !(base == "" || EndsWith(base, "/")) {
      PrefixOfPrefix(abs, base, "/");
    }
  }

  /** The corrected fetcher only narrows the one as written: whatever it
      serves, the fetcher as written serves too. */
  lemma FetchWithinNarrows(url: string, allowedBase: Option<string>, abspath: string -> string, files: map<string, seq<Codec.byte>>)
    requires FetchWithin(url, allowedBase, abspath, files).Resource?
    ensures Fetch(url, allowedBase, abspath, files) == FetchWithin(url, allowedBase, abspath, files)
  {
    if Guarded(allowedBase) {
      WithinStartsWith(abspath(LocalPath(url)), abspath(allowedBase.value));
    }
  }

  /** The corrected fetcher refuses the sibling directory. */
  lemma SiblingRefusedWithin(abspath: string -> string, files: map<string, seq<Codec.byte>>)
    requires abspath("/base") == "/base" && abspath("/base2/secret.css") == "/base2/secret.css"
    ensures FetchWithin("file://" + "/base2/secret.css", Some("/base"), abspath, files) == Blocked(OutsideBase)
  {
    FileUrl("/base2/secret.css");
    BaseSibling();
  }

  /** What WeasyPrint's `write_pdf` did: raised, or finished with the files
      now on disk. */
  datatype Render = Raised | Wrote(files: map<string, seq<Codec.byte>>)

  /** `generate`: False when WeasyPrint could not be imported or rendering
      raised, otherwise whether the output file exists and is non-empty. */
  function Generate(installed: bool, outputPath: string, render: Render): (r: bool)
    ensures r ==> installed && render.Wrote?
    ensures r <==> installed && render.Wrote? && outputPath in render.files && |render.files[outputPath]| > 0
  {
    if !installed then false
    else match render
      case Raised => false
      case Wrote(files) => outputPath in files && |files[outputPath]| > 0
  }
}
