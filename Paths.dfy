/** The POSIX `os.path` operations the archiver applies to path strings: `join`
    of two parts, `dirname`, `basename` and the root of `splitext`. */
module Paths {
  import opened Strings

  /** `os.path.join(a, b)`: an absolute `b` replaces `a`; otherwise a '/' is put
      between them unless `a` is empty or already ends in one. */
  function Join(a: string, b: string): (r: string)
    ensures StartsWith(b, "/") ==> r == b
    ensures EndsWith(r, b)
  {
    if StartsWith(b, "/") then b
    else if a == "" || EndsWith(a, "/") then a + b
    else a + "/" + b
  }

  /** What `Join(a, ·)` puts in front of a relative part. */
  function DirPrefix(a: string): string {
    if a == "" || EndsWith(a, "/") then a else a + "/"
  }

  /** Joining a relative part is putting the directory prefix in front of it. */
  lemma JoinRelative(a: string, b: string)
    requires !StartsWith(b, "/")
    ensures Join(a, b) == DirPrefix(a) + b
  {
  }

  /** `os.path.basename`: the text after the last '/'. */
  function BaseName(p: string): (r: string)
    ensures '/' !in r && EndsWith(p, r)
  {
    LastPart(p, '/')
  }

  predicate AllSlashes(s: string) {
    forall k :: 0 <= k < |s| ==> s[k] == '/'
  }

  /** `os.path.dirname`: the text up to and including the last '/', with the
      trailing slashes dropped unless it is made of slashes only. */
  function DirName(p: string): (r: string)
    ensures StartsWith(p, r)
    ensures '/' !in p ==> r == ""
  {
    var i := LastIndexOf(p, '/');
    var head := p[..i + 1];
    if head != "" && !AllSlashes(head) then RStrip(head, {'/'}) else head
  }

  /** A name without '/' joined under a directory is the basename of the result. */
  lemma BaseNameOfJoin(a: string, b: string)
    requires '/' !in b
    ensures BaseName(Join(a, b)) == b
  {
    var p := Join(a, b);
    var pre := DirPrefix(a);
    assert !StartsWith(b, "/") by {
      if |b| >= 1 {
        assert b[..1][0] == b[0] != '/';
      }
    }
    JoinRelative(a, b);
    if pre != "" {
      assert pre[|pre| - 1] == '/';
      assert p == pre + b;
      LastIndexOfConcat(pre, b, '/');
    } else {
      assert p == b;
    }
  }

  /** `os.path.splitext(name)[0]` for a name without '/': the text before the last
      '.', unless that '.' is preceded by dots only. */
  function Root(name: string): (r: string)
    ensures StartsWith(name, r)
  {
    var dot := LastIndexOf(name, '.');
    if dot > 0 && !AllDots(name[..dot]) then name[..dot] else name
  }

  predicate AllDots(s: string) {
    forall k :: 0 <= k < |s| ==> s[k] == '.'
  }

  /** The root of `stem + ext`, where `ext` is a dot and dot-free text, is `stem`
      when `stem` is not made of dots only. */
  lemma RootOfExtension(stem: string, ext: string)
    requires ext != "" && ext[0] == '.' && '.' !in ext[1..] && !AllDots(stem)
    ensures Root(stem + ext) == stem
  {
    var name := stem + ext;
    assert ext == "." + ext[1..];
    assert name == (stem + ".") + ext[1..];
    LastIndexOfConcat(stem + ".", ext[1..], '.');
    assert (stem + ".")[|stem|] == '.';
    assert name[..|stem|] == stem;
  }
}
