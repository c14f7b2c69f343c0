/** The handful of Python `str` operations the archiver relies on, written out
    over `seq<char>`: prefix and substring tests, `find`/`rfind`, ASCII
    `lower()`, `strip()` with and without an explicit character set,
    `split(sep)`, `split()`, `join` and `replace`. */
module Strings {

  /** Python's `str.isspace()` for one character; `strip()`, `split()` and the
      regular-expression class `\s` use it. */
  predicate IsSpace(c: char) {
    || c == ' ' || ('\t' <= c <= '\r') || ('\U{001C}' <= c <= '\U{001F}')
    || c == '\U{0085}' || c == '\U{00A0}' || c == '\U{1680}' || ('\U{2000}' <= c <= '\U{200A}')
    || c == '\U{2028}' || c == '\U{2029}' || c == '\U{202F}' || c == '\U{205F}' || c == '\U{3000}'
  }

  predicate StartsWith(s: string, p: string) {
    |p| <= |s| && s[..|p|] == p
  }

  predicate EndsWith(s: string, p: string) {
    |p| <= |s| && s[|s| - |p|..] == p
  }

  /** Python's `sub in s`. */
  predicate Contains(s: string, sub: string)
    decreases |s|
  {
    StartsWith(s, sub) || (|s| > 0 && Contains(s[1..], sub))
  }

  lemma ContainsAt(s: string, sub: string, i: nat)
    requires i + |sub| <= |s| && s[i..i + |sub|] == sub
    ensures Contains(s, sub)
    decreases i
  {
    if i > 0 {
      assert s[1..][i - 1..i - 1 + |sub|] == sub;
      ContainsAt(s[1..], sub, i - 1);
    }
  }

  lemma ContainsWitness(s: string, sub: string) returns (i: nat)
    requires Contains(s, sub)
    ensures i + |sub| <= |s| && s[i..i + |sub|] == sub
    decreases |s|
  {
    if StartsWith(s, sub) {
      i := 0;
    } else {
      var j := ContainsWitness(s[1..], sub);
      i := j + 1;
      assert s[i..i + |sub|] == s[1..][j..j + |sub|];
    }
  }

  lemma ContainsInPrefix(s: string, t: string, sub: string)
    requires Contains(s, sub)
    ensures Contains(s + t, sub)
  {
    var i := ContainsWitness(s, sub);
    assert (s + t)[i..i + |sub|] == s[i..i + |sub|];
    ContainsAt(s + t, sub, i);
  }

  lemma ContainsInSuffix(s: string, t: string, sub: string)
    requires Contains(t, sub)
    ensures Contains(s + t, sub)
  {
    var i := ContainsWitness(t, sub);
    assert (s + t)[|s| + i..|s| + i + |sub|] == t[i..i + |sub|];
    ContainsAt(s + t, sub, |s| + i);
  }

  /** Python's `s.find(c)`, with "not found" reported as `|s|`. */
  function IndexOf(s: string, c: char): (i: nat)
    ensures i <= |s|
    ensures i < |s| ==> s[i] == c
    ensures forall j :: 0 <= j < i ==> s[j] != c
    ensures i == |s| <==> c !in s
  {
    if |s| == 0 then 0
    else if s[0] == c then 0
    else 1 + IndexOf(s[1..], c)
  }

  /** Index of the first character of `s` that lies in `cs`, or `|s|`. */
  function IndexOfAny(s: string, cs: set<char>): (i: nat)
    ensures i <= |s|
    ensures i < |s| ==> s[i] in cs
    ensures forall j :: 0 <= j < i ==> s[j] !in cs
  {
    if |s| == 0 then 0
    else if s[0] in cs then 0
    else 1 + IndexOfAny(s[1..], cs)
  }

  /** Python's `s.rfind(c)`, with "not found" reported as -1. */
  function LastIndexOf(s: string, c: char): (i: int)
    ensures -1 <= i < |s|
    ensures i >= 0 ==> s[i] == c
    ensures forall j :: i < j < |s| ==> s[j] != c
  {
    if |s| == 0 then -1
    else if s[|s| - 1] == c then |s| - 1
    else LastIndexOf(s[..|s| - 1], c)
  }

  predicate IsAsciiUpper(c: char) { 'A' <= c <= 'Z' }
  predicate IsAsciiLower(c: char) { 'a' <= c <= 'z' }
  predicate IsAsciiLetter(c: char) { IsAsciiUpper(c) || IsAsciiLower(c) }
  predicate IsAsciiDigit(c: char) { '0' <= c <= '9' }
  predicate IsAsciiAlnum(c: char) { IsAsciiLetter(c) || IsAsciiDigit(c) }

  function LowerChar(c: char): (r: char)
    ensures !IsAsciiUpper(r)
    ensures !IsAsciiUpper(c) ==> r == c
  {
    if IsAsciiUpper(c) then (c as int + 32) as char else c
  }

  /** `s.lower()` restricted to ASCII letters. */
  function Lower(s: string): (r: string)
    ensures |r| == |s|
    ensures forall i :: 0 <= i < |s| ==> r[i] == LowerChar(s[i])
  {
    seq(|s|, i requires 0 <= i < |s| => LowerChar(s[i]))
  }

  predicate IsLowered(s: string) {
    forall i :: 0 <= i < |s| ==> !IsAsciiUpper(s[i])
  }

  lemma LowerIdempotent(s: string)
    ensures IsLowered(Lower(s)) && Lower(Lower(s)) == Lower(s)
  {
  }

  lemma LowerOfLowered(s: string)
    requires IsLowered(s)
    ensures Lower(s) == s
  {
  }

  lemma LowerAppend(a: string, b: string)
    ensures Lower(a + b) == Lower(a) + Lower(b)
  {
  }

  /** Case-insensitive prefix test against a lower-case literal. */
  predicate CiStartsWith(s: string, p: string) {
    StartsWith(Lower(s), p)
  }

  /** Case-insensitive substring test against a lower-case literal. */
  predicate CiContains(s: string, sub: string) {
    Contains(Lower(s), sub)
  }

  predicate CiContainsAny(s: string, subs: seq<string>) {
    exists i :: 0 <= i < |subs| && CiContains(s, subs[i])
  }

  /** An exact occurrence of a lower-case literal is also a case-insensitive one. */
  lemma StartsWithLower(s: string, p: string)
    requires IsLowered(p) && StartsWith(s, p)
    ensures CiStartsWith(s, p)
  {
    assert Lower(s)[..|p|] == Lower(s[..|p|]);
    LowerOfLowered(p);
  }

  lemma {:induction false} ContainsLower(s: string, p: string)
    requires IsLowered(p) && Contains(s, p)
    ensures CiContains(s, p)
    decreases |s|
  {
    if StartsWith(s, p) {
      StartsWithLower(s, p);
    } else {
      ContainsLower(s[1..], p);
      assert Lower(s)[1..] == Lower(s[1..]);
    }
  }

  /** A case-insensitive prefix is a case-insensitive occurrence. */
  lemma CiStartsWithContains(s: string, p: string)
    requires CiStartsWith(s, p)
    ensures CiContains(s, p)
  {
  }

  /** `s.lstrip(chars)` */
  function LStrip(s: string, cs: set<char>): (r: string)
    ensures |r| <= |s| && r == s[|s| - |r|..]
    ensures r == [] || r[0] !in cs
    ensures forall i :: 0 <= i < |s| - |r| ==> s[i] in cs
    decreases |s|
  {
    if |s| > 0 && s[0] in cs then LStrip(s[1..], cs) else s
  }

  /** `s.rstrip(chars)` */
  function RStrip(s: string, cs: set<char>): (r: string)
    ensures |r| <= |s| && r == s[..|r|]
    ensures r == [] || r[|r| - 1] !in cs
    ensures forall i :: |r| <= i < |s| ==> s[i] in cs
    decreases |s|
  {
    if |s| > 0 && s[|s| - 1] in cs then RStrip(s[..|s| - 1], cs) else s
  }

  /** `s.strip(chars)` */
  function StripSet(s: string, cs: set<char>): (r: string)
    ensures |r| <= |s|
    ensures r == [] || (r[0] !in cs && r[|r| - 1] !in cs)
  {
    RStrip(LStrip(s, cs), cs)
  }

  /** `s.lstrip()` */
  function LStripSpace(s: string): (r: string)
    ensures |r| <= |s|
    ensures r == [] || !IsSpace(r[0])
    decreases |s|
  {
    if |s| > 0 && IsSpace(s[0]) then LStripSpace(s[1..]) else s
  }

  /** `s.rstrip()` */
  function RStripSpace(s: string): (r: string)
    ensures |r| <= |s| && r == s[..|r|]
    ensures r == [] || !IsSpace(r[|r| - 1])
    decreases |s|
  {
    if |s| > 0 && IsSpace(s[|s| - 1]) then RStripSpace(s[..|s| - 1]) else s
  }

  /** `s.strip()` */
  function Strip(s: string): (r: string)
    ensures |r| <= |s|
    ensures r == [] || (!IsSpace(r[0]) && !IsSpace(r[|r| - 1]))
  {
    RStripSpace(LStripSpace(s))
  }

  lemma StripOfClean(s: string)
    requires s == [] || (!IsSpace(s[0]) && !IsSpace(s[|s| - 1]))
    ensures Strip(s) == s
  {
  }

  /** `strip()` removes one trailing space from an otherwise clean text. */
  lemma StripTrailingSpace(s: string)
    requires s != [] && !IsSpace(s[0]) && !IsSpace(s[|s| - 1])
    ensures Strip(s + " ") == s
  {
    var t := s + " ";
    assert LStripSpace(t) == t;
    assert t[..|t| - 1] == s;
    assert RStripSpace(t) == RStripSpace(s);
  }

  /** Index of the first whitespace character of `s`, or `|s|`. */
  function IndexOfSpace(s: string): (i: nat)
    ensures i <= |s|
    ensures i < |s| ==> IsSpace(s[i])
    ensures forall j :: 0 <= j < i ==> !IsSpace(s[j])
  {
    if |s| == 0 then 0
    else if IsSpace(s[0]) then 0
    else 1 + IndexOfSpace(s[1..])
  }

  lemma StripSetOfClean(s: string, cs: set<char>)
    requires s == [] || (s[0] !in cs && s[|s| - 1] !in cs)
    ensures StripSet(s, cs) == s
  {
  }

  /** No character of `s` lies in `cs`. */
  predicate NoneOf(s: string, cs: set<char>) {
    forall i :: 0 <= i < |s| ==> s[i] !in cs
  }

  lemma NoneOfAppend(a: string, b: string, cs: set<char>)
    requires NoneOf(a, cs) && NoneOf(b, cs)
    ensures NoneOf(a + b, cs)
  {
  }

  /** `s` with every character of `cs` deleted (the `replace(ch, "")` loop of `urlsplit`). */
  function Without(s: string, cs: set<char>): (r: string)
    ensures |r| <= |s| && NoneOf(r, cs)
    ensures NoneOf(s, cs) ==> r == s
    decreases |s|
  {
    if |s| == 0 then ""
    else (if s[0] in cs then "" else [s[0]]) + Without(s[1..], cs)
  }

  /** A string around one of its characters. */
  lemma SplitAround(s: string, i: nat, c: char)
    requires i < |s| && s[i] == c
    ensures s == s[..i] + [c] + s[i + 1..]
  {
  }

  /** Two texts that begin with different words, each ended by the same separator
      that neither word holds, differ. */
  lemma DistinctHeads(x: string, y: string, a: string, b: string, sep: char)
    requires StartsWith(x, a + [sep]) && StartsWith(y, b + [sep])
    requires sep !in a && sep !in b && a != b
    ensures x != y
  {
    if |a| < |b| {
      assert x[|a|] == sep && y[|a|] == b[|a|] && b[|a|] != sep;
    } else if |b| < |a| {
      assert y[|b|] == sep && x[|b|] == a[|b|] && a[|b|] != sep;
    } else {
      var k :| 0 <= k < |a| && a[k] != b[k];
      assert x[k] == a[k] && y[k] == b[k];
    }
  }

  lemma {:induction false} IndexOfConcat(a: string, b: string, c: char)
    requires c !in a
    ensures IndexOf(a + b, c) == |a| + IndexOf(b, c)
    decreases |a|
  {
    if |a| > 0 {
      assert (a + b)[1..] == a[1..] + b;
      IndexOfConcat(a[1..], b, c);
    } else {
      assert a + b == b;
    }
  }

  lemma {:induction false} IndexOfAnyConcat(a: string, b: string, cs: set<char>)
    requires NoneOf(a, cs)
    ensures IndexOfAny(a + b, cs) == |a| + IndexOfAny(b, cs)
    decreases |a|
  {
    if |a| > 0 {
      assert (a + b)[1..] == a[1..] + b;
      IndexOfAnyConcat(a[1..], b, cs);
    } else {
      assert a + b == b;
    }
  }

  lemma {:induction false} LastIndexOfConcat(a: string, b: string, c: char)
    requires c !in b
    ensures LastIndexOf(a + b, c) == LastIndexOf(a, c)
    decreases |b|
  {
    if |b| > 0 {
      assert (a + b)[..|a + b| - 1] == a + b[..|b| - 1];
      LastIndexOfConcat(a, b[..|b| - 1], c);
    } else {
      assert a + b == a;
    }
  }

  lemma {:induction false} WithoutAppend(a: string, b: string, cs: set<char>)
    ensures Without(a + b, cs) == Without(a, cs) + Without(b, cs)
    decreases |a|
  {
    if |a| > 0 {
      assert (a + b)[1..] == a[1..] + b;
      WithoutAppend(a[1..], b, cs);
    } else {
      assert a + b == b;
    }
  }

  /** Lower-casing touches letters only, so it keeps a string free of non-letters. */
  lemma LowerNoneOf(s: string, cs: set<char>)
    requires NoneOf(s, cs) && forall c :: c in cs ==> !IsAsciiLetter(c)
    ensures NoneOf(Lower(s), cs)
  {
  }

  lemma LowerMember(s: string, c: char)
    requires !IsAsciiLetter(c)
    ensures c in Lower(s) <==> c in s
  {
    if c in s {
      var i :| 0 <= i < |s| && s[i] == c;
      assert Lower(s)[i] == c;
    }
    if c in Lower(s) {
      var i :| 0 <= i < |s| && Lower(s)[i] == c;
      assert s[i] == c;
    }
  }

  /** `s.split(sep)` for a one-character separator: never empty, and the
      parts joined back with the separator give `s`. */
  function Split(s: string, c: char): (r: seq<string>)
    ensures |r| >= 1
    ensures forall k :: 0 <= k < |r| ==> c !in r[k]
    decreases |s|
  {
    var i := IndexOf(s, c);
    if i == |s| then [s] else [s[..i]] + Split(s[i + 1..], c)
  }

  /** Splitting at a first separator after a separator-free head. */
  lemma SplitCons(a: string, c: char, b: string)
    requires c !in a
    ensures Split(a + [c] + b, c) == [a] + Split(b, c)
  {
    var s := a + [c] + b;
    IndexOfConcat(a, [c] + b, c);
    assert s == a + ([c] + b);
    assert s[..|a|] == a;
    assert s[|a| + 1..] == b;
  }

  /** Two separators in a row leave an empty part between them. */
  lemma SplitEmptyPart(a: string, c: char, b: string)
    requires c !in a
    ensures Split(a + [c] + ([] + [c] + b), c) == [a] + ([""] + Split(b, c))
  {
    SplitCons(a, c, [] + [c] + b);
    SplitCons([], c, b);
  }

  /** `sep.join(parts)` */
  function Join(parts: seq<string>, sep: string): string
    decreases |parts|
  {
    if |parts| == 0 then ""
    else if |parts| == 1 then parts[0]
    else parts[0] + sep + Join(parts[1..], sep)
  }

  lemma {:induction false} JoinSplit(s: string, c: char)
    ensures Join(Split(s, c), [c]) == s
    decreases |s|
  {
    var i := IndexOf(s, c);
    if i < |s| {
      var rest := Split(s[i + 1..], c);
      JoinSplit(s[i + 1..], c);
      var parts := [s[..i]] + rest;
      assert parts[1..] == rest;
      calc {
        Join(parts, [c]);
        s[..i] + [c] + Join(rest, [c]);
        s[..i] + [c] + s[i + 1..];
        s;
      }
    }
  }

  /** The text after the last `c`: Python's `s.split(c)[-1]`. */
  function LastPart(s: string, c: char): (r: string)
    ensures c !in r && EndsWith(s, r)
  {
    var i := LastIndexOf(s, c);
    s[i + 1..]
  }
  /** Cut before the first `d` at or after `from`, where `from` is the start or
      an occurrence of `c`: the last `c`-separated part holds no `d`. */
  lemma LastPartBeforeFirst(s: string, from: nat, c: char, d: char)
    requires c != d && (from == 0 || (from < |s| && s[from] == c))
    ensures from <= |s| && d !in LastPart(s[..from + IndexOf(s[from..], d)], c)
  {
    var tail := s[from..];
    var head := s[..from + IndexOf(tail, d)];
    if from > 0 {
      assert tail[0] == c;
      assert head[from] == c;
    }
    forall j | from <= j < |head|
      ensures head[j] != d
    {
      assert head[j] == tail[j - from];
    }
    LastPartFreeFrom(head, c, d, from);
  }

  /** The last `c`-separated part lies after a `c` at or past `from` (or `from` is
      the start), so when no `d` occurs from `from` on, the part holds none. */
  lemma LastPartFreeFrom(s: string, c: char, d: char, from: nat)
    requires from == 0 || (from < |s| && s[from] == c)
    requires forall j :: from <= j < |s| ==> s[j] != d
    ensures d !in LastPart(s, c)
  {
    var k := LastIndexOf(s, c);
    assert from <= k + 1;
    var r := s[k + 1..];
    forall t | 0 <= t < |r|
      ensures r[t] != d
    {
      assert r[t] == s[k + 1 + t];
    }
  }


  /** `s.split()` with no separator: the maximal runs of non-whitespace. */
  function Words(s: string): seq<string>
    decreases |s|
  {
    var t := LStripSpace(s);
    if t == [] then []
    else
      var k := IndexOfSpace(t);
      [t[..k]] + Words(t[k..])
  }

  /** `s.replace(old, new)`: leftmost, non-overlapping occurrences. */
  function ReplaceAll(s: string, from: string, to: string): string
    requires |from| > 0
    decreases |s|
  {
    if StartsWith(s, from) then to + ReplaceAll(s[|from|..], from, to)
    else if |s| == 0 then ""
    else [s[0]] + ReplaceAll(s[1..], from, to)
  }

  /** Replacing every occurrence of a single character is a character-by-character map. */
  function MapChar(s: string, c: char, to: string): (r: string)
    decreases |s|
  {
    if |s| == 0 then "" else (if s[0] == c then to else [s[0]]) + MapChar(s[1..], c, to)
  }

  lemma {:induction false} ReplaceCharIsMap(s: string, c: char, to: string)
    ensures ReplaceAll(s, [c], to) == MapChar(s, c, to)
    decreases |s|
  {
    if |s| > 0 {
      ReplaceCharIsMap(s[1..], c, to);
    }
  }

  lemma {:induction false} MapCharAppend(a: string, b: string, c: char, to: string)
    ensures MapChar(a + b, c, to) == MapChar(a, c, to) + MapChar(b, c, to)
    decreases |a|
  {
    if |a| > 0 {
      assert (a + b)[1..] == a[1..] + b;
      MapCharAppend(a[1..], b, c, to);
    } else {
      assert a + b == b;
    }
  }

  lemma {:induction false} MapCharAbsent(s: string, c: char, to: string)
    requires c !in s
    ensures MapChar(s, c, to) == s
    decreases |s|
  {
    if |s| > 0 {
      MapCharAbsent(s[1..], c, to);
    }
  }

  lemma {:induction false} ReplaceAllAbsent(s: string, from: string, to: string)
    requires |from| > 0 && !Contains(s, from)
    ensures ReplaceAll(s, from, to) == s
    decreases |s|
  {
    if |s| > 0 {
      ReplaceAllAbsent(s[1..], from, to);
    }
  }
}
