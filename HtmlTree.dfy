/** The cleaner's passes over the parsed document: removal of the archive's
    interface elements, scripts, stylesheets and comments, restoration of URL
    attributes, the final attribute and class cleanup, and `clean_html`, which
    chains them. The document is the node sequence the HTML parser produced;
    parsing and serialising are outside the model. */
module HtmlTree {
  import opened Strings
  import opened Wrappers
  import opened Url
  import opened HtmlCleaner

  // ---------------------------------------------------------------------------
  // Documents
  // ---------------------------------------------------------------------------

  datatype Attr = Attr(name: string, value: string)

  /** A parsed node. An element's `id` and its class tokens are kept apart from
      its other attributes; tag and attribute names are lower case, as the parser
      leaves them. */
  datatype Node =
    | Element(tag: string, id: Option<string>, classes: Option<seq<string>>, attrs: seq<Attr>, children: seq<Node>)
    | Text(text: string)
    | Comment(text: string)

  /** `element.get(name, '')`. */
  function Get(attrs: seq<Attr>, name: string): string
    decreases |attrs|
  {
    if attrs == [] then ""
    else if attrs[0].name == name then attrs[0].value
    else Get(attrs[1..], name)
  }

  /** `element.get_text() if element.string else ''`: the text of an element whose
      only child is a text node, and "" otherwise. */
  function OwnText(n: Node): string {
    if n.Element? && |n.children| == 1 && n.children[0].Text? then n.children[0].text else ""
  }

  /** The signatures of injected scripts and styles, matched case-insensitively. */
  const Signatures: seq<string> := ["web.archive.org", "wayback", "wbhack", "_wb_wombat", "archive_analytics", "__wb_"]

  /** The markers searched for, case-insensitively, in class tokens and ids. */
  const Markers: seq<string> := ["wayback", "wb-", "wm-"]

  /** The words that mark an injected comment. */
  const CommentKeywords: seq<string> := ["wayback", "archive.org", "web.archive", "begin wayback"]

  /** The attributes whose URLs are restored. */
  const UrlAttrs: seq<string> := ["href", "src", "action", "data-src"]

  /** The number of CSS selectors of the interface elements. */
  const SelectorCount: nat := 11

  /** The CSS selectors, in order: `#wm-ipp-base`, `#wm-ipp`, `.wb-overlay`,
      `#donato`, `.wb-autocomplete-suggestions`, `#wm-capresources`, `#wm-expand`,
      an id starting with "wm-", a class attribute starting with "wb-", a class
      attribute containing "wayback", an id containing "wayback". Attribute
      selectors read the class attribute as its tokens joined by spaces. */
  predicate SelectorMatches(k: nat, n: Node)
    requires n.Element?
  {
    var classes := if n.classes.Some? then n.classes.value else [];
    match k
    case 0 => n.id == Some("wm-ipp-base")
    case 1 => n.id == Some("wm-ipp")
    case 2 => n.classes.Some? && "wb-overlay" in classes
    case 3 => n.id == Some("donato")
    case 4 => n.classes.Some? && "wb-autocomplete-suggestions" in classes
    case 5 => n.id == Some("wm-capresources")
    case 6 => n.id == Some("wm-expand")
    case 7 => n.id.Some? && StartsWith(n.id.value, "wm-")
    case 8 => n.classes.Some? && StartsWith(Join(classes, " "), "wb-")
    case 9 => n.classes.Some? && Contains(Join(classes, " "), "wayback")
    case 10 => n.id.Some? && Contains(n.id.value, "wayback")
    case _ => false
  }

  /** A class token removed by the final cleanup. */
  predicate WaybackClass(token: string) {
    CiStartsWith(token, "wb-") || CiStartsWith(token, "wm-") || CiStartsWith(token, "wayback")
  }

  /** An attribute name removed by the final cleanup. */
  predicate WaybackData(name: string) {
    CiStartsWith(name, "data-wb") || CiStartsWith(name, "data-wayback")
  }

  /** A URL value that is empty or starts with a kept prefix. */
  predicate Kept(v: string) {
    v == "" || StartsWithAny(v, KeptPrefixes)
  }

  // ---------------------------------------------------------------------------
  // Node tests and pruning
  // ---------------------------------------------------------------------------

  /** A test on a single node: the ones the passes remove by, and two that state
      what the cleaned document is free of. */
  datatype Test =
    | Selector(k: nat)
    | ClassPattern
    | IdPattern
    | WaybackScript
    | WaybackLink
    | WaybackStyle
    | WaybackComment
    | UnkeptUrl
    | WaybackAttr
    | Either(first: Test, second: Test)

  predicate Matches(t: Test, n: Node) {
    match t
    case Selector(k) => n.Element? && SelectorMatches(k, n)
    case ClassPattern =>
      // each token is searched, then the tokens joined by spaces
      n.Element? && n.classes.Some?
      && ((exists i :: 0 <= i < |n.classes.value| && CiContainsAny(n.classes.value[i], Markers))
          || CiContainsAny(Join(n.classes.value, " "), Markers))
    case IdPattern => n.Element? && n.id.Some? && CiContainsAny(n.id.value, Markers)
    case WaybackScript =>
      n.Element? && n.tag == "script"
      && (CiContainsAny(OwnText(n), Signatures) || CiContainsAny(Get(n.attrs, "src"), Signatures))
    case WaybackLink =>
      n.Element? && n.tag == "link" && "stylesheet" in Words(Get(n.attrs, "rel"))
      && (HasMatch(ArchivePrefix, Get(n.attrs, "href"), true) || HasMatch(ArchiveItPrefix, Get(n.attrs, "href"), true))
    case WaybackStyle => n.Element? && n.tag == "style" && CiContainsAny(OwnText(n), Signatures)
    case WaybackComment => n.Comment? && CiContainsAny(n.text, CommentKeywords)
    case UnkeptUrl => n.Element? && exists a :: a in n.attrs && a.name in UrlAttrs && !Kept(a.value)
    case WaybackAttr =>
      n.Element?
      && ((exists a :: a in n.attrs && WaybackData(a.name))
          || (n.classes.Some? && exists c :: c in n.classes.value && WaybackClass(c)))
    case Either(f, g) => Matches(f, n) || Matches(g, n)
  }

  /** Tests that do not look at an element's children. */
  predicate HeadOnly(t: Test) {
    match t
    case WaybackScript => false
    case WaybackStyle => false
    case Either(f, g) => HeadOnly(f) && HeadOnly(g)
    case _ => true
  }

  /** Tests that look only at ids, class tokens and comments. */
  predicate IdClassOnly(t: Test) {
    match t
    case Selector(_) => true
    case ClassPattern => true
    case IdPattern => true
    case WaybackComment => true
    case Either(f, g) => IdClassOnly(f) && IdClassOnly(g)
    case _ => false
  }

  /** The interface elements: `#donato`, and any element whose class or id
      carries a marker. */
  const WaybackUi: Test := Either(Selector(3), Either(ClassPattern, IdPattern))

  /** Every matching node removed together with its subtree; a node's test is
      taken before its own children are pruned, as the passes collect before
      they remove. */
  function Prune(t: Test, ns: seq<Node>): (r: seq<Node>)
    ensures |r| <= |ns|
    decreases ns
  {
    if ns == [] then []
    else
      var rest := Prune(t, ns[1..]);
      if Matches(t, ns[0]) then rest
      else if ns[0].Element? then [ns[0].(children := Prune(t, ns[0].children))] + rest
      else [ns[0]] + rest
  }

  /** No node of the document, at any depth, passes the test. */
  predicate NoneMatch(t: Test, ns: seq<Node>)
    decreases ns
  {
    ns == []
    || (!Matches(t, ns[0]) && (ns[0].Element? ==> NoneMatch(t, ns[0].children)) && NoneMatch(t, ns[1..]))
  }

  lemma NoneMatchCons(t: Test, x: Node, rest: seq<Node>)
    ensures NoneMatch(t, [x] + rest)
      <==> !Matches(t, x) && (x.Element? ==> NoneMatch(t, x.children)) && NoneMatch(t, rest)
  {
    assert ([x] + rest)[0] == x && ([x] + rest)[1..] == rest;
  }

  /** The shape the HTML parser gives script and style elements: text only. */
  predicate RawTextHead(n: Node) {
    n.Element? && (n.tag == "script" || n.tag == "style") ==> forall c :: c in n.children ==> c.Text?
  }

  predicate Parsed(ns: seq<Node>)
    decreases ns
  {
    ns == [] || (RawTextHead(ns[0]) && (ns[0].Element? ==> Parsed(ns[0].children)) && Parsed(ns[1..]))
  }

  lemma {:induction false} TextNeverMatches(t: Test, s: string)
    ensures !Matches(t, Text(s))
  {
    match t
    case Either(f, g) =>
      TextNeverMatches(f, s);
      TextNeverMatches(g, s);
    case _ =>
  }

  /** Pruning leaves text alone. */
  lemma {:induction false} PruneTexts(t: Test, ns: seq<Node>)
    requires forall c :: c in ns ==> c.Text?
    ensures Prune(t, ns) == ns
    decreases ns
  {
    if ns != [] {
      assert ns[0] in ns;
      TextNeverMatches(t, ns[0].text);
      forall c | c in ns[1..]
        ensures c.Text?
      {
        assert c in ns;
      }
      PruneTexts(t, ns[1..]);
    }
  }

  lemma {:induction false} MatchesHeadOnly(t: Test, n: Node, children: seq<Node>)
    requires HeadOnly(t) && n.Element?
    ensures Matches(t, n.(children := children)) == Matches(t, n)
  {
    match t
    case Either(f, g) =>
      MatchesHeadOnly(f, n, children);
      MatchesHeadOnly(g, n, children);
    case _ =>
  }

  lemma {:induction false} MatchesIdClassOnly(t: Test, n: Node, attrs: seq<Attr>, children: seq<Node>)
    requires IdClassOnly(t) && n.Element?
    ensures Matches(t, n.(attrs := attrs, children := children)) == Matches(t, n)
  {
    match t
    case Either(f, g) =>
      MatchesIdClassOnly(f, n, attrs, children);
      MatchesIdClassOnly(g, n, attrs, children);
    case _ =>
  }

  /** A node keeps its test result when its children are pruned, if the test
      ignores children or the node has the parser's shape. */
  lemma MatchesAfterPrune(t: Test, u: Test, n: Node)
    requires n.Element? && (HeadOnly(t) || RawTextHead(n))
    ensures Matches(t, n.(children := Prune(u, n.children))) == Matches(t, n)
  {
    if HeadOnly(t) {
      MatchesHeadOnly(t, n, Prune(u, n.children));
    } else if n.tag == "script" || n.tag == "style" {
      PruneTexts(u, n.children);
      assert n.(children := Prune(u, n.children)) == n;
    } else {
      MatchesOtherTag(t, n, Prune(u, n.children));
    }
  }

  /** Only script and style tests read children, and only of their own tag. */
  lemma {:induction false} MatchesOtherTag(t: Test, n: Node, children: seq<Node>)
    requires n.Element? && n.tag != "script" && n.tag != "style"
    ensures Matches(t, n.(children := children)) == Matches(t, n)
  {
    match t
    case Either(f, g) =>
      MatchesOtherTag(f, n, children);
      MatchesOtherTag(g, n, children);
    case _ =>
  }

  /** After pruning by a test, no node passes it, when the test ignores children
      or the document has the parser's shape. */
  lemma {:induction false} PruneClean(t: Test, ns: seq<Node>)
    requires HeadOnly(t) || Parsed(ns)
    ensures NoneMatch(t, Prune(t, ns))
    decreases ns
  {
    if ns != [] {
      PruneClean(t, ns[1..]);
      var rest := Prune(t, ns[1..]);
      if !Matches(t, ns[0]) {
        if ns[0].Element? {
          var x := ns[0].(children := Prune(t, ns[0].children));
          PruneClean(t, ns[0].children);
          MatchesAfterPrune(t, t, ns[0]);
          NoneMatchCons(t, x, rest);
        } else {
          NoneMatchCons(t, ns[0], rest);
        }
      }
    }
  }

  /** A document already free of a test is left as it is. */
  lemma {:induction false} PruneStable(t: Test, ns: seq<Node>)
    requires NoneMatch(t, ns)
    ensures Prune(t, ns) == ns
    decreases ns
  {
    if ns != [] {
      PruneStable(t, ns[1..]);
      if ns[0].Element? {
        PruneStable(t, ns[0].children);
        assert ns[0].(children := ns[0].children) == ns[0];
      }
      assert [ns[0]] + ns[1..] == ns;
    }
  }

  /** Pruning by another test keeps a document free of a test that ignores
      children. */
  lemma {:induction false} PruneKeepsClean(t: Test, u: Test, ns: seq<Node>)
    requires HeadOnly(u) && NoneMatch(u, ns)
    ensures NoneMatch(u, Prune(t, ns))
    decreases ns
  {
    if ns != [] {
      PruneKeepsClean(t, u, ns[1..]);
      var rest := Prune(t, ns[1..]);
      if !Matches(t, ns[0]) {
        if ns[0].Element? {
          var x := ns[0].(children := Prune(t, ns[0].children));
          PruneKeepsClean(t, u, ns[0].children);
          MatchesHeadOnly(u, ns[0], Prune(t, ns[0].children));
          NoneMatchCons(u, x, rest);
        } else {
          NoneMatchCons(u, ns[0], rest);
        }
      }
    }
  }

  lemma PruneCons(t: Test, x: Node, rest: seq<Node>)
    ensures Prune(t, [x] + rest)
      == (if Matches(t, x) then [] else if x.Element? then [x.(children := Prune(t, x.children))] else [x]) + Prune(t, rest)
  {
    assert ([x] + rest)[0] == x && ([x] + rest)[1..] == rest;
  }

  /** Two prunes in a row are one prune by either test, when the second ignores
      children. */
  lemma {:induction false} PruneComposes(f: Test, g: Test, ns: seq<Node>)
    requires HeadOnly(g)
    ensures Prune(g, Prune(f, ns)) == Prune(Either(f, g), ns)
    decreases ns
  {
    if ns != [] {
      var x, rest := ns[0], ns[1..];
      PruneComposes(f, g, rest);
      if x.Element? {
        PruneComposes(f, g, x.children);
      }
      assert ns == [x] + rest;
      PruneComposesHead(f, g, x, rest);
    }
  }

  /** One node in front: when the two prunes compose on its children and on
      the rest, they compose on the whole. */
  lemma PruneComposesHead(f: Test, g: Test, x: Node, rest: seq<Node>)
    requires HeadOnly(g)
    requires Prune(g, Prune(f, rest)) == Prune(Either(f, g), rest)
    requires x.Element? ==> Prune(g, Prune(f, x.children)) == Prune(Either(f, g), x.children)
    ensures Prune(g, Prune(f, [x] + rest)) == Prune(Either(f, g), [x] + rest)
  {
    PruneCons(f, x, rest);
    PruneCons(Either(f, g), x, rest);
    if !Matches(f, x) {
      if x.Element? {
        var y := x.(children := Prune(f, x.children));
        MatchesHeadOnly(g, x, Prune(f, x.children));
        PruneCons(g, y, Prune(f, rest));
        assert y.(children := Prune(g, y.children)) == x.(children := Prune(Either(f, g), x.children));
      } else {
        PruneCons(g, x, Prune(f, rest));
      }
    }
  }

  /** Tests that agree on every node prune alike. */
  lemma {:induction false} PruneSameTests(f: Test, g: Test, ns: seq<Node>)
    requires forall n :: Matches(f, n) <==> Matches(g, n)
    ensures Prune(f, ns) == Prune(g, ns)
    decreases ns
  {
    if ns != [] {
      var x, rest := ns[0], ns[1..];
      PruneSameTests(f, g, rest);
      if x.Element? {
        PruneSameTests(f, g, x.children);
      }
      assert ns == [x] + rest;
      PruneSameHead(f, g, x, rest);
    }
  }

  /** One node in front: tests that agree on it, and prune its children and the
      rest alike, prune the whole alike. */
  lemma PruneSameHead(f: Test, g: Test, x: Node, rest: seq<Node>)
    requires Matches(f, x) == Matches(g, x) && Prune(f, rest) == Prune(g, rest)
    requires x.Element? ==> Prune(f, x.children) == Prune(g, x.children)
    ensures Prune(f, [x] + rest) == Prune(g, [x] + rest)
  {
    PruneCons(f, x, rest);
    PruneCons(g, x, rest);
  }

  /** Pruning keeps the parser's shape. */
  lemma {:induction false} PruneParsed(t: Test, ns: seq<Node>)
    requires Parsed(ns)
    ensures Parsed(Prune(t, ns))
    decreases ns
  {
    if ns != [] {
      PruneParsed(t, ns[1..]);
      var rest := Prune(t, ns[1..]);
      var x := ns[0];
      if !Matches(t, x) {
        var y := if x.Element? then x.(children := Prune(t, x.children)) else x;
        if x.Element? {
          PruneParsed(t, x.children);
          if x.tag == "script" || x.tag == "style" {
            PruneTexts(t, x.children);
          }
        }
        assert RawTextHead(y);
        assert ([y] + rest)[0] == y && ([y] + rest)[1..] == rest;
      }
    }
  }

  // ---------------------------------------------------------------------------
  // `_remove_wayback_elements`
  // ---------------------------------------------------------------------------

  /** The selector passes from the `k`-th on, each over what the earlier ones
      left. */
  function SelectorPasses(ns: seq<Node>, k: nat): seq<Node>
    decreases SelectorCount - k
  {
    if k >= SelectorCount then ns else SelectorPasses(Prune(Selector(k), ns), k + 1)
  }

  /** `_remove_wayback_elements`: the selectors in order, then the class and the
      id regular expressions. */
  function RemoveWaybackElements(doc: seq<Node>): seq<Node> {
    Prune(IdPattern, Prune(ClassPattern, SelectorPasses(doc, 0)))
  }

  /** Any of the selectors from the `k`-th to the last. */
  function SelectorsFrom(k: nat): Test
    decreases SelectorCount - k
  {
    if k + 1 >= SelectorCount then Selector(k) else Either(Selector(k), SelectorsFrom(k + 1))
  }

  lemma {:induction false} HeadOnlySelectors(k: nat)
    ensures HeadOnly(SelectorsFrom(k))
    decreases SelectorCount - k
  {
    if k + 1 < SelectorCount {
      HeadOnlySelectors(k + 1);
    }
  }

  lemma {:induction false} SelectorPassesArePrune(ns: seq<Node>, k: nat)
    requires k < SelectorCount
    ensures SelectorPasses(ns, k) == Prune(SelectorsFrom(k), ns)
    decreases SelectorCount - k
  {
    var first := Prune(Selector(k), ns);
    assert SelectorPasses(ns, k) == SelectorPasses(first, k + 1);
    if k + 1 < SelectorCount {
      assert SelectorsFrom(k) == Either(Selector(k), SelectorsFrom(k + 1));
      SelectorPassesArePrune(first, k + 1);
      assert Prune(SelectorsFrom(k + 1), first) == Prune(SelectorsFrom(k), ns) by {
        HeadOnlySelectors(k + 1);
        PruneComposes(Selector(k), SelectorsFrom(k + 1), ns);
      }
    } else {
      assert SelectorsFrom(k) == Selector(k);
      assert SelectorPasses(first, k + 1) == first;
    }
  }

  lemma MarkerAt(s: string, i: nat)
    requires i < |Markers| && CiContains(s, Markers[i])
    ensures CiContainsAny(s, Markers)
  {
  }

  /** The id selectors other than `#donato` pick only ids with a marker. */
  lemma IdSelectorMarked(k: nat, n: Node)
    requires n.Element? && k in {0, 1, 5, 6, 7, 10} && SelectorMatches(k, n)
    ensures Matches(IdPattern, n)
  {
    var id := n.id.value;
    if k == 10 {
      ContainsLower(id, "wayback");
      MarkerAt(id, 0);
    } else {
      assert StartsWith(id, "wm-");
      StartsWithLower(id, "wm-");
      CiStartsWithContains(id, "wm-");
      MarkerAt(id, 2);
    }
  }

  /** The class-token selectors pick only elements with a marked token. */
  lemma TokenSelectorMarked(k: nat, n: Node)
    requires n.Element? && k in {2, 4} && SelectorMatches(k, n)
    ensures Matches(ClassPattern, n)
  {
    var cs := n.classes.value;
    var token := if k == 2 then "wb-overlay" else "wb-autocomplete-suggestions";
    var i :| 0 <= i < |cs| && cs[i] == token;
    assert StartsWith(cs[i], "wb-");
    StartsWithLower(cs[i], "wb-");
    CiStartsWithContains(cs[i], "wb-");
    MarkerAt(cs[i], 1);
  }

  /** The class-string selectors pick only elements whose class string holds a
      marker. */
  lemma ClassSelectorMarked(k: nat, n: Node)
    requires n.Element? && k in {8, 9} && SelectorMatches(k, n)
    ensures Matches(ClassPattern, n)
  {
    var s := Join(n.classes.value, " ");
    if k == 8 {
      StartsWithLower(s, "wb-");
      CiStartsWithContains(s, "wb-");
      MarkerAt(s, 1);
    } else {
      ContainsLower(s, "wayback");
      MarkerAt(s, 0);
    }
  }

  /** Each selector other than `#donato` picks only elements the class or id
      expression also removes. */
  lemma SelectorImpliesPattern(k: nat, n: Node)
    requires n.Element? && k != 3 && SelectorMatches(k, n)
    ensures Matches(ClassPattern, n) || Matches(IdPattern, n)
  {
    if k in {0, 1, 5, 6, 7, 10} {
      IdSelectorMarked(k, n);
    } else if k in {2, 4} {
      TokenSelectorMarked(k, n);
    } else {
      ClassSelectorMarked(k, n);
    }
  }

  lemma {:induction false} SelectorsFromCovered(k: nat, n: Node)
    requires Matches(SelectorsFrom(k), n)
    ensures Matches(WaybackUi, n)
    decreases SelectorCount - k
  {
    if k + 1 < SelectorCount && !Matches(Selector(k), n) {
      SelectorsFromCovered(k + 1, n);
    } else if k != 3 {
      SelectorImpliesPattern(k, n);
    }
  }

  lemma DonatoSelected(n: Node)
    requires Matches(Selector(3), n)
    ensures Matches(SelectorsFrom(0), n)
  {
    assert Matches(SelectorsFrom(3), n);
    assert Matches(SelectorsFrom(2), n);
    assert Matches(SelectorsFrom(1), n);
  }

  /** The selectors and the two expressions together pick exactly the interface
      elements. */
  lemma AllPassesAreUi(n: Node)
    ensures Matches(Either(Either(SelectorsFrom(0), ClassPattern), IdPattern), n) <==> Matches(WaybackUi, n)
  {
    if Matches(Either(Either(SelectorsFrom(0), ClassPattern), IdPattern), n) {
      AllPassesToUi(n);
    }
    if Matches(WaybackUi, n) {
      UiToAllPasses(n);
    }
  }

  lemma AllPassesToUi(n: Node)
    requires Matches(Either(Either(SelectorsFrom(0), ClassPattern), IdPattern), n)
    ensures Matches(WaybackUi, n)
  {
    var sel := SelectorsFrom(0);
    if Matches(sel, n) {
      SelectorsFromCovered(0, n);
    } else {
      assert Matches(ClassPattern, n) || Matches(IdPattern, n);
    }
  }

  lemma UiToAllPasses(n: Node)
    requires Matches(WaybackUi, n)
    ensures Matches(Either(Either(SelectorsFrom(0), ClassPattern), IdPattern), n)
  {
    if Matches(Selector(3), n) {
      DonatoInAllPasses(n);
    } else {
      PatternsInAllPasses(n);
    }
  }

  lemma DonatoInAllPasses(n: Node)
    requires Matches(Selector(3), n)
    ensures Matches(Either(Either(SelectorsFrom(0), ClassPattern), IdPattern), n)
  {
    DonatoSelected(n);
    EitherLeft(SelectorsFrom(0), ClassPattern, n);
    EitherLeft(Either(SelectorsFrom(0), ClassPattern), IdPattern, n);
  }

  lemma PatternsInAllPasses(n: Node)
    requires Matches(ClassPattern, n) || Matches(IdPattern, n)
    ensures Matches(Either(Either(SelectorsFrom(0), ClassPattern), IdPattern), n)
  {
  }

  lemma EitherLeft(f: Test, g: Test, n: Node)
    requires Matches(f, n)
    ensures Matches(Either(f, g), n)
  {
  }

  lemma RemoveWaybackElementsComposed(doc: seq<Node>)
    ensures RemoveWaybackElements(doc) == Prune(Either(Either(SelectorsFrom(0), ClassPattern), IdPattern), doc)
  {
    SelectorPassesArePrune(doc, 0);
    PruneComposes(SelectorsFrom(0), ClassPattern, doc);
    PruneComposes(Either(SelectorsFrom(0), ClassPattern), IdPattern, doc);
  }

  /** `_remove_wayback_elements` removes exactly the interface elements: the
      selectors add only `#donato` to what the two regular expressions find. */
  lemma RemoveWaybackElementsIsPrune(doc: seq<Node>)
    ensures RemoveWaybackElements(doc) == Prune(WaybackUi, doc)
    ensures NoneMatch(WaybackUi, RemoveWaybackElements(doc))
  {
    var all := Either(Either(SelectorsFrom(0), ClassPattern), IdPattern);
    RemoveWaybackElementsComposed(doc);
    forall n
      ensures Matches(all, n) <==> Matches(WaybackUi, n)
    {
      AllPassesAreUi(n);
    }
    PruneSameTests(all, WaybackUi, doc);
    PruneClean(WaybackUi, doc);
  }

  // ---------------------------------------------------------------------------
  // `_clean_scripts`, `_clean_stylesheets`, `_remove_wayback_comments`
  // ---------------------------------------------------------------------------

  /** `_clean_scripts`. */
  function CleanScripts(doc: seq<Node>): seq<Node> {
    Prune(WaybackScript, doc)
  }

  /** `_clean_stylesheets`: links and styles are collected together, then removed. */
  function CleanStylesheets(doc: seq<Node>): seq<Node> {
    Prune(Either(WaybackLink, WaybackStyle), doc)
  }

  /** `_remove_wayback_comments`. */
  function RemoveWaybackComments(doc: seq<Node>): seq<Node> {
    Prune(WaybackComment, doc)
  }

  /** On a document of the parser's shape, no injected script, stylesheet or
      style is left after its pass, and a second pass changes nothing. */
  lemma ScriptAndStylePassesClean(doc: seq<Node>)
    requires Parsed(doc)
    ensures NoneMatch(WaybackScript, CleanScripts(doc))
    ensures CleanScripts(CleanScripts(doc)) == CleanScripts(doc)
    ensures NoneMatch(Either(WaybackLink, WaybackStyle), CleanStylesheets(doc))
    ensures CleanStylesheets(CleanStylesheets(doc)) == CleanStylesheets(doc)
  {
    PruneClean(WaybackScript, doc);
    PruneStable(WaybackScript, CleanScripts(doc));
    PruneClean(Either(WaybackLink, WaybackStyle), doc);
    PruneStable(Either(WaybackLink, WaybackStyle), CleanStylesheets(doc));
  }

  /** No injected comment is left after the comment pass. */
  lemma CommentPassClean(doc: seq<Node>)
    ensures NoneMatch(WaybackComment, RemoveWaybackComments(doc))
  {
    PruneClean(WaybackComment, doc);
  }

  // ---------------------------------------------------------------------------
  // `_restore_urls`
  // ---------------------------------------------------------------------------

  /** The site of the original URL, "scheme://netloc"; `urlparse` raises on an
      unbalanced bracket. */
  function BaseDomain(originalUrl: string): (r: Result<string>)
    ensures r.Ok? <==> ParseUrl(originalUrl, "").Ok?
    ensures r.Ok? ==> r.value == ParseUrl(originalUrl, "").value.scheme + "://" + ParseUrl(originalUrl, "").value.netloc
  {
    match ParseUrl(originalUrl, "")
    case Err(e) => Err(e)
    case Ok(p) => Ok(p.scheme + "://" + p.netloc)
  }

  /** Each URL attribute's value cleaned; other attributes as they are. */
  function RestoreAttrs(attrs: seq<Attr>, baseDomain: string): (r: seq<Attr>)
    ensures |r| == |attrs|
    ensures forall i :: 0 <= i < |attrs| ==> r[i].name == attrs[i].name
    ensures forall i :: 0 <= i < |attrs| && attrs[i].name !in UrlAttrs ==> r[i] == attrs[i]
    ensures forall i :: 0 <= i < |attrs| && attrs[i].name in UrlAttrs ==> r[i].value == CleanArchivedUrl(attrs[i].value, baseDomain)
  {
    seq(|attrs|, i requires 0 <= i < |attrs| =>
      if attrs[i].name in UrlAttrs then Attr(attrs[i].name, CleanArchivedUrl(attrs[i].value, baseDomain)) else attrs[i])
  }

  /** `_restore_urls` once the site is known. */
  function RestoreUrls(ns: seq<Node>, baseDomain: string): (r: seq<Node>)
    ensures |r| == |ns|
    decreases ns
  {
    if ns == [] then []
    else
      var x := ns[0];
      var y := if x.Element? then x.(attrs := RestoreAttrs(x.attrs, baseDomain), children := RestoreUrls(x.children, baseDomain)) else x;
      [y] + RestoreUrls(ns[1..], baseDomain)
  }

  /** Restoring keeps a document free of a test on ids, classes and comments. */
  lemma {:induction false} RestoreKeepsClean(u: Test, ns: seq<Node>, baseDomain: string)
    requires IdClassOnly(u) && NoneMatch(u, ns)
    ensures NoneMatch(u, RestoreUrls(ns, baseDomain))
    decreases ns
  {
    if ns != [] {
      RestoreKeepsClean(u, ns[1..], baseDomain);
      var x := ns[0];
      var rest := RestoreUrls(ns[1..], baseDomain);
      if x.Element? {
        RestoreKeepsClean(u, x.children, baseDomain);
        MatchesIdClassOnly(u, x, RestoreAttrs(x.attrs, baseDomain), RestoreUrls(x.children, baseDomain));
        NoneMatchCons(u, x.(attrs := RestoreAttrs(x.attrs, baseDomain), children := RestoreUrls(x.children, baseDomain)), rest);
      } else {
        NoneMatchCons(u, x, rest);
      }
    }
  }

  lemma CleanedKept(v: string, baseDomain: string)
    requires StartsWith(baseDomain, "http://") || StartsWith(baseDomain, "https://")
    ensures Kept(CleanArchivedUrl(v, baseDomain))
  {
    if v != "" {
      CleanedIsKept(v, baseDomain);
    }
  }

  /** Under an http or https site, every restored URL attribute is empty or
      starts with a kept prefix. */
  lemma {:induction false} RestoreKeepsUrls(ns: seq<Node>, baseDomain: string)
    requires StartsWith(baseDomain, "http://") || StartsWith(baseDomain, "https://")
    ensures NoneMatch(UnkeptUrl, RestoreUrls(ns, baseDomain))
    decreases ns
  {
    if ns != [] {
      RestoreKeepsUrls(ns[1..], baseDomain);
      var x := ns[0];
      var rest := RestoreUrls(ns[1..], baseDomain);
      if x.Element? {
        RestoreKeepsUrls(x.children, baseDomain);
        var attrs := RestoreAttrs(x.attrs, baseDomain);
        forall a | a in attrs && a.name in UrlAttrs
          ensures Kept(a.value)
        {
          var i :| 0 <= i < |attrs| && attrs[i] == a;
          CleanedKept(x.attrs[i].value, baseDomain);
        }
        NoneMatchCons(UnkeptUrl, x.(attrs := attrs, children := RestoreUrls(x.children, baseDomain)), rest);
      } else {
        NoneMatchCons(UnkeptUrl, x, rest);
      }
    }
  }

  // ---------------------------------------------------------------------------
  // `_final_cleanup`
  // ---------------------------------------------------------------------------

  /** The attributes whose names do not start with data-wb or data-wayback. */
  function KeepAttrs(attrs: seq<Attr>): (r: seq<Attr>)
    ensures forall a :: a in r <==> a in attrs && !WaybackData(a.name)
    ensures (forall a :: a in attrs ==> !WaybackData(a.name)) ==> r == attrs
    decreases |attrs|
  {
    if attrs == [] then []
    else
      var rest := KeepAttrs(attrs[1..]);
      assert attrs == [attrs[0]] + attrs[1..];
      if WaybackData(attrs[0].name) then rest else [attrs[0]] + rest
  }

  /** The class tokens that do not start with wb-, wm- or wayback. */
  function KeepClasses(tokens: seq<string>): (r: seq<string>)
    ensures forall c :: c in r <==> c in tokens && !WaybackClass(c)
    ensures (forall c :: c in tokens ==> !WaybackClass(c)) ==> r == tokens
    decreases |tokens|
  {
    if tokens == [] then []
    else
      var rest := KeepClasses(tokens[1..]);
      assert tokens == [tokens[0]] + tokens[1..];
      if WaybackClass(tokens[0]) then rest else [tokens[0]] + rest
  }

  /** The class attribute after the cleanup: untouched when nothing is dropped,
      deleted when nothing is left. */
  function CleanClasses(classes: Option<seq<string>>): (r: Option<seq<string>>)
    ensures classes.None? ==> r.None?
    ensures classes.Some? && (forall c :: c in classes.value ==> !WaybackClass(c)) ==> r == classes
    ensures r.Some? ==> classes.Some? && forall c :: c in r.value <==> c in classes.value && !WaybackClass(c)
    ensures classes.Some? && r.None? ==> forall c :: c in classes.value ==> WaybackClass(c)
  {
    match classes
    case None => None
    case Some(tokens) =>
      var kept := KeepClasses(tokens);
      if kept == tokens then classes
      else if kept == [] then None
      else Some(kept)
  }

  /** `_final_cleanup`. */
  function FinalCleanup(ns: seq<Node>): (r: seq<Node>)
    ensures |r| == |ns|
    decreases ns
  {
    if ns == [] then []
    else
      var x := ns[0];
      var y := if x.Element? then x.(classes := CleanClasses(x.classes), attrs := KeepAttrs(x.attrs), children := FinalCleanup(x.children)) else x;
      [y] + FinalCleanup(ns[1..])
  }

  /** After the cleanup no element has a wayback data attribute or class token. */
  lemma {:induction false} FinalCleanupTidy(ns: seq<Node>)
    ensures NoneMatch(WaybackAttr, FinalCleanup(ns))
    decreases ns
  {
    if ns != [] {
      FinalCleanupTidy(ns[1..]);
      var x := ns[0];
      var rest := FinalCleanup(ns[1..]);
      if x.Element? {
        FinalCleanupTidy(x.children);
        NoneMatchCons(WaybackAttr, x.(classes := CleanClasses(x.classes), attrs := KeepAttrs(x.attrs), children := FinalCleanup(x.children)), rest);
      } else {
        NoneMatchCons(WaybackAttr, x, rest);
      }
    }
  }

  /** A document without wayback data attributes or class tokens is left as it
      is; so the cleanup is idempotent. */
  lemma {:induction false} FinalCleanupStable(ns: seq<Node>)
    requires NoneMatch(WaybackAttr, ns)
    ensures FinalCleanup(ns) == ns
    decreases ns
  {
    if ns != [] {
      FinalCleanupStable(ns[1..]);
      var x := ns[0];
      if x.Element? {
        FinalCleanupStable(x.children);
        assert x.(classes := CleanClasses(x.classes), attrs := KeepAttrs(x.attrs), children := FinalCleanup(x.children)) == x;
      }
      assert [x] + ns[1..] == ns;
    }
  }

  lemma FinalCleanupIdempotent(ns: seq<Node>)
    ensures FinalCleanup(FinalCleanup(ns)) == FinalCleanup(ns)
  {
    FinalCleanupTidy(ns);
    FinalCleanupStable(FinalCleanup(ns));
  }

  /** A class token the cleanup drops carries a marker, so an element that
      survived the class expression keeps all its tokens. */
  lemma WaybackClassMarked(c: string)
    requires WaybackClass(c)
    ensures CiContainsAny(c, Markers)
  {
    if CiStartsWith(c, "wb-") {
      CiStartsWithContains(c, "wb-");
      MarkerAt(c, 1);
    } else if CiStartsWith(c, "wm-") {
      CiStartsWithContains(c, "wm-");
      MarkerAt(c, 2);
    } else {
      CiStartsWithContains(c, "wayback");
      MarkerAt(c, 0);
    }
  }

  lemma UnmarkedClass(c: string)
    requires !CiContainsAny(c, Markers)
    ensures !WaybackClass(c)
  {
    if WaybackClass(c) {
      WaybackClassMarked(c);
    }
  }

  lemma ClassesKept(x: Node)
    requires x.Element? && !Matches(ClassPattern, x)
    ensures CleanClasses(x.classes) == x.classes
  {
    if x.classes.Some? {
      var cs := x.classes.value;
      forall c | c in cs
        ensures !WaybackClass(c)
      {
        var i :| 0 <= i < |cs| && cs[i] == c;
        assert !CiContainsAny(cs[i], Markers);
        UnmarkedClass(c);
      }
    }
  }

  lemma NotUi(n: Node)
    requires !Matches(WaybackUi, n)
    ensures !Matches(Selector(3), n) && !Matches(ClassPattern, n) && !Matches(IdPattern, n)
  {
  }

  /** On a document free of interface elements, the cleanup keeps it free of a
      test on ids, classes and comments. */
  lemma {:induction false} FinalCleanupKeepsClean(u: Test, ns: seq<Node>)
    requires IdClassOnly(u) && NoneMatch(u, ns) && NoneMatch(WaybackUi, ns)
    ensures NoneMatch(u, FinalCleanup(ns))
    decreases ns
  {
    if ns != [] {
      FinalCleanupKeepsClean(u, ns[1..]);
      var x := ns[0];
      var rest := FinalCleanup(ns[1..]);
      if x.Element? {
        FinalCleanupKeepsClean(u, x.children);
        NotUi(x);
        ClassesKept(x);
        MatchesIdClassOnly(u, x, KeepAttrs(x.attrs), FinalCleanup(x.children));
        assert x.(classes := CleanClasses(x.classes), attrs := KeepAttrs(x.attrs), children := FinalCleanup(x.children))
          == x.(attrs := KeepAttrs(x.attrs), children := FinalCleanup(x.children));
        NoneMatchCons(u, x.(attrs := KeepAttrs(x.attrs), children := FinalCleanup(x.children)), rest);
      } else {
        NoneMatchCons(u, x, rest);
      }
    }
  }

  /** The cleanup only removes attributes, so restored URLs stay kept. */
  lemma {:induction false} FinalCleanupKeepsUrls(ns: seq<Node>)
    requires NoneMatch(UnkeptUrl, ns)
    ensures NoneMatch(UnkeptUrl, FinalCleanup(ns))
    decreases ns
  {
    if ns != [] {
      FinalCleanupKeepsUrls(ns[1..]);
      var x := ns[0];
      var rest := FinalCleanup(ns[1..]);
      if x.Element? {
        FinalCleanupKeepsUrls(x.children);
        NoneMatchCons(UnkeptUrl, x.(classes := CleanClasses(x.classes), attrs := KeepAttrs(x.attrs), children := FinalCleanup(x.children)), rest);
      } else {
        NoneMatchCons(UnkeptUrl, x, rest);
      }
    }
  }

  // ---------------------------------------------------------------------------
  // `clean_html`
  // ---------------------------------------------------------------------------

  /** The tree passes in order, for a known site. */
  function CleanTreeAt(doc: seq<Node>, baseDomain: string): seq<Node> {
    var a := RemoveWaybackElements(doc);
    var b := CleanScripts(a);
    var c := CleanStylesheets(b);
    var d := RestoreUrls(c, baseDomain);
    var e := RemoveWaybackComments(d);
    FinalCleanup(e)
  }

  lemma ScriptAndStylePassesKeepUi(a: seq<Node>)
    requires NoneMatch(WaybackUi, a)
    ensures NoneMatch(WaybackUi, CleanStylesheets(CleanScripts(a)))
  {
    PruneKeepsClean(WaybackScript, WaybackUi, a);
    PruneKeepsClean(Either(WaybackLink, WaybackStyle), WaybackUi, CleanScripts(a));
  }

  lemma RestoreAndCommentPassesKeepUi(c: seq<Node>, baseDomain: string)
    requires NoneMatch(WaybackUi, c)
    ensures NoneMatch(WaybackUi, RemoveWaybackComments(RestoreUrls(c, baseDomain)))
  {
    RestoreKeepsClean(WaybackUi, c, baseDomain);
    PruneKeepsClean(WaybackComment, WaybackUi, RestoreUrls(c, baseDomain));
  }

  /** No interface element survives the passes before the final cleanup. */
  lemma NoUiBeforeFinal(doc: seq<Node>, baseDomain: string)
    ensures NoneMatch(WaybackUi, RemoveWaybackComments(RestoreUrls(CleanStylesheets(CleanScripts(RemoveWaybackElements(doc))), baseDomain)))
  {
    var a := RemoveWaybackElements(doc);
    RemoveWaybackElementsIsPrune(doc);
    ScriptAndStylePassesKeepUi(a);
    RestoreAndCommentPassesKeepUi(CleanStylesheets(CleanScripts(a)), baseDomain);
  }

  /** No interface element survives the passes. */
  lemma CleanTreeAtNoUi(doc: seq<Node>, baseDomain: string)
    ensures NoneMatch(WaybackUi, CleanTreeAt(doc, baseDomain))
  {
    var e := RemoveWaybackComments(RestoreUrls(CleanStylesheets(CleanScripts(RemoveWaybackElements(doc))), baseDomain));
    assert CleanTreeAt(doc, baseDomain) == FinalCleanup(e);
    NoUiBeforeFinal(doc, baseDomain);
    FinalCleanupKeepsClean(WaybackUi, e);
  }

  /** No injected comment survives the passes. */
  lemma CleanTreeAtNoComments(doc: seq<Node>, baseDomain: string)
    ensures NoneMatch(WaybackComment, CleanTreeAt(doc, baseDomain))
  {
    var d := RestoreUrls(CleanStylesheets(CleanScripts(RemoveWaybackElements(doc))), baseDomain);
    var e := RemoveWaybackComments(d);
    assert CleanTreeAt(doc, baseDomain) == FinalCleanup(e);
    NoUiBeforeFinal(doc, baseDomain);
    CommentPassClean(d);
    FinalCleanupKeepsClean(WaybackComment, e);
  }

  /** No wayback data attribute or class token survives the passes. */
  lemma CleanTreeAtNoAttrs(doc: seq<Node>, baseDomain: string)
    ensures NoneMatch(WaybackAttr, CleanTreeAt(doc, baseDomain))
  {
    var e := RemoveWaybackComments(RestoreUrls(CleanStylesheets(CleanScripts(RemoveWaybackElements(doc))), baseDomain));
    assert CleanTreeAt(doc, baseDomain) == FinalCleanup(e);
    FinalCleanupTidy(e);
  }

  /** The cleaned tree is free of interface elements, injected comments and
      wayback data attributes and class tokens. */
  lemma CleanTreeAtClean(doc: seq<Node>, baseDomain: string)
    ensures var r := CleanTreeAt(doc, baseDomain);
      NoneMatch(WaybackUi, r) && NoneMatch(WaybackComment, r) && NoneMatch(WaybackAttr, r)
  {
    CleanTreeAtNoUi(doc, baseDomain);
    CleanTreeAtNoComments(doc, baseDomain);
    CleanTreeAtNoAttrs(doc, baseDomain);
  }

  /** Under an http or https site every URL attribute of the cleaned tree is
      empty or starts with a kept prefix. */
  lemma CleanTreeAtKeepsUrls(doc: seq<Node>, baseDomain: string)
    requires StartsWith(baseDomain, "http://") || StartsWith(baseDomain, "https://")
    ensures NoneMatch(UnkeptUrl, CleanTreeAt(doc, baseDomain))
  {
    var a := RemoveWaybackElements(doc);
    var b := CleanScripts(a);
    var c := CleanStylesheets(b);
    var d := RestoreUrls(c, baseDomain);
    var e := RemoveWaybackComments(d);
    assert CleanTreeAt(doc, baseDomain) == FinalCleanup(e);
    RestoreKeepsUrls(c, baseDomain);
    PruneKeepsClean(WaybackComment, UnkeptUrl, d);
    FinalCleanupKeepsUrls(e);
  }

  /** `clean_html` on a parsed document, with `render` standing for serialising
      the tree: the passes, then the text pass; a failure to parse the original
      URL gives None. */
  function CleanHtml(doc: seq<Node>, originalUrl: string, render: seq<Node> -> string): (r: Option<string>)
    ensures r.None? <==> BaseDomain(originalUrl).Err?
    ensures r.Some? ==> |r.value| <= |render(CleanTreeAt(doc, BaseDomain(originalUrl).value))|
  {
    match BaseDomain(originalUrl)
    case Err(_) => None
    case Ok(base) =>
      var html := render(CleanTreeAt(doc, base));
      PostProcessShortens(html);
      Some(PostProcess(html))
  }
}
