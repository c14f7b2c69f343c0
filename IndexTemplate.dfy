/** The page template `_build_index_html` is written with, its style sheet's
    braces left single, and the same template with them doubled. */
module IndexTemplate {
  import opened Strings
  import opened Wrappers
  import opened IndexFile

  /** The text of the template around the style sheet and the fields, line by
      line. None of it holds a brace; `Without(_, Braces)` records that,
      leaving each text as it is. */
  const Text := PageText(
    Without("<!DOCTYPE html>\n" +
            "<html lang=\"en\">\n" +
            "<head>\n" +
            "    <meta charset=\"UTF-8\">\n" +
            "    <meta name=\"viewport\"" +
            " content=\"width=device-width, initial-scale=1.0\">\n" +
            "    <title>Archaic - Archived Pages Index</title>\n" +
            "    <style>", Braces),
    Without("\n    </style>\n" +
            "</head>\n" +
            "<body>\n" +
            "    <h1>\U{1F5C4}\U{FE0F} Archaic - Archived Pages</h1>\n" +
            "    <div class=\"stats\">\n" +
            "        <h2>Archive Statistics</h2>\n" +
            "        <p><strong>Total Pages:</strong> ", Braces),
    Without("</p>\n" +
            "        <p><strong>Generated:</strong> ", Braces),
    Without("</p>\n" +
            "    </div>\n" +
            "    <div class=\"url-list\">\n" +
            "        <h2>Archived Pages</h2>\n" +
            "        ", Braces),
    Without("\n    </div>\n" +
            "</body>\n" +
            "</html>", Braces))

  lemma TextPlain()
    ensures Plain(Text)
  {
  }

  /** The start of the template's style sheet, up to its first rule's
      declarations. */
  const CssLead := "\n        body "
  const BodyName := " font-family"
  /** The declarations of the first rule after their first name (no '}'). */
  const BodyDecls := ":" + (" Arial, sans-serif;" + (" max-width: 1200px;" + (" margin: 0 auto;" + " padding: 20px; ")))
  /** The rules after the first. */
  const OtherRules :=
    "\n        h1 { color: #333; text-align: center; }" +
    "\n        .stats { background: #f5f5f5; padding: 15px;" +
    " border-radius: 5px; margin: 20px 0; }" +
    "\n        .url-entry { border: 1px solid #ddd;" +
    " margin: 10px 0; padding: 15px; border-radius: 5px; }" +
    "\n        .url-title { font-weight: bold; color: #2c5aa0; }" +
    "\n        .url-link { color: #666; font-size: 0.9em; margin: 5px 0; }" +
    "\n        .file-links { margin-top: 10px; }" +
    "\n        .file-links a { margin-right: 15px;" +
    " text-decoration: none; color: #2c5aa0; }" +
    "\n        .file-links a:hover { text-decoration: underline; }" +
    "\n        .timestamp { color: #888; font-size: 0.8em; }"

  /** The style sheet the page is meant to carry. */
  const IndexCss := CssLead + (Braced(BodyName + BodyDecls) + OtherRules)

  /** The template as written: the style sheet's braces are single. */
  const AsWrittenTemplate := Template(Text, IndexCss)

  /** The template with the style sheet's braces doubled. */
  const CorrectedTemplate := Template(Text, Doubled(IndexCss))

  /** The first rule of the style sheet opens what `format` takes for a
      replacement field: a brace-free lead, then '{', a name that is none of the
      page's three, and declarations starting with ':' that hold no '}'. */
  lemma FirstRuleIsField(total: string, now: string, entries: string)
    ensures BraceFree(CssLead)
    ensures BodyName != [] && BodyName[0] != '{' && NoneOf(BodyName, {':', '!'}) && NoneOf(BodyName, {'}'})
    ensures BodyDecls[0] == ':' && NoneOf(BodyDecls, {'}'})
    ensures BodyName !in IndexArgs(total, now, entries)
  {
    LeadPlain();
    NamePlain();
    DeclsPlain();
    NameNotArg(total, now, entries);
  }

  lemma LeadPlain() ensures BraceFree(CssLead) {}
  lemma NamePlain() ensures BodyName != [] && BodyName[0] != '{' && NoneOf(BodyName, {':', '!'}) && NoneOf(BodyName, {'}'}) {}
  lemma DeclsPlain()
    ensures BodyDecls[0] == ':' && NoneOf(BodyDecls, {'}'})
  {
    var cs := {'}'};
    assert NoneOf(" margin: 0 auto;", cs) && NoneOf(" padding: 20px; ", cs);
    NoneOfAppend(" margin: 0 auto;", " padding: 20px; ", cs);
    assert NoneOf(" max-width: 1200px;", cs);
    NoneOfAppend(" max-width: 1200px;", " margin: 0 auto;" + " padding: 20px; ", cs);
    assert NoneOf(" Arial, sans-serif;", cs);
    NoneOfAppend(" Arial, sans-serif;", " max-width: 1200px;" + (" margin: 0 auto;" + " padding: 20px; "), cs);
    NoneOfAppend(":", " Arial, sans-serif;" + (" max-width: 1200px;" + (" margin: 0 auto;" + " padding: 20px; ")), cs);
  }
  lemma NameNotArg(total: string, now: string, entries: string) ensures BodyName !in IndexArgs(total, now, entries) {}

  /** As written, `format` reads the first rule of the style sheet as a
      replacement field named " font-family" and raises `KeyError`. */
  lemma AsWrittenIndexRaises(total: string, now: string, entries: string)
    ensures Format(AsWrittenTemplate, IndexArgs(total, now, entries)) == Err("KeyError")
  {
    FirstRuleIsField(total, now, entries);
    TextPlain();
    TemplateRaises(Text, CssLead, BodyName, BodyDecls, OtherRules, total, now, entries);
  }

  /** With the braces of the style sheet doubled, `format` fills in the three
      fields and gives the page with the style sheet as meant. */
  lemma CorrectedIndexFills(total: string, now: string, entries: string)
    ensures Format(CorrectedTemplate, IndexArgs(total, now, entries)) == Ok(Page(Text, IndexCss, total, now, entries))
  {
    TextPlain();
    TemplateFills(Text, IndexCss, total, now, entries);
  }
}
