/** Worked examples of the three patterns on concrete stylesheets. */
module CssExamples {
  import opened Wrappers
  import opened CssScanning
  import opened CssPatterns
  import opened CssFilter

  /** `w` does not occur at `j` when its first character differs. */
  lemma Differs(c: string, j: nat, w: string)
    requires j < |c| && w != [] && c[j] != w[0]
    ensures !(j + |w| <= |c| && c[j..j + |w|] == w)
  {
    if j + |w| <= |c| {
      assert c[j..j + |w|][0] == c[j];
    }
  }

  /** The lazy capture closed by `)` stops at the first `)` when no line feed comes before it. */
  lemma FirstParenCloses(c: string, j: nat, e: nat)
    requires j <= e < |c| && c[e] == ')'
    requires forall k :: j <= k < e ==> c[k] != ')' && c[k] != '\n'
    ensures FindClose(c, j, ")") == Some(e)
  {
    assert c[e..e + 1] == ")";
    assert ClosesAt(c, j, ")", e);
    forall e' | j <= e' < e
      ensures !ClosesAt(c, j, ")", e')
    {
      assert c[e'] == c[e'..e' + 1][0];
    }
  }

  /**
   * `url(u)` with an unquoted `u` that holds no `)` and no line feed is one hit
   * spanning the whole text, with an empty quote group and `u` as the URL.
   */
  lemma UnquotedUrlSpan(u: string)
    requires u == [] || !IsQuote(u[0])
    requires forall k :: 0 <= k < |u| ==> u[k] != ')' && u[k] != '\n'
    ensures var c := "url(" + u + ")";
      && UrlHit(c, 0) == Some(Hit(4, 4 + |u|, 5 + |u|, ""))
      && c[0..5 + |u|] == c && c[4..4 + |u|] == u
  {
    var c := "url(" + u + ")";
    assert c[0..4] == "url(" && c[4..4 + |u|] == u;
    assert !IsQuote(c[4]);
    FirstParenCloses(c, 4, 4 + |u|);
    assert "" + ")" == ")";
  }

  /** An unquoted url() reference: the quote group is empty and the callback's value replaces the whole span. */
  lemma UnquotedUrl(cb: Callback)
    ensures MatchAt(UrlPattern, "url(a.png)", 0) == Some(Match("url(a.png)", "", "a.png"))
    ensures FilterUrls("url(a.png)", cb) == cb(Match("url(a.png)", "", "a.png"))
  {
    var c := "url(a.png)";
    UnquotedUrlSpan("a.png");
    assert c == "url(" + "a.png" + ")";
    PatternWholeMatch(UrlPattern, c, cb, Hit(4, 9, 10, ""));
  }

  /** The quote is taken first, so a `)` inside quotes belongs to the URL. */
  lemma QuotedUrl()
    ensures MatchAt(UrlPattern, "url(\"a)b\")", 0) == Some(Match("url(\"a)b\")", "\"", "a)b"))
  {
    var c := "url(\"a)b\")";
    QuotedUrlHit(c);
    assert MatchAt(UrlPattern, c, 0) == Some(MatchOf(c, 0, Hit(5, 8, 10, "\"")));
  }

  lemma QuotedUrlHit(c: string)
    requires c == "url(\"a)b\")"
    ensures UrlHit(c, 0) == Some(Hit(5, 8, 10, "\""))
    ensures c[0..10] == c && c[5..8] == "a)b"
  {
    assert c[0..4] == "url(" && IsQuote(c[4]);
    assert [c[4]] + ")" == "\")";
    assert c[8..10] == "\")";
    assert FindClose(c, 8, "\")") == Some(8);
    Differs(c, 7, "\")");
    assert FindClose(c, 7, "\")") == Some(8);
    Differs(c, 6, "\")");
    assert FindClose(c, 6, "\")") == Some(8);
    Differs(c, 5, "\")");
    assert FindClose(c, 5, "\")") == Some(8);
  }

  /** With no closing quote the backreference falls back to the empty quote, and the URL keeps the opening quote. */
  lemma UnbalancedQuote()
    ensures MatchAt(UrlPattern, "url(\"a.png)", 0) == Some(Match("url(\"a.png)", "", "\"a.png"))
  {
    UnbalancedQuoteHit("url(\"a.png)");
  }

  lemma UnbalancedQuoteHit(c: string)
    requires c == "url(\"a.png)"
    ensures UrlHit(c, 0) == Some(Hit(4, 10, 11, ""))
    ensures c[0..11] == c && c[4..10] == "\"a.png"
  {
    assert c[0..4] == "url(" && IsQuote(c[4]);
    NoClosingQuote(c);
    assert [c[4]] + ")" == "\")";
    assert UrlHitWith(c, 0, [c[4]]) == None;
    ClosingParen(c);
    assert "" + ")" == ")";
    assert UrlHitWith(c, 0, "") == Some(Hit(4, 10, 11, ""));
  }

  lemma NoClosingQuote(c: string)
    requires c == "url(\"a.png)"
    ensures FindClose(c, 5, "\")") == None
  {
    var w := "\")";
    assert FindClose(c, 11, w) == None;
    assert FindClose(c, 10, w) == None;
    Differs(c, 9, w);
    Differs(c, 8, w);
    Differs(c, 7, w);
    Differs(c, 6, w);
    Differs(c, 5, w);
  }

  lemma ClosingParen(c: string)
    requires c == "url(\"a.png)"
    ensures FindClose(c, 4, ")") == Some(10)
  {
    assert FindClose(c, 10, ")") == Some(10);
    Differs(c, 9, ")");
    assert FindClose(c, 9, ")") == Some(10);
    Differs(c, 8, ")");
    assert FindClose(c, 8, ")") == Some(10);
    Differs(c, 7, ")");
    assert FindClose(c, 7, ")") == Some(10);
    Differs(c, 6, ")");
    assert FindClose(c, 6, ")") == Some(10);
    Differs(c, 5, ")");
    assert FindClose(c, 5, ")") == Some(10);
    Differs(c, 4, ")");
  }

  /** `.` does not match a line feed, so a URL cannot span lines. */
  lemma UrlAcrossLines(cb: Callback)
    ensures FilterUrls("url(a\nb)", cb) == "url(a\nb)"
  {
    var c := "url(a\nb)";
    forall j | 0 <= j <= |c| ensures HitAt(UrlPattern, c, j).None? {
      if j == 0 {
        assert c[0..4] == "url(" && !IsQuote(c[4]);
        assert FindClose(c, 4, ")") == None;
      } else {
        assert !(j + 4 <= |c| && c[j..j + 4] == "url(") by {
          if j + 4 <= |c| { assert c[j..j + 4][3] == c[j + 3]; }
        }
      }
    }
    PatternWithoutMatch(UrlPattern, c, cb);
  }

  // ---------------------------------------------------------------- @import

  /** The plain import form takes the quote, the URL, the closing quote and the `;`. */
  lemma PlainImport(cb: Callback)
    ensures FilterImports("@import \"x.css\";", cb, false) == cb(Match("@import \"x.css\";", "\"", "x.css"))
  {
    var c := "@import \"x.css\";";
    PlainImportHit(c);
    PatternWholeMatch(ImportPattern(false), c, cb, Hit(9, 14, 16, "\""));
  }

  lemma PlainImportHit(c: string)
    requires c == "@import \"x.css\";"
    ensures ImportHit(c, 0, false) == Some(Hit(9, 14, 16, "\""))
    ensures c[0..16] == c && c[9..14] == "x.css"
  {
    assert c[0..7] == "@import";
    assert SkipSpaces(c, 8) == 8;
    assert ImportQuoteAt(c, 0, false) == Some(8);
    assert FindClose(c, 14, "\"") == Some(14);
    Differs(c, 13, "\"");
    assert FindClose(c, 13, "\"") == Some(14);
    Differs(c, 12, "\"");
    assert FindClose(c, 12, "\"") == Some(14);
    Differs(c, 11, "\"");
    assert FindClose(c, 11, "\"") == Some(14);
    Differs(c, 10, "\"");
    assert FindClose(c, 10, "\"") == Some(14);
    Differs(c, 9, "\"");
    assert FindClose(c, 9, "\"") == Some(14);
    assert [c[8]] == "\"";
    assert SkipSpaces(c, 15) == 15;
    assert ImportTail(c, 15, false) == 16;
  }

  /** With `includeUrl` (the default) the `url(` wrapper, the `)` and the `;` belong to the match. */
  lemma WrappedImport(cb: Callback)
    ensures FilterImports("@import url(\"x.css\");", cb) == cb(Match("@import url(\"x.css\");", "\"", "x.css"))
  {
    var c := "@import url(\"x.css\");";
    WrappedImportHit(c);
    PatternWholeMatch(ImportPattern(true), c, cb, Hit(13, 18, 21, "\""));
  }

  lemma WrappedImportHit(c: string)
    requires c == "@import url(\"x.css\");"
    ensures ImportHit(c, 0, true) == Some(Hit(13, 18, 21, "\""))
    ensures c[0..21] == c && c[13..18] == "x.css"
  {
    assert c[0..7] == "@import";
    assert SkipSpaces(c, 8) == 8;
    assert c[8..11] == "url";
    assert SkipSpaces(c, 11) == 11;
    assert SkipSpaces(c, 12) == 12;
    assert UrlHeadRest(c, 8) == 12;
    assert ImportQuoteAt(c, 0, true) == Some(12);
    assert FindClose(c, 18, "\"") == Some(18);
    Differs(c, 17, "\"");
    assert FindClose(c, 17, "\"") == Some(18);
    Differs(c, 16, "\"");
    assert FindClose(c, 16, "\"") == Some(18);
    Differs(c, 15, "\"");
    assert FindClose(c, 15, "\"") == Some(18);
    Differs(c, 14, "\"");
    assert FindClose(c, 14, "\"") == Some(18);
    Differs(c, 13, "\"");
    assert FindClose(c, 13, "\"") == Some(18);
    assert [c[12]] == "\"";
    assert SkipSpaces(c, 19) == 19;
    assert SkipSpaces(c, 20) == 20;
    assert ImportTail(c, 19, true) == 21;
  }

  /** The `;` is optional: a quoted import at the end of the content still matches. */
  lemma ImportWithoutSemicolon(cb: Callback)
    ensures FilterImports("@import \"x.css\"", cb) == cb(Match("@import \"x.css\"", "\"", "x.css"))
  {
    var c := "@import \"x.css\"";
    ImportWithoutSemicolonHit(c);
    PatternWholeMatch(ImportPattern(true), c, cb, Hit(9, 14, 15, "\""));
  }

  lemma ImportWithoutSemicolonHit(c: string)
    requires c == "@import \"x.css\""
    ensures ImportHit(c, 0, true) == Some(Hit(9, 14, 15, "\""))
    ensures c[0..15] == c && c[9..14] == "x.css"
  {
    assert c[0..7] == "@import";
    assert SkipSpaces(c, 8) == 8;
    Differs(c, 8, "url");
    assert UrlHeadRest(c, 8) == 8;
    assert ImportQuoteAt(c, 0, true) == Some(8);
    assert FindClose(c, 14, "\"") == Some(14);
    Differs(c, 13, "\"");
    assert FindClose(c, 13, "\"") == Some(14);
    Differs(c, 12, "\"");
    assert FindClose(c, 12, "\"") == Some(14);
    Differs(c, 11, "\"");
    assert FindClose(c, 11, "\"") == Some(14);
    Differs(c, 10, "\"");
    assert FindClose(c, 10, "\"") == Some(14);
    Differs(c, 9, "\"");
    assert FindClose(c, 9, "\"") == Some(14);
    assert [c[8]] == "\"";
    assert ImportTail(c, 15, true) == 15;
  }

  /**
   * An unquoted `url(...)` import is NOT matched by the includeUrl pattern: its
   * quote group is optional, but the backreference `\1` to a group that did not
   * take part fails in PCRE.
   */
  lemma UnquotedWrappedImport(cb: Callback)
    ensures FilterImports("@import url(x.css);", cb) == "@import url(x.css);"
  {
    NoQuote("@import url(x.css);");
    FilterImportsWithoutQuote("@import url(x.css);", cb, true);
  }

  lemma NoQuote(c: string)
    requires c == "@import url(x.css);"
    ensures forall k :: 0 <= k < |c| ==> !IsQuote(c[k])
  {
    assert '"' !in c && '\'' !in c;
  }

  // ---------------------------------------------------------------- the order of the two passes

  /** A callback whose output for one URL is itself a url() reference. */
  function RewriteA(m: Match): string {
    if m.url == "a" then "url(b)" else "z"
  }

  /**
   * `filterReferences` runs the url() pass before the import pass, and neither
   * pass rescans what the callback returned: the `url(b)` produced for the import
   * stays as it is. In the opposite order the url() pass would rewrite it again.
   */
  lemma PassOrder()
    ensures FilterReferences("@import \"a\";", RewriteA) == "url(b)"
    ensures FilterUrls(FilterImports("@import \"a\";", RewriteA, false), RewriteA) == "z"
  {
    var c := "@import \"a\";";
    forall j ensures !OccursAt(c, "url(", j) {
      if 0 <= j && j + 4 <= |c| {
        assert c[j..j + 4][0] == c[j];
      }
    }
    FilterUrlsWithoutKeyword(c, RewriteA);
    PassOrderImport(c);
    PassOrderUrl("url(b)");
  }

  lemma PassOrderImport(c: string)
    requires c == "@import \"a\";"
    ensures FilterImports(c, RewriteA, false) == "url(b)"
  {
    PassOrderImportHit(c);
    var h := Hit(9, 10, 12, "\"");
    PatternWholeMatch(ImportPattern(false), c, RewriteA, h);
    assert MatchOf(c, 0, h).url == "a";
  }

  lemma PassOrderUrl(c: string)
    requires c == "url(b)"
    ensures FilterUrls(c, RewriteA) == "z"
  {
    UnquotedUrlSpan("b");
    assert c == "url(" + "b" + ")";
    var h := Hit(4, 5, 6, "");
    PatternWholeMatch(UrlPattern, c, RewriteA, h);
    assert MatchOf(c, 0, h).url == "b";
  }

  lemma PassOrderImportHit(c: string)
    requires c == "@import \"a\";"
    ensures ImportHit(c, 0, false) == Some(Hit(9, 10, 12, "\""))
    ensures c[0..12] == c && c[9..10] == "a"
  {
    assert c[0..7] == "@import";
    assert SkipSpaces(c, 8) == 8;
    assert ImportQuoteAt(c, 0, false) == Some(8);
    assert FindClose(c, 10, "\"") == Some(10);
    Differs(c, 9, "\"");
    assert FindClose(c, 9, "\"") == Some(10);
    assert [c[8]] == "\"";
    assert SkipSpaces(c, 11) == 11;
    assert ImportTail(c, 11, false) == 12;
  }

}
