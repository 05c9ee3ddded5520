/**
 * The reference-rewriting primitives of the CSS base filter: `filterUrls`,
 * `filterImports` and `filterReferences`, each a `preg_replace_callback` over one
 * of the fixed patterns of `CssPatterns`.
 *
 * `preg_replace_callback` is modelled by `ReplaceFrom`: it tries the pattern at
 * every start position from left to right; at a position where it matches, the
 * callback's return value replaces the whole matched span and the scan resumes
 * right after the span; elsewhere the character is copied. The callback's output
 * is never scanned again by the same call.
 */
module CssFilter {
  import opened Wrappers
  import opened CssScanning
  import opened CssPatterns

  /** What the callback receives: the whole match, the quote group (possibly empty) and the `url` group. */
  datatype Match = Match(text: string, quote: string, url: string)

  /** The callback returns the text that replaces the whole matched span. */
  type Callback = Match -> string

  /** The three fixed patterns: url(), and @import with or without the url() form. */
  datatype Pattern = UrlPattern | ImportPattern(includeUrl: bool)

  function HitAt(pat: Pattern, c: string, s: nat): (r: Option<Hit>)
    requires s <= |c|
    ensures r.Some? ==> s < r.value.urlStart <= r.value.urlEnd < r.value.end <= |c|
  {
    match pat
    case UrlPattern => UrlHit(c, s)
    case ImportPattern(includeUrl) => ImportHit(c, s, includeUrl)
  }

  /** The groups a hit at `s` hands to the callback: the whole span, the quote group and the `url` group. */
  function MatchOf(c: string, s: nat, h: Hit): Match
    requires s <= h.urlStart <= h.urlEnd <= h.end <= |c|
  {
    Match(c[s..h.end], h.quote, c[h.urlStart..h.urlEnd])
  }

  /** The match the callback sees for the pattern anchored at `s`. */
  function MatchAt(pat: Pattern, c: string, s: nat): (r: Option<Match>)
    requires s <= |c|
  {
    match HitAt(pat, c, s)
    case None => None
    case Some(h) => Some(MatchOf(c, s, h))
  }

  /**
   * A pattern as the scan uses it: the hit anchored at a start position, if any.
   * The scan below is written for any matcher whose hits stay after their start
   * and inside the content.
   */
  type Matcher = (string, nat) -> Option<Hit>

  ghost predicate Advances(m: Matcher) {
    forall c: string, s: nat :: s <= |c| && m(c, s).Some? ==>
      s < m(c, s).value.urlStart <= m(c, s).value.urlEnd < m(c, s).value.end <= |c|
  }

  /** One of the three fixed patterns as a matcher. */
  function PatternMatcher(pat: Pattern): (m: Matcher)
    ensures Advances(m)
    ensures forall c: string, s: nat :: s <= |c| ==> m(c, s) == HitAt(pat, c, s)
  {
    (c: string, s: nat) => if s <= |c| then HitAt(pat, c, s) else None
  }

  /**
   * What the callback is handed: the matched text is a non-empty slice of the
   * content starting at `s` and the URL has no line feed. A url() match reads
   * `url(` quote URL quote `)` with the same quote both times; an import match
   * begins with `@import ` and its quote is one quote character.
   */
  predicate WellShaped(pat: Pattern, c: string, s: nat, m: Match)
    requires s <= |c|
  {
    && 0 < |m.text| <= |c| - s
    && c[s..s + |m.text|] == m.text
    && '\n' !in m.url
    && (pat.UrlPattern? ==> QuoteGroup(m.quote) && m.text == "url(" + m.quote + m.url + m.quote + ")")
    && (pat.ImportPattern? ==> |m.quote| == 1 && IsQuote(m.quote[0]) && 8 <= |m.text| && m.text[..8] == "@import ")
  }

  /** Every match the scan hands to the callback is well shaped. */
  lemma MatchShape(pat: Pattern, c: string, s: nat)
    requires s <= |c| && MatchAt(pat, c, s).Some?
    ensures WellShaped(pat, c, s, MatchAt(pat, c, s).value)
  {
    var h := HitAt(pat, c, s).value;
    assert MatchAt(pat, c, s).value == MatchOf(c, s, h);
    HitShape(pat, c, s, h);
  }

  lemma HitShape(pat: Pattern, c: string, s: nat, h: Hit)
    requires s <= |c| && HitAt(pat, c, s) == Some(h)
    ensures WellShaped(pat, c, s, MatchOf(c, s, h))
  {
    SpanShape(c, s, h);
    if pat.UrlPattern? {
      UrlMatchShape(c, s, h);
    } else {
      ImportMatchShape(c, s, pat.includeUrl, h);
    }
  }

  lemma UrlMatchShape(c: string, s: nat, h: Hit)
    requires s <= |c| && UrlHit(c, s) == Some(h)
    ensures var m := MatchOf(c, s, h);
      QuoteGroup(m.quote) && m.text == "url(" + m.quote + m.url + m.quote + ")"
  {
    UrlShape(c, s, h);
  }

  lemma ImportMatchShape(c: string, s: nat, includeUrl: bool, h: Hit)
    requires s <= |c| && ImportHit(c, s, includeUrl) == Some(h)
    ensures var m := MatchOf(c, s, h);
      |m.quote| == 1 && IsQuote(m.quote[0]) && 8 <= |m.text| && m.text[..8] == "@import "
  {
    ImportShape(c, s, includeUrl, h);
    ImportText(c, s, h);
  }

  /** The span handed over is a slice of the content from `s`, and a URL without line feeds stays so. */
  lemma SpanShape(c: string, s: nat, h: Hit)
    requires s < h.urlStart <= h.urlEnd < h.end <= |c| && NoNewline(c, h.urlStart, h.urlEnd)
    ensures var m := MatchOf(c, s, h);
      && 0 < |m.text| <= |c| - s
      && c[s..s + |m.text|] == m.text
      && '\n' !in m.url
  {
    var url := c[h.urlStart..h.urlEnd];
    assert forall k :: 0 <= k < |url| ==> url[k] == c[h.urlStart + k];
  }

  lemma ImportText(c: string, s: nat, h: Hit)
    requires s < h.urlStart <= h.urlEnd < h.end <= |c| && s + 8 <= h.end && c[s..s + 8] == "@import "
    ensures var m := MatchOf(c, s, h);
      8 <= |m.text| && m.text[..8] == "@import "
  {
    assert c[s..h.end][..8] == c[s..s + 8];
  }

  lemma UrlShape(c: string, s: nat, h: Hit)
    requires s <= |c| && UrlHit(c, s) == Some(h)
    ensures QuoteGroup(h.quote)
    ensures NoNewline(c, h.urlStart, h.urlEnd)
    ensures c[s..h.end] == "url(" + h.quote + c[h.urlStart..h.urlEnd] + h.quote + ")"
  {
    UrlHitMatches(c, s, h);
    var q := h.quote;
    assert ClosesAt(c, h.urlStart, q + ")", h.urlEnd);
    SliceSplit(c, s, s + 4, h.urlStart, h.urlEnd, h.end);
    assert c[h.urlEnd..h.end] == q + ")";
    assert c[s + 4..h.urlStart] == q;
  }

  lemma SliceSplit(c: string, a: nat, b: nat, d: nat, e: nat, f: nat)
    requires a <= b <= d <= e <= f <= |c|
    ensures c[a..f] == c[a..b] + c[b..d] + c[d..e] + c[e..f]
  {
    assert c[a..f] == c[a..b] + c[b..f];
    assert c[b..f] == c[b..d] + c[d..f];
    assert c[d..f] == c[d..e] + c[e..f];
  }

  lemma ImportShape(c: string, s: nat, includeUrl: bool, h: Hit)
    requires s <= |c| && ImportHit(c, s, includeUrl) == Some(h)
    ensures |h.quote| == 1 && IsQuote(h.quote[0])
    ensures NoNewline(c, h.urlStart, h.urlEnd)
    ensures s + 8 <= h.end && c[s..s + 8] == "@import "
  {
    ImportQuoteShape(c, s, includeUrl, h);
    ImportKeywordShape(c, s, includeUrl, h);
  }

  lemma ImportQuoteShape(c: string, s: nat, includeUrl: bool, h: Hit)
    requires s <= |c| && ImportHit(c, s, includeUrl) == Some(h)
    ensures |h.quote| == 1 && IsQuote(h.quote[0])
    ensures NoNewline(c, h.urlStart, h.urlEnd)
  {
    ImportHitMatches(c, s, includeUrl, h);
  }

  lemma ImportKeywordShape(c: string, s: nat, includeUrl: bool, h: Hit)
    requires s <= |c| && ImportHit(c, s, includeUrl) == Some(h)
    ensures s + 8 <= h.end && c[s..s + 8] == "@import "
  {
    ImportQuoteAtKeyword(c, s, includeUrl);
  }

  /**
   * `preg_replace_callback` with one pattern, from position `i` on: the leftmost
   * match is replaced by the callback's value and the scan continues after it.
   */
  function ReplaceFrom(m: Matcher, c: string, i: nat, cb: Callback): string
    requires i <= |c| && Advances(m)
    decreases |c| - i
  {
    if i == |c| then
      ""
    else
      match m(c, i)
      case Some(h) => cb(MatchOf(c, i, h)) + ReplaceFrom(m, c, h.end, cb)
      case None => [c[i]] + ReplaceFrom(m, c, i + 1, cb)
  }

  /** `filterUrls`: every `url(...)` reference through the callback. */
  function FilterUrls(content: string, cb: Callback): string {
    ReplaceFrom(PatternMatcher(UrlPattern), content, 0, cb)
  }

  /** `filterImports`: every `@import` reference through the callback; the url() form is accepted unless `includeUrl` is false. */
  function FilterImports(content: string, cb: Callback, includeUrl: bool := true): string {
    ReplaceFrom(PatternMatcher(ImportPattern(includeUrl)), content, 0, cb)
  }

  /** `filterReferences`: the url() pass first, then the import pass without the url() form. */
  function FilterReferences(content: string, cb: Callback): string {
    FilterImports(FilterUrls(content, cb), cb, false)
  }

  // ---------------------------------------------------------------- the scan as a whole

  /** `ms` lists match starts from `i` on, in increasing order, each match ending before the next one starts. */
  ghost predicate Chain(m: Matcher, c: string, i: nat, ms: seq<nat>)
    requires i <= |c| && Advances(m)
    decreases |ms|
  {
    ms != [] ==>
      && i <= ms[0] < |c|
      && m(c, ms[0]).Some?
      && Chain(m, c, m(c, ms[0]).value.end, ms[1..])
  }

  /** The text a chain of matches produces: the gaps copied verbatim, each match replaced by the callback's value. */
  ghost function Splice(m: Matcher, c: string, i: nat, ms: seq<nat>, cb: Callback): string
    requires i <= |c| && Advances(m) && Chain(m, c, i, ms)
    decreases |ms|
  {
    if ms == [] then
      c[i..]
    else
      var h := m(c, ms[0]).value;
      c[i..ms[0]] + (cb(MatchOf(c, ms[0], h)) + Splice(m, c, h.end, ms[1..], cb))
  }

  /** The start positions of the matches the scan finds from `i` on. */
  ghost function MatchStarts(m: Matcher, c: string, i: nat): (ms: seq<nat>)
    requires i <= |c| && Advances(m)
    ensures Chain(m, c, i, ms)
    decreases |c| - i
  {
    if i == |c| then
      []
    else
      match m(c, i)
      case Some(h) => [i] + MatchStarts(m, c, h.end)
      case None => MatchStarts(m, c, i + 1)
  }

  /** Position `j` lies inside one of the matches of the chain `ms`. */
  ghost predicate Covered(m: Matcher, c: string, ms: seq<nat>, j: nat)
    decreases |ms|
  {
    ms != [] && ((ms[0] <= j && m(c, ms[0]).Some? && j < m(c, ms[0]).value.end) || Covered(m, c, ms[1..], j))
  }

  /**
   * The scan is leftmost: every position where the pattern could match is the
   * start of a found match or lies inside one, so no match is skipped over.
   */
  lemma {:induction false} MatchStartsLeftmost(m: Matcher, c: string, i: nat, j: nat)
    requires Advances(m) && i <= j < |c| && m(c, j).Some?
    ensures Covered(m, c, MatchStarts(m, c, i), j)
    decreases |c| - i
  {
    match m(c, i)
    case Some(h) =>
      var ms := MatchStarts(m, c, i);
      assert ms[0] == i && ms[1..] == MatchStarts(m, c, h.end);
      if h.end <= j {
        MatchStartsLeftmost(m, c, h.end, j);
      }
    case None =>
      assert i != j;
      MatchStartsLeftmost(m, c, i + 1, j);
  }

  /** A chain from `i + 1` is a chain from `i`, and splicing it from `i` copies `c[i]` first. */
  lemma {:induction false} SpliceStep(m: Matcher, c: string, i: nat, ms: seq<nat>, cb: Callback)
    requires Advances(m) && i < |c| && Chain(m, c, i + 1, ms)
    ensures Chain(m, c, i, ms)
    ensures Splice(m, c, i, ms, cb) == [c[i]] + Splice(m, c, i + 1, ms, cb)
  {
    if ms != [] {
      var h := m(c, ms[0]).value;
      var tail := cb(MatchOf(c, ms[0], h)) + Splice(m, c, h.end, ms[1..], cb);
      var gap := c[i + 1..ms[0]];
      assert Splice(m, c, i + 1, ms, cb) == gap + tail;
      assert Splice(m, c, i, ms, cb) == c[i..ms[0]] + tail;
      assert c[i..ms[0]] == [c[i]] + gap;
      ConcatAssoc([c[i]], gap, tail);
    } else {
      assert c[i..] == [c[i]] + c[i + 1..];
    }
  }

  lemma ConcatAssoc(a: string, b: string, d: string)
    ensures (a + b) + d == a + (b + d)
  {
  }

  /**
   * The scan is the splice of its own matches: gaps between matches are copied
   * verbatim, each match found in the ORIGINAL content is replaced by the callback's
   * value, and nothing the callback returned is scanned again.
   */
  lemma {:induction false} ReplaceIsSplice(m: Matcher, c: string, i: nat, cb: Callback)
    requires i <= |c| && Advances(m)
    ensures ReplaceFrom(m, c, i, cb) == Splice(m, c, i, MatchStarts(m, c, i), cb)
    decreases |c| - i
  {
    if i < |c| {
      match m(c, i)
      case Some(h) =>
        var ms := MatchStarts(m, c, i);
        assert ms[0] == i && ms[1..] == MatchStarts(m, c, h.end);
        ReplaceIsSplice(m, c, h.end, cb);
        assert c[i..i] == [];
      case None =>
        ReplaceIsSplice(m, c, i + 1, cb);
        SpliceStep(m, c, i, MatchStarts(m, c, i + 1), cb);
    }
  }

  // ---------------------------------------------------------------- unchanged content

  /** A callback that hands back the matched text unchanged leaves the content unchanged. */
  lemma {:induction false} ReplaceIdentity(m: Matcher, c: string, i: nat, cb: Callback)
    requires i <= |c| && Advances(m)
    requires forall x :: cb(x) == x.text
    ensures ReplaceFrom(m, c, i, cb) == c[i..]
    decreases |c| - i
  {
    if i < |c| {
      match m(c, i)
      case Some(h) =>
        ReplaceIdentity(m, c, h.end, cb);
        assert c[i..] == c[i..h.end] + c[h.end..];
      case None =>
        ReplaceIdentity(m, c, i + 1, cb);
        assert c[i..] == [c[i]] + c[i + 1..];
    }
  }

  /** Where the pattern matches nowhere, the scan copies the content whatever the callback. */
  lemma {:induction false} ReplaceWithoutMatch(m: Matcher, c: string, i: nat, cb: Callback)
    requires i <= |c| && Advances(m)
    requires forall j :: i <= j <= |c| ==> m(c, j).None?
    ensures ReplaceFrom(m, c, i, cb) == c[i..]
    decreases |c| - i
  {
    if i < |c| {
      ReplaceWithoutMatch(m, c, i + 1, cb);
      assert c[i..] == [c[i]] + c[i + 1..];
    }
  }

  /** `c` contains `w` starting at `j`. */
  predicate OccursAt(c: string, w: string, j: int) {
    0 <= j && j + |w| <= |c| && c[j..j + |w|] == w
  }

  lemma FilterUrlsIdentity(content: string, cb: Callback)
    requires forall x :: cb(x) == x.text
    ensures FilterUrls(content, cb) == content
  {
    ReplaceIdentity(PatternMatcher(UrlPattern), content, 0, cb);
  }

  lemma FilterImportsIdentity(content: string, cb: Callback, includeUrl: bool)
    requires forall x :: cb(x) == x.text
    ensures FilterImports(content, cb, includeUrl) == content
  {
    ReplaceIdentity(PatternMatcher(ImportPattern(includeUrl)), content, 0, cb);
  }

  /** Both passes of `filterReferences` leave the content alone when the callback returns each match unchanged. */
  lemma FilterReferencesIdentity(content: string, cb: Callback)
    requires forall x :: cb(x) == x.text
    ensures FilterReferences(content, cb) == content
  {
    FilterUrlsIdentity(content, cb);
    FilterImportsIdentity(content, cb, false);
  }

  /** Where `HitAt` finds nothing, the filter pass of that pattern copies the content. */
  lemma PatternWithoutMatch(pat: Pattern, content: string, cb: Callback)
    requires forall j :: 0 <= j <= |content| ==> HitAt(pat, content, j).None?
    ensures ReplaceFrom(PatternMatcher(pat), content, 0, cb) == content
  {
    var m := PatternMatcher(pat);
    forall j | 0 <= j <= |content| ensures m(content, j).None? {
      assert m(content, j) == HitAt(pat, content, j);
    }
    ReplaceWithoutMatch(m, content, 0, cb);
  }

  /** Content that is one whole match comes out as the callback's value for that match. */
  lemma PatternWholeMatch(pat: Pattern, c: string, cb: Callback, h: Hit)
    requires HitAt(pat, c, 0) == Some(h) && h.end == |c|
    ensures ReplaceFrom(PatternMatcher(pat), c, 0, cb) == cb(MatchOf(c, 0, h))
  {
    var m := PatternMatcher(pat);
    assert m(c, 0) == HitAt(pat, c, 0);
  }

  /** Content without the substring `url(` comes out of `filterUrls` unchanged. */
  lemma FilterUrlsWithoutKeyword(content: string, cb: Callback)
    requires forall j :: !OccursAt(content, "url(", j)
    ensures FilterUrls(content, cb) == content
  {
    forall j | 0 <= j <= |content| ensures HitAt(UrlPattern, content, j).None? {
      assert !OccursAt(content, "url(", j);
    }
    PatternWithoutMatch(UrlPattern, content, cb);
  }

  /** Content without the substring `@import` comes out of `filterImports` unchanged, in both variants. */
  lemma FilterImportsWithoutKeyword(content: string, cb: Callback, includeUrl: bool)
    requires forall j :: !OccursAt(content, "@import", j)
    ensures FilterImports(content, cb, includeUrl) == content
  {
    forall j | 0 <= j <= |content| ensures HitAt(ImportPattern(includeUrl), content, j).None? {
      assert !OccursAt(content, "@import", j);
    }
    PatternWithoutMatch(ImportPattern(includeUrl), content, cb);
  }

  /**
   * Both import patterns need a quote around the URL (in the includeUrl variant
   * because a backreference to the unset quote group fails), so content without
   * any quote character comes out of `filterImports` unchanged.
   */
  lemma FilterImportsWithoutQuote(content: string, cb: Callback, includeUrl: bool)
    requires forall k :: 0 <= k < |content| ==> !IsQuote(content[k])
    ensures FilterImports(content, cb, includeUrl) == content
  {
    forall j | 0 <= j <= |content| ensures HitAt(ImportPattern(includeUrl), content, j).None? {
    }
    PatternWithoutMatch(ImportPattern(includeUrl), content, cb);
  }
}
