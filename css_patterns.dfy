/**
 * The three fixed patterns of the CSS base filter, each as a matcher anchored at
 * one start position, with the PCRE backtracking order written out:
 *
 *   url form:             url\((["']?)(?<url>.*?)(\1)\)
 *   import, includeUrl:   @import +(?:url)? *\(? *(['"])?(?<url>.*?)\1 *\)? *;?
 *   import, plain:        @import +(['"])(?<url>.*?)\1 *;?
 *
 * Each matcher is given a declarative partner (a predicate saying which spans the
 * pattern can match at all) and is proved to return the span PCRE picks: the one
 * with the quote preferred over no quote, the shortest URL, and a greedy tail.
 */
module CssPatterns {
  import opened Wrappers
  import opened CssScanning

  /** Where one match lies: the URL is `c[urlStart..urlEnd]`, the whole match ends at `end`. */
  datatype Hit = Hit(urlStart: nat, urlEnd: nat, end: nat, quote: string)

  // ---------------------------------------------------------------- url( ... )

  /** `q` is a possible value of the group `(["']?)`. */
  predicate QuoteGroup(q: string) {
    q == "" || (|q| == 1 && IsQuote(q[0]))
  }

  /**
   * The url pattern can match at `s` with quote group `q` and the URL ending at `e`:
   * `url(`, then `q`, then a newline-free URL, then `q` again and `)`.
   */
  ghost predicate UrlMatchWith(c: string, s: int, q: string, e: int) {
    && 0 <= s && s + 4 + |q| <= |c|
    && c[s..s + 4] == "url("
    && QuoteGroup(q)
    && c[s + 4..s + 4 + |q|] == q
    && ClosesAt(c, s + 4 + |q|, q + ")", e)
  }

  /** Tries one value of the quote group: the shortest URL closed by `q)`. */
  function UrlHitWith(c: string, s: nat, q: string): (r: Option<Hit>)
    requires s + 4 + |q| <= |c|
  {
    match FindClose(c, s + 4 + |q|, q + ")")
    case None => None
    case Some(e) => Some(Hit(s + 4 + |q|, e, e + |q| + 1, q))
  }

  /** A quoted url match can always be read as an unquoted one whose URL keeps the quotes. */
  lemma QuotedAlsoUnquoted(c: string, s: int, q: string, e: int)
    requires UrlMatchWith(c, s, q, e) && q != ""
    ensures UrlMatchWith(c, s, "", e + 1)
  {
    assert c[e..e + 2] == q + ")";
    assert c[e + 1..e + 2] == ")";
  }

  /**
   * The url pattern anchored at `s`, in PCRE's order: the greedy `["']?` first takes
   * a quote when there is one; only when no URL closes with that quote is the empty
   * quote tried. Within a quote choice the lazy URL is the shortest one.
   */
  function UrlHit(c: string, s: nat): (r: Option<Hit>)
    requires s <= |c|
    ensures r.Some? ==> s < r.value.urlStart <= r.value.urlEnd < r.value.end <= |c|
  {
    if !(s + 4 <= |c| && c[s..s + 4] == "url(") then
      None
    else
      var quoted := if s + 4 < |c| && IsQuote(c[s + 4]) then UrlHitWith(c, s, [c[s + 4]]) else None;
      if quoted.Some? then quoted else UrlHitWith(c, s, "")
  }

  /** A hit for one quote choice is the lazy scan's closing position for that choice. */
  lemma UrlHitWithSpec(c: string, s: nat, q: string, h: Hit)
    requires s + 4 + |q| <= |c| && UrlHitWith(c, s, q) == Some(h)
    ensures h.quote == q && h.urlStart == s + 4 + |q| && h.end == h.urlEnd + |q| + 1
    ensures FindClose(c, s + 4 + |q|, q + ")") == Some(h.urlEnd)
  {
  }

  /** A match with a quote has the character after `url(` as its quote. */
  lemma QuotedMatchAt(c: string, s: nat)
    ensures forall q, e :: q != "" && UrlMatchWith(c, s, q, e) ==> s + 4 < |c| && q == [c[s + 4]]
  {
    forall q, e | q != "" && UrlMatchWith(c, s, q, e) ensures s + 4 < |c| && q == [c[s + 4]] {
      assert c[s + 4..s + 5] == q;
    }
  }

  /** Every match can be read with the empty quote group, its URL then ending `|q|` later. */
  lemma MatchesCloseUnquoted(c: string, s: nat)
    ensures forall q, e :: UrlMatchWith(c, s, q, e) ==> ClosesAt(c, s + 4, ")", e + |q|)
  {
    forall q, e | UrlMatchWith(c, s, q, e) ensures ClosesAt(c, s + 4, ")", e + |q|) {
      if q != "" {
        QuotedAlsoUnquoted(c, s, q, e);
      }
      assert "" + ")" == ")";
    }
  }

  /**
   * A hit of `UrlHit` is a match of the url pattern with the quote group it
   * reports, and no match with that quote group has a shorter URL.
   */
  lemma UrlHitMatches(c: string, s: nat, h: Hit)
    requires s <= |c| && UrlHit(c, s) == Some(h)
    ensures h.urlStart == s + 4 + |h.quote| && h.end == h.urlEnd + |h.quote| + 1
    ensures UrlMatchWith(c, s, h.quote, h.urlEnd)
    ensures forall e :: UrlMatchWith(c, s, h.quote, e) ==> h.urlEnd <= e
  {
    var quoted := if s + 4 < |c| && IsQuote(c[s + 4]) then UrlHitWith(c, s, [c[s + 4]]) else None;
    if quoted.Some? {
      var q := [c[s + 4]];
      assert h == quoted.value;
      UrlHitWithSpec(c, s, q, h);
      assert c[s + 4..s + 5] == q;
    } else {
      assert h == UrlHitWith(c, s, "").value;
      UrlHitWithSpec(c, s, "", h);
    }
  }

  /**
   * The greedy `["']?` is tried with the quote first: `UrlHit` reports the empty
   * quote group only when no match with a quote exists.
   */
  lemma UrlHitPrefersQuote(c: string, s: nat, h: Hit)
    requires s <= |c| && UrlHit(c, s) == Some(h) && h.quote == ""
    ensures forall q, e :: q != "" ==> !UrlMatchWith(c, s, q, e)
  {
    QuotedMatchAt(c, s);
    if s + 4 < |c| && IsQuote(c[s + 4]) {
      var q := [c[s + 4]];
      assert UrlHitWith(c, s, q).None?;
      assert FindClose(c, s + 4 + |q|, q + ")").None?;
    }
  }

  /** `UrlHit` finds nothing only when the url pattern cannot match at `s` at all. */
  lemma NoUrlHitNoMatch(c: string, s: nat)
    requires s <= |c| && UrlHit(c, s).None?
    ensures forall q, e :: !UrlMatchWith(c, s, q, e)
  {
    MatchesCloseUnquoted(c, s);
    if s + 4 <= |c| && c[s..s + 4] == "url(" {
      assert UrlHitWith(c, s, "").None?;
      assert "" + ")" == ")";
      assert FindClose(c, s + 4, ")").None?;
    }
  }

  // ---------------------------------------------------------------- @import

  /** `c[i..p]` matches ` +`, the head of the plain import pattern after `@import`. */
  predicate PlainHead(c: string, i: int, p: int)
    requires 0 <= i <= p <= |c|
  {
    i < p && AllSpaces(c, i, p)
  }

  /** `c[i..p]` matches ` +(?:url)? *\(? *`, the head of the includeUrl import pattern. */
  ghost predicate UrlHead(c: string, i: int, p: int)
    requires 0 <= i <= p <= |c|
  {
    exists a, b, d, f ::
      && i < a <= b <= d <= f <= p
      && AllSpaces(c, i, a)
      && (b == a || (b == a + 3 && c[a..b] == "url"))
      && AllSpaces(c, b, d)
      && (f == d || (f == d + 1 && c[d] == '('))
      && AllSpaces(c, f, p)
  }

  /** The head of the import pattern: ` +` (plain) or ` +(?:url)? *\(? *` (includeUrl). */
  ghost predicate ImportHead(c: string, i: int, p: int, includeUrl: bool)
    requires 0 <= i <= p <= |c|
  {
    if includeUrl then UrlHead(c, i, p) else PlainHead(c, i, p)
  }

  /**
   * The import pattern can match at `s` with its quote at `p` and the URL ending at
   * `e`. The quote is mandatory in both variants: in the includeUrl one the group
   * `(['"])?` is optional, but a PCRE backreference to a group that did not take
   * part fails, so `\1` only matches after the group has taken a quote.
   */
  ghost predicate ImportMatchWith(c: string, s: int, includeUrl: bool, p: int, e: int) {
    && 0 <= s && s + 7 <= p < |c|
    && c[s..s + 7] == "@import"
    && ImportHead(c, s + 7, p, includeUrl)
    && IsQuote(c[p])
    && ClosesAt(c, p + 1, [c[p]], e)
  }

  /** `c[i..j]` matches ` *` (plain) or ` *\)? *` (includeUrl): spaces, with one `)` among them allowed in the includeUrl variant. */
  predicate TailBody(c: string, i: int, j: int, includeUrl: bool)
    requires 0 <= i <= j <= |c|
  {
    || AllSpaces(c, i, j)
    || (includeUrl && exists k :: i <= k < j && c[k] == ')' && AllSpaces(c, i, k) && AllSpaces(c, k + 1, j))
  }

  /** `c[i..t]` matches the tail ` *;?` (plain) or ` *\)? *;?` (includeUrl). */
  predicate TailShape(c: string, i: int, t: int, includeUrl: bool)
    requires 0 <= i <= t <= |c|
  {
    TailBody(c, i, t, includeUrl) || (i < t && c[t - 1] == ';' && TailBody(c, i, t - 1, includeUrl))
  }

  /** `c[i..t]` is the longest prefix of `c[i..]` that matches the tail: what greedy quantifiers take. */
  predicate LongestTail(c: string, i: int, t: int, includeUrl: bool)
    requires 0 <= i <= t <= |c|
  {
    TailShape(c, i, t, includeUrl) && forall t' :: t < t' <= |c| ==> !TailShape(c, i, t', includeUrl)
  }

  /** The greedy `(?:url)? *\(? *` after the mandatory spaces. */
  function UrlHeadRest(c: string, a: nat): (p: nat)
    requires a <= |c|
    ensures a <= p <= |c|
  {
    var b := if a + 3 <= |c| && c[a..a + 3] == "url" then a + 3 else a;
    var d := SkipSpaces(c, b);
    var f := if d < |c| && c[d] == '(' then d + 1 else d;
    SkipSpaces(c, f)
  }

  /** The greedy scan of the includeUrl head ends where every parse of the head does. */
  lemma UrlHeadScan(c: string, i: nat)
    requires i <= |c| && SkipSpaces(c, i) > i
    ensures UrlHead(c, i, UrlHeadRest(c, SkipSpaces(c, i)))
  {
    var a := SkipSpaces(c, i);
    var b := if a + 3 <= |c| && c[a..a + 3] == "url" then a + 3 else a;
    var d := SkipSpaces(c, b);
    var f := if d < |c| && c[d] == '(' then d + 1 else d;
    var p := SkipSpaces(c, f);
    SkipSpacesRun(c, i);
    SkipSpacesRun(c, b);
    SkipSpacesRun(c, f);
    assert UrlHeadRest(c, a) == p;
    HeadFromParts(c, i, a, b, d, f, p);
  }

  /** One parse of the head, given part by part, makes a head. */
  lemma HeadFromParts(c: string, i: nat, a: nat, b: nat, d: nat, f: nat, p: nat)
    requires i < a <= b <= d <= f <= p <= |c|
    requires AllSpaces(c, i, a)
    requires b == a || (b == a + 3 && c[a..b] == "url")
    requires AllSpaces(c, b, d)
    requires f == d || (f == d + 1 && c[d] == '(')
    requires AllSpaces(c, f, p)
    ensures UrlHead(c, i, p)
  {
  }

  /** A head followed by a quote is the one the greedy scan finds: quotes are not head characters. */
  lemma UrlHeadUnique(c: string, i: nat, p: nat)
    requires i <= p < |c| && UrlHead(c, i, p) && IsQuote(c[p])
    ensures SkipSpaces(c, i) > i && UrlHeadRest(c, SkipSpaces(c, i)) == p
  {
    var a, b, d, f :|
      && i < a <= b <= d <= f <= p
      && AllSpaces(c, i, a)
      && (b == a || (b == a + 3 && c[a..b] == "url"))
      && AllSpaces(c, b, d)
      && (f == d || (f == d + 1 && c[d] == '('))
      && AllSpaces(c, f, p);
    HeadPartsUnique(c, i, a, b, d, f, p);
  }

  /** The same, for one given parse of the head. */
  lemma HeadPartsUnique(c: string, i: nat, a: nat, b: nat, d: nat, f: nat, p: nat)
    requires i < a <= b <= d <= f <= p < |c| && IsQuote(c[p])
    requires AllSpaces(c, i, a)
    requires b == a || (b == a + 3 && c[a..b] == "url")
    requires AllSpaces(c, b, d)
    requires f == d || (f == d + 1 && c[d] == '(')
    requires AllSpaces(c, f, p)
    ensures SkipSpaces(c, i) > i && UrlHeadRest(c, SkipSpaces(c, i)) == p
  {
    if b == a + 3 {
      HeadWithUrl(c, i, a, d, f, p);
    } else if f == d + 1 {
      assert AllSpaces(c, i, d);
      HeadWithParen(c, i, d, p);
    } else {
      assert AllSpaces(c, i, p);
      HeadOfSpaces(c, i, p);
    }
  }

  lemma HeadWithUrl(c: string, i: nat, a: nat, d: nat, f: nat, p: nat)
    requires i < a && a + 3 <= d <= f <= p < |c| && IsQuote(c[p])
    requires AllSpaces(c, i, a) && c[a..a + 3] == "url" && AllSpaces(c, a + 3, d) && AllSpaces(c, f, p)
    requires f == d || (f == d + 1 && c[d] == '(')
    ensures SkipSpaces(c, i) > i && UrlHeadRest(c, SkipSpaces(c, i)) == p
  {
    assert c[a] == 'u';
    SkipSpacesTo(c, i, a);
    ParenTail(c, a + 3, d, f, p);
  }

  lemma HeadWithParen(c: string, i: nat, d: nat, p: nat)
    requires i < d < p < |c| && IsQuote(c[p])
    requires AllSpaces(c, i, d) && c[d] == '(' && AllSpaces(c, d + 1, p)
    ensures SkipSpaces(c, i) > i && UrlHeadRest(c, SkipSpaces(c, i)) == p
  {
    SkipSpacesTo(c, i, d);
    assert !(d + 3 <= |c| && c[d..d + 3] == "url") by { assert d + 3 <= |c| ==> c[d..d + 3][0] == '('; }
    SkipSpacesTo(c, d, d);
    SkipSpacesTo(c, d + 1, p);
  }

  lemma HeadOfSpaces(c: string, i: nat, p: nat)
    requires i < p < |c| && IsQuote(c[p]) && AllSpaces(c, i, p)
    ensures SkipSpaces(c, i) > i && UrlHeadRest(c, SkipSpaces(c, i)) == p
  {
    SkipSpacesTo(c, i, p);
    assert !(p + 3 <= |c| && c[p..p + 3] == "url") by { assert p + 3 <= |c| ==> c[p..p + 3][0] == c[p]; }
    SkipSpacesTo(c, p, p);
  }

  /** The part ` *\(? *` of the head, from `b` to the quote at `p`, is scanned greedily. */
  lemma ParenTail(c: string, b: nat, d: nat, f: nat, p: nat)
    requires b <= d <= f <= p < |c| && IsQuote(c[p])
    requires AllSpaces(c, b, d) && AllSpaces(c, f, p)
    requires f == d || (f == d + 1 && c[d] == '(')
    ensures var d' := SkipSpaces(c, b);
            var f' := if d' < |c| && c[d'] == '(' then d' + 1 else d';
            SkipSpaces(c, f') == p
  {
    if f == d + 1 {
      SkipSpacesTo(c, b, d);
      SkipSpacesTo(c, f, p);
    } else {
      assert AllSpaces(c, b, p);
      SkipSpacesTo(c, b, p);
      SkipSpacesTo(c, p, p);
    }
  }

  /** The greedy tail: spaces, then (includeUrl only) an optional `)` and spaces, then an optional `;`. */
  function ImportTail(c: string, i: nat, includeUrl: bool): (t: nat)
    requires i <= |c|
    ensures i <= t <= |c|
  {
    var a := SkipSpaces(c, i);
    var b := if includeUrl && a < |c| && c[a] == ')' then SkipSpaces(c, a + 1) else a;
    if b < |c| && c[b] == ';' then b + 1 else b
  }

  /** The greedy tail is the longest one. */
  lemma ImportTailLongest(c: string, i: nat, includeUrl: bool)
    requires i <= |c|
    ensures LongestTail(c, i, ImportTail(c, i, includeUrl), includeUrl)
  {
    var a := SkipSpaces(c, i);
    var b := if includeUrl && a < |c| && c[a] == ')' then SkipSpaces(c, a + 1) else a;
    var t := if b < |c| && c[b] == ';' then b + 1 else b;
    SkipSpacesSpec(c, i);
    if b != a {
      SkipSpacesSpec(c, a + 1);
      assert c[a] == ')' && AllSpaces(c, i, a) && AllSpaces(c, a + 1, b);
    }
    assert TailBody(c, i, b, includeUrl);
    TailLongest(c, i, a, b, t, includeUrl);
  }

  lemma TailLongest(c: string, i: nat, a: nat, b: nat, t: nat, includeUrl: bool)
    requires i <= |c| && a == SkipSpaces(c, i)
    requires b == if includeUrl && a < |c| && c[a] == ')' then SkipSpaces(c, a + 1) else a
    requires t == if b < |c| && c[b] == ';' then b + 1 else b
    ensures forall t' :: t < t' <= |c| ==> !TailShape(c, i, t', includeUrl)
  {
    forall t' | t < t' <= |c|
      ensures !TailShape(c, i, t', includeUrl)
    {
      TailBodyBound(c, i, a, b, t', includeUrl);
      if b < t' - 1 {
        TailBodyBound(c, i, a, b, t' - 1, includeUrl);
      }
    }
  }

  /** No tail body reaches past `b`, where the greedy scan of ` *\)? *` stops. */
  lemma TailBodyBound(c: string, i: nat, a: nat, b: nat, j: nat, includeUrl: bool)
    requires i <= |c| && a == SkipSpaces(c, i)
    requires b == if includeUrl && a < |c| && c[a] == ')' then SkipSpaces(c, a + 1) else a
    requires b < j <= |c|
    ensures !TailBody(c, i, j, includeUrl)
  {
    SkipSpacesSpec(c, i);
    assert c[a] != ' ';
    if includeUrl {
      forall k | i <= k < j && c[k] == ')' && AllSpaces(c, i, k)
        ensures !AllSpaces(c, k + 1, j)
      {
        assert k == a;
        SkipSpacesSpec(c, a + 1);
        assert c[b] != ' ';
      }
    }
  }

  /**
   * Where the quote of an import match at `s` must stand: after `@import` and the
   * greedily scanned head. No other position can hold it, because the head's
   * characters (space, `u`, `r`, `l`, `(`) are never quotes.
   */
  function ImportQuoteAt(c: string, s: nat, includeUrl: bool): (r: Option<nat>)
    requires s <= |c|
    ensures r.Some? ==> s + 7 <= r.value < |c|
  {
    if !(s + 7 <= |c| && c[s..s + 7] == "@import") then
      None
    else
      var a := SkipSpaces(c, s + 7);
      if a == s + 7 then
        None
      else
        var p := if includeUrl then UrlHeadRest(c, a) else a;
        if p < |c| && IsQuote(c[p]) then Some(p) else None
  }

  /** The quote `ImportQuoteAt` finds ends a head, and it is the only place a match's quote can stand. */
  lemma ImportQuoteAtSpec(c: string, s: nat, includeUrl: bool)
    requires s <= |c|
    ensures var r := ImportQuoteAt(c, s, includeUrl);
      && (r.Some? ==>
        && c[s..s + 7] == "@import"
        && ImportHead(c, s + 7, r.value, includeUrl)
        && IsQuote(c[r.value]))
      && (forall p, e :: ImportMatchWith(c, s, includeUrl, p, e) ==> r == Some(p))
  {
    if s + 7 <= |c| && c[s..s + 7] == "@import" {
      var a := SkipSpaces(c, s + 7);
      if a == s + 7 {
        NoHeadWithoutSpace(c, s, includeUrl);
      } else {
        var p := if includeUrl then UrlHeadRest(c, a) else a;
        HeadEndsAt(c, s, includeUrl, p);
        SkipSpacesSpec(c, s + 7);
        if includeUrl && p < |c| && IsQuote(c[p]) {
          UrlHeadScan(c, s + 7);
        }
      }
    }
  }

  /** A quote is only found after `@import` and a space. */
  lemma ImportQuoteAtKeyword(c: string, s: nat, includeUrl: bool)
    requires s <= |c| && ImportQuoteAt(c, s, includeUrl).Some?
    ensures s + 8 <= ImportQuoteAt(c, s, includeUrl).value && c[s..s + 8] == "@import "
  {
    assert SkipSpaces(c, s + 7) > s + 7;
    assert c[s..s + 8] == c[s..s + 7] + [c[s + 7]];
  }

  lemma NoHeadWithoutSpace(c: string, s: nat, includeUrl: bool)
    requires s + 7 < |c| ==> c[s + 7] != ' '
    ensures forall p, e :: !ImportMatchWith(c, s, includeUrl, p, e)
  {
    forall p, e | ImportMatchWith(c, s, includeUrl, p, e) ensures s + 7 < |c| && c[s + 7] == ' ' {
      HeadStartsWithSpace(c, s + 7, p, includeUrl);
    }
  }

  /** Both heads begin with the mandatory ` +`. */
  lemma HeadStartsWithSpace(c: string, i: int, p: int, includeUrl: bool)
    requires 0 <= i <= p <= |c| && ImportHead(c, i, p, includeUrl)
    ensures i < |c| && c[i] == ' '
  {
    if includeUrl {
      var a, b, d, f :| i < a <= b <= d <= f <= p && AllSpaces(c, i, a);
    }
  }

  lemma HeadEndsAt(c: string, s: nat, includeUrl: bool, p: nat)
    requires s + 7 <= |c| && SkipSpaces(c, s + 7) > s + 7
    requires p == if includeUrl then UrlHeadRest(c, SkipSpaces(c, s + 7)) else SkipSpaces(c, s + 7)
    ensures forall p', e :: ImportMatchWith(c, s, includeUrl, p', e) ==> p' == p
  {
    forall p', e | ImportMatchWith(c, s, includeUrl, p', e) ensures p' == p {
      if includeUrl {
        UrlHeadUnique(c, s + 7, p');
      } else {
        SkipSpacesTo(c, s + 7, p');
      }
    }
  }

  /**
   * The import pattern anchored at `s`: `@import`, at least one space, the head,
   * a quote, the shortest newline-free URL closed by the same quote, and the
   * greedy tail.
   */
  function ImportHit(c: string, s: nat, includeUrl: bool): (r: Option<Hit>)
    requires s <= |c|
    ensures r.Some? ==> s < r.value.urlStart <= r.value.urlEnd < r.value.end <= |c|
    ensures r.Some? ==>
      && ImportQuoteAt(c, s, includeUrl) == Some(r.value.urlStart - 1)
      && FindClose(c, r.value.urlStart, [c[r.value.urlStart - 1]]) == Some(r.value.urlEnd)
      && r.value.quote == [c[r.value.urlStart - 1]]
      && r.value.end == ImportTail(c, r.value.urlEnd + 1, includeUrl)
  {
    match ImportQuoteAt(c, s, includeUrl)
    case None => None
    case Some(p) =>
      match FindClose(c, p + 1, [c[p]])
      case None => None
      case Some(e) => Some(Hit(p + 1, e, ImportTail(c, e + 1, includeUrl), [c[p]]))
  }

  /**
   * A hit of `ImportHit` is a match of the import pattern, with the quote group
   * holding the quote before the URL.
   */
  lemma ImportHitMatches(c: string, s: nat, includeUrl: bool, h: Hit)
    requires s <= |c| && ImportHit(c, s, includeUrl) == Some(h)
    ensures ImportMatchWith(c, s, includeUrl, h.urlStart - 1, h.urlEnd)
  {
    var p := h.urlStart - 1;
    assert p + 1 == h.urlStart;
    assert FindClose(c, p + 1, [c[p]]) == Some(h.urlEnd);
    ImportChosenMatches(c, s, includeUrl, p, h.urlEnd);
  }

  /** The tail after the closing quote is the longest one, as the greedy ` *\)? *;?` takes it. */
  lemma ImportHitTail(c: string, s: nat, includeUrl: bool, h: Hit)
    requires s <= |c| && ImportHit(c, s, includeUrl) == Some(h)
    ensures LongestTail(c, h.urlEnd + 1, h.end, includeUrl)
  {
    ImportTailLongest(c, h.urlEnd + 1, includeUrl);
  }

  /** The hit is the match PCRE picks: no match has its quote elsewhere or a shorter URL. */
  lemma ImportHitFirst(c: string, s: nat, includeUrl: bool, h: Hit)
    requires s <= |c| && ImportHit(c, s, includeUrl) == Some(h)
    ensures forall p, e :: ImportMatchWith(c, s, includeUrl, p, e) ==> p == h.urlStart - 1 && h.urlEnd <= e
  {
    var p := h.urlStart - 1;
    assert p + 1 == h.urlStart;
    assert FindClose(c, p + 1, [c[p]]) == Some(h.urlEnd);
    forall p', e' | ImportMatchWith(c, s, includeUrl, p', e') ensures p' == p && h.urlEnd <= e' {
      ImportChosenFirst(c, s, includeUrl, p, h.urlEnd, p', e');
    }
  }

  /** `ImportHit` finds nothing only when the pattern cannot match at `s` at all. */
  lemma NoImportHitNoMatch(c: string, s: nat, includeUrl: bool)
    requires s <= |c| && ImportHit(c, s, includeUrl).None?
    ensures forall p, e :: !ImportMatchWith(c, s, includeUrl, p, e)
  {
    ImportQuoteAtSpec(c, s, includeUrl);
    match ImportQuoteAt(c, s, includeUrl)
    case None =>
    case Some(p) =>
      NoCloseNoImport(c, s, includeUrl, p);
  }

  lemma ImportChosenMatches(c: string, s: nat, includeUrl: bool, p: nat, e: nat)
    requires s <= |c| && ImportQuoteAt(c, s, includeUrl) == Some(p)
    requires p + 1 <= |c| && FindClose(c, p + 1, [c[p]]) == Some(e)
    ensures ImportMatchWith(c, s, includeUrl, p, e)
  {
    ImportQuoteAtSpec(c, s, includeUrl);
  }

  lemma ImportChosenFirst(c: string, s: nat, includeUrl: bool, p: nat, e: nat, p': nat, e': int)
    requires s <= |c| && ImportQuoteAt(c, s, includeUrl) == Some(p)
    requires p + 1 <= |c| && FindClose(c, p + 1, [c[p]]) == Some(e)
    requires ImportMatchWith(c, s, includeUrl, p', e')
    ensures p' == p && e <= e'
  {
    ImportQuoteAtSpec(c, s, includeUrl);
    assert p' == p;
    assert ClosesAt(c, p + 1, [c[p]], e');
  }

  lemma NoCloseNoImport(c: string, s: nat, includeUrl: bool, p: nat)
    requires s <= |c| && ImportQuoteAt(c, s, includeUrl) == Some(p)
    requires p + 1 <= |c| && FindClose(c, p + 1, [c[p]]).None?
    ensures forall p', e' :: !ImportMatchWith(c, s, includeUrl, p', e')
  {
    ImportQuoteAtSpec(c, s, includeUrl);
    forall p', e' ensures !ImportMatchWith(c, s, includeUrl, p', e') {
      if p' == p {
        assert !ClosesAt(c, p + 1, [c[p]], e');
      }
    }
  }
}
