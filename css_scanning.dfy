/**
 * Character-level building blocks shared by the three fixed reference patterns of
 * the CSS filter: runs of spaces, quote characters, and the lazy `.*?` followed by
 * a closing delimiter.
 *
 * A PCRE `.` without the `s` modifier matches every character except a line feed,
 * so a lazily captured URL is the shortest run of non-newline characters that is
 * followed by the closing delimiter.
 */
module CssScanning {
  import opened Wrappers

  /** The two quote characters the patterns accept, `["']`. */
  predicate IsQuote(ch: char) {
    ch == '"' || ch == '\''
  }

  /** `c[i..j]` holds only spaces (the patterns use a literal space, not `\s`). */
  predicate AllSpaces(c: string, i: int, j: int)
    requires 0 <= i <= j <= |c|
  {
    forall k :: i <= k < j ==> c[k] == ' '
  }

  /** `c[i..j]` holds no line feed, so `.` can consume all of it. */
  predicate NoNewline(c: string, i: int, j: int)
    requires 0 <= i <= j <= |c|
  {
    forall k :: i <= k < j ==> c[k] != '\n'
  }

  /** ` *` applied greedily from `i`: the first position at or after `i` that is not a space. */
  function SkipSpaces(c: string, i: nat): (r: nat)
    requires i <= |c|
    ensures i <= r <= |c|
    decreases |c| - i
  {
    if i < |c| && c[i] == ' ' then SkipSpaces(c, i + 1) else i
  }

  /** What `SkipSpaces` skips is all spaces, and it stops at a non-space or at the end. */
  lemma {:induction false} SkipSpacesSpec(c: string, i: nat)
    requires i <= |c|
    ensures AllSpaces(c, i, SkipSpaces(c, i))
    ensures SkipSpaces(c, i) == |c| || c[SkipSpaces(c, i)] != ' '
    decreases |c| - i
  {
    if i < |c| && c[i] == ' ' {
      SkipSpacesSpec(c, i + 1);
    }
  }

  /** What `SkipSpaces` skips is all spaces (the first half of `SkipSpacesSpec`, on its own). */
  lemma SkipSpacesRun(c: string, i: nat)
    requires i <= |c|
    ensures AllSpaces(c, i, SkipSpaces(c, i))
  {
    SkipSpacesSpec(c, i);
  }

  /** A space run ending at a non-space is exactly what `SkipSpaces` finds. */
  lemma {:induction false} SkipSpacesTo(c: string, i: nat, a: nat)
    requires i <= a <= |c|
    requires AllSpaces(c, i, a)
    requires a == |c| || c[a] != ' '
    ensures SkipSpaces(c, i) == a
    decreases a - i
  {
    if i < a {
      SkipSpacesTo(c, i + 1, a);
    }
  }

  /**
   * `.*?` started at `p` can stop at `e` and let `close` match there: the captured
   * text `c[p..e]` has no line feed and `c[e..]` begins with `close`.
   */
  predicate ClosesAt(c: string, p: int, close: string, e: int) {
    0 <= p <= e && e + |close| <= |c| && c[e..e + |close|] == close && NoNewline(c, p, e)
  }

  /**
   * The lazy `.*?` followed by `close`, started at `j`: the closing position of the
   * shortest capture that works, or None when a line feed or the end of the text
   * comes first.
   */
  function FindClose(c: string, j: nat, close: string): (r: Option<nat>)
    requires j <= |c|
    ensures r.Some? ==> ClosesAt(c, j, close, r.value)
    ensures r.Some? ==> forall e :: ClosesAt(c, j, close, e) ==> r.value <= e
    ensures r.None? ==> forall e :: !ClosesAt(c, j, close, e)
    decreases |c| - j
  {
    if j + |close| <= |c| && c[j..j + |close|] == close then
      Some(j)
    else if j < |c| && c[j] != '\n' then
      ClosesLater(c, j, close);
      FindClose(c, j + 1, close)
    else
      None
  }

  /** When `close` is absent at `j` and `c[j]` is not a line feed, the capture may only grow past `c[j]`. */
  lemma ClosesLater(c: string, j: nat, close: string)
    requires j < |c| && c[j] != '\n'
    requires !(j + |close| <= |c| && c[j..j + |close|] == close)
    ensures forall e :: ClosesAt(c, j, close, e) <==> ClosesAt(c, j + 1, close, e)
  {
  }
}
