/**
 * The tokeniser `re.findall(r'\b\w+\b', s)`.
 *
 * The regex scanner starts at the left, skips characters that cannot begin a
 * match, and at a word character takes the longest run of word characters
 * (`\w+` is greedy, and `\b` holds at both ends of such a run). The tokens are
 * therefore exactly the maximal runs of word characters, left to right. The
 * scanner is modelled on spans (half-open ranges of positions); the tokens are
 * the texts of those spans.
 */
module Tokenizer {
  import opened Ascii

  /** The half-open range of positions [lo, hi) of a text. */
  datatype Span = Span(lo: nat, hi: nat)

  /** Every character of s[lo..hi] is a word character. */
  ghost predicate AllWordChars(s: string, lo: nat, hi: nat)
    requires lo <= hi <= |s|
  {
    forall p :: lo <= p < hi ==> IsWordChar(s[p])
  }

  /**
   * s[lo..hi] is a maximal run of word characters: non-empty, made of word
   * characters only, and neither preceded nor followed by a word character.
   * These are the substrings that `\b\w+\b` matches.
   */
  ghost predicate IsMaximalRun(s: string, lo: nat, hi: nat) {
    && lo < hi <= |s|
    && AllWordChars(s, lo, hi)
    && (lo == 0 || !IsWordChar(s[lo - 1]))
    && (hi == |s| || !IsWordChar(s[hi]))
  }

  /** Where the run of word characters that starts at position i ends. */
  function RunEnd(s: string, i: nat): (j: nat)
    requires i <= |s|
    ensures i <= j <= |s|
    ensures j == |s| || !IsWordChar(s[j])
    decreases |s| - i
  {
    if i < |s| && IsWordChar(s[i]) then RunEnd(s, i + 1) else i
  }

  /** Every character from i up to the end of its run is a word character. */
  lemma {:induction false} RunEndAllWordChars(s: string, i: nat)
    requires i <= |s|
    ensures AllWordChars(s, i, RunEnd(s, i))
    decreases |s| - i
  {
    if i < |s| && IsWordChar(s[i]) {
      RunEndAllWordChars(s, i + 1);
    }
  }

  /**
   * The spans the scanner reports when it starts at position i: it skips a
   * non-word character, and at a word character reports the whole run that
   * starts there and resumes after it.
   */
  function SpansFrom(s: string, i: nat): seq<Span>
    requires i <= |s|
    decreases |s| - i
  {
    if i == |s| then []
    else if !IsWordChar(s[i]) then SpansFrom(s, i + 1)
    else
      var j := RunEnd(s, i);
      [Span(i, j)] + SpansFrom(s, j)
  }

  /**
   * sp is a run that the scanner started at i may report: a non-empty run of
   * word characters inside s[i..] that ends at a non-word character or at
   * the end of the text, and starts after a non-word character unless it
   * starts at i.
   */
  ghost predicate IsRunAfter(s: string, i: nat, sp: Span) {
    && i <= sp.lo < sp.hi <= |s|
    && AllWordChars(s, sp.lo, sp.hi)
    && (sp.hi == |s| || !IsWordChar(s[sp.hi]))
    && (i < sp.lo ==> !IsWordChar(s[sp.lo - 1]))
  }

  /**
   * Every span the scanner reports from i is a run it may report, and the
   * spans come in increasing order with a gap between them.
   */
  lemma {:induction false} SpansFromSound(s: string, i: nat)
    requires i <= |s|
    ensures forall k :: 0 <= k < |SpansFrom(s, i)| ==> IsRunAfter(s, i, SpansFrom(s, i)[k])
    ensures forall k :: 0 < k < |SpansFrom(s, i)| ==> SpansFrom(s, i)[k - 1].hi < SpansFrom(s, i)[k].lo
    decreases |s| - i
  {
    if i < |s| {
      if !IsWordChar(s[i]) {
        SpansFromSound(s, i + 1);
        assert SpansFrom(s, i) == SpansFrom(s, i + 1);
      } else {
        var j := RunEnd(s, i);
        RunEndAllWordChars(s, i);
        SpansFromSound(s, j);
        var rest := SpansFrom(s, j);
        assert SpansFrom(s, i) == [Span(i, j)] + rest;
        assert IsRunAfter(s, i, Span(i, j));
      }
    }
  }

  /** A run of word characters from i up to a non-word character at j (or the end) ends at j. */
  lemma {:induction false} RunEndAt(s: string, i: nat, j: nat)
    requires i <= j <= |s|
    requires AllWordChars(s, i, j)
    requires j == |s| || !IsWordChar(s[j])
    ensures RunEnd(s, i) == j
    decreases j - i
  {
    if i < j {
      RunEndAt(s, i + 1, j);
    }
  }

  /**
   * At the start of a run of word characters that ends at j, the scanner
   * reports that run and resumes at j.
   */
  lemma SpansFromRun(s: string, i: nat, j: nat)
    requires i < j <= |s|
    requires AllWordChars(s, i, j)
    requires j == |s| || !IsWordChar(s[j])
    ensures SpansFrom(s, i) == [Span(i, j)] + SpansFrom(s, j)
  {
    RunEndAt(s, i, j);
  }

  /** The spans of all matches of `\b\w+\b` in s. */
  function Spans(s: string): seq<Span> {
    SpansFrom(s, 0)
  }

  /**
   * Every span is a maximal run of word characters, and the spans are listed
   * left to right without overlap.
   */
  lemma SpansSound(s: string)
    ensures forall k :: 0 <= k < |Spans(s)| ==> IsMaximalRun(s, Spans(s)[k].lo, Spans(s)[k].hi)
    ensures forall k :: 0 < k < |Spans(s)| ==> Spans(s)[k - 1].hi < Spans(s)[k].lo
  {
    SpansFromSound(s, 0);
  }

  /** Every maximal run of word characters at or after i is found by the scanner started at i. */
  lemma {:induction false} MaximalRunFound(s: string, i: nat, lo: nat, hi: nat)
    requires i <= lo
    requires IsMaximalRun(s, lo, hi)
    ensures Span(lo, hi) in SpansFrom(s, i)
    decreases |s| - i
  {
    if !IsWordChar(s[i]) {
      MaximalRunFound(s, i + 1, lo, hi);
    } else if i < lo {
      var j := RunEnd(s, i);
      RunEndAllWordChars(s, i);
      MaximalRunFound(s, j, lo, hi);
      assert SpansFrom(s, i) == [Span(i, j)] + SpansFrom(s, j);
    } else {
      RunEndAllWordChars(s, i);
    }
  }

  /**
   * The spans are exactly the maximal runs of word characters: a range is a
   * span if and only if it is a maximal run.
   */
  lemma SpansAreMaximalRuns(s: string, lo: nat, hi: nat)
    ensures Span(lo, hi) in Spans(s) <==> IsMaximalRun(s, lo, hi)
  {
    SpansSound(s);
    if IsMaximalRun(s, lo, hi) {
      MaximalRunFound(s, 0, lo, hi);
    }
  }

  /** `re.findall(r'\b\w+\b', s)`: the text of every span, in order. */
  function Tokens(s: string): seq<string> {
    SpansSound(s);
    var sp := Spans(s);
    seq(|sp|, k requires 0 <= k < |sp| => s[sp[k].lo..sp[k].hi])
  }

  /** Every token is non-empty and made only of word characters. */
  lemma TokensAreWords(s: string)
    ensures forall t :: t in Tokens(s) ==> |t| > 0 && forall c :: c in t ==> IsWordChar(c)
  {
    var ts, sp := Tokens(s), Spans(s);
    SpansSound(s);
    forall t | t in ts
      ensures |t| > 0 && forall c :: c in t ==> IsWordChar(c)
    {
      var k :| 0 <= k < |ts| && ts[k] == t;
      assert IsMaximalRun(s, sp[k].lo, sp[k].hi);
    }
  }

  /** A text without word characters has no tokens, and a text with one has at least one. */
  lemma NoTokensIffNoWordChars(s: string)
    ensures Tokens(s) == [] <==> forall p :: 0 <= p < |s| ==> !IsWordChar(s[p])
  {
    if p :| 0 <= p < |s| && IsWordChar(s[p]) {
      var lo := p;
      while lo > 0 && IsWordChar(s[lo - 1])
        invariant 0 <= lo <= p
        invariant AllWordChars(s, lo, p + 1)
        decreases lo
      {
        lo := lo - 1;
      }
      var hi := RunEnd(s, p);
      RunEndAllWordChars(s, p);
      assert IsMaximalRun(s, lo, hi);
      SpansAreMaximalRuns(s, lo, hi);
    }
    if Spans(s) != [] {
      SpansSound(s);
      var first := Spans(s)[0];
      assert IsWordChar(s[first.lo]);
    }
  }

  /** Lowercasing does not move the end of a run: it keeps word characters word characters. */
  lemma {:induction false} RunEndIgnoresCase(s: string, i: nat)
    requires i <= |s|
    ensures RunEnd(LowerText(s), i) == RunEnd(s, i)
    decreases |s| - i
  {
    if i < |s| && IsWordChar(s[i]) {
      RunEndIgnoresCase(s, i + 1);
    }
  }

  /** The scanner finds the same spans in a text and in its lowercased form. */
  lemma {:induction false} SpansFromIgnoreCase(s: string, i: nat)
    requires i <= |s|
    ensures SpansFrom(LowerText(s), i) == SpansFrom(s, i)
    decreases |s| - i
  {
    if i < |s| {
      if !IsWordChar(s[i]) {
        SpansFromIgnoreCase(s, i + 1);
      } else {
        RunEndIgnoresCase(s, i);
        SpansFromIgnoreCase(s, RunEnd(s, i));
      }
    }
  }

  /** The spans sp moved d positions to the right. */
  function Shift(sp: seq<Span>, d: nat): (r: seq<Span>)
    ensures |r| == |sp|
    ensures forall k :: 0 <= k < |sp| ==> r[k] == Span(sp[k].lo + d, sp[k].hi + d)
  {
    if sp == [] then [] else [Span(sp[0].lo + d, sp[0].hi + d)] + Shift(sp[1..], d)
  }

  /** Before a non-word character at m, a run ends where it ends in s[..m]. */
  lemma {:induction false} RunEndBefore(s: string, m: nat, i: nat)
    requires i <= m < |s| && !IsWordChar(s[m])
    ensures RunEnd(s, i) == RunEnd(s[..m], i)
    decreases m - i
  {
    if i < m && IsWordChar(s[i]) {
      RunEndBefore(s, m, i + 1);
    }
  }

  /** A run inside s[d..] ends d positions further on in s. */
  lemma {:induction false} RunEndAfter(s: string, d: nat, k: nat)
    requires d + k <= |s|
    ensures RunEnd(s, d + k) == d + RunEnd(s[d..], k)
    decreases |s| - d - k
  {
    if d + k < |s| && IsWordChar(s[d + k]) {
      RunEndAfter(s, d, k + 1);
    }
  }

  /**
   * Started before a non-word character at m, the scanner reports the spans
   * of s[..m] and then resumes after m.
   */
  lemma {:induction false} SpansFromBefore(s: string, m: nat, i: nat)
    requires i <= m < |s| && !IsWordChar(s[m])
    ensures SpansFrom(s, i) == SpansFrom(s[..m], i) + SpansFrom(s, m + 1)
    decreases m - i
  {
    if i < m {
      if !IsWordChar(s[i]) {
        SpansFromBefore(s, m, i + 1);
      } else {
        var j := RunEnd(s, i);
        RunEndBefore(s, m, i);
        SpansFromBefore(s, m, j);
        assert SpansFrom(s[..m], i) == [Span(i, j)] + SpansFrom(s[..m], j);
      }
    }
  }

  /** Shifting a span list with a first element shifts that element and the rest. */
  lemma ShiftCons(x: Span, rest: seq<Span>, d: nat)
    ensures Shift([x] + rest, d) == [Span(x.lo + d, x.hi + d)] + Shift(rest, d)
  {
    assert ([x] + rest)[1..] == rest;
  }

  /** The scanner started inside s[d..] reports the spans of s[d..], moved by d. */
  lemma {:induction false} SpansFromAfter(s: string, d: nat, k: nat)
    requires d + k <= |s|
    ensures SpansFrom(s, d + k) == Shift(SpansFrom(s[d..], k), d)
    decreases |s| - d - k
  {
    var t := s[d..];
    if d + k < |s| {
      assert t[k] == s[d + k];
      if !IsWordChar(s[d + k]) {
        SpansFromAfter(s, d, k + 1);
        assert SpansFrom(t, k) == SpansFrom(t, k + 1);
        assert SpansFrom(s, d + k) == SpansFrom(s, d + k + 1);
      } else {
        var j := RunEnd(t, k);
        RunEndAfter(s, d, k);
        SpansFromAfter(s, d, j);
        var rest := SpansFrom(t, j);
        assert SpansFrom(t, k) == [Span(k, j)] + rest;
        assert SpansFrom(s, d + k) == [Span(d + k, d + j)] + SpansFrom(s, d + j);
        ShiftCons(Span(k, j), rest, d);
      }
    }
  }

  /**
   * A non-word character at m splits the matches: those of the text before
   * it, then those of the text after it.
   */
  lemma SpansSplit(s: string, m: nat)
    requires m < |s| && !IsWordChar(s[m])
    ensures Spans(s) == Spans(s[..m]) + Shift(Spans(s[m + 1..]), m + 1)
  {
    SpansFromBefore(s, m, 0);
    SpansFromAfter(s, m + 1, 0);
  }

  /** Every span lies inside the text and is non-empty. */
  lemma SpansInBounds(s: string)
    ensures forall k :: 0 <= k < |Spans(s)| ==> Spans(s)[k].lo < Spans(s)[k].hi <= |s|
  {
    SpansSound(s);
  }

  /** A slice of a + [c] + b that ends within a is that slice of a. */
  lemma SliceBeforeSeparator(a: string, c: char, b: string, lo: nat, hi: nat)
    requires lo <= hi <= |a|
    ensures (a + [c] + b)[lo..hi] == a[lo..hi]
  {
  }

  /** A slice of a + [c] + b that starts after c is the matching slice of b. */
  lemma SliceAfterSeparator(a: string, c: char, b: string, lo: nat, hi: nat)
    requires lo <= hi <= |b|
    ensures (a + [c] + b)[lo + |a| + 1..hi + |a| + 1] == b[lo..hi]
  {
  }

  /**
   * Any non-word character separates tokens: the tokens of a + [c] + b are
   * the tokens of a followed by the tokens of b.
   */
  lemma TokensSplit(a: string, c: char, b: string)
    requires !IsWordChar(c)
    ensures Tokens(a + [c] + b) == Tokens(a) + Tokens(b)
  {
    var s, m := a + [c] + b, |a|;
    assert s[..m] == a && s[m + 1..] == b;
    SpansSplit(s, m);
    SpansInBounds(a);
    SpansInBounds(b);
    var sa, sb := Spans(a), Spans(b);
    var ts, ta, tb := Tokens(s), Tokens(a), Tokens(b);
    forall k | 0 <= k < |ts|
      ensures ts[k] == (ta + tb)[k]
    {
      if k < |sa| {
        SliceBeforeSeparator(a, c, b, sa[k].lo, sa[k].hi);
      } else {
        var sp := sb[k - |sa|];
        SliceAfterSeparator(a, c, b, sp.lo, sp.hi);
      }
    }
  }

  /** A non-empty text of word characters only is a single token. */
  lemma TokensOfWord(w: string)
    requires |w| > 0 && forall i :: 0 <= i < |w| ==> IsWordChar(w[i])
    ensures Tokens(w) == [w]
  {
    SpansFromRun(w, 0, |w|);
    assert w[0..|w|] == w;
  }

  /** Non-word characters in front of a text add no token. */
  lemma {:induction false} TokensAfterGap(g: string, x: string)
    requires forall i :: 0 <= i < |g| ==> !IsWordChar(g[i])
    ensures Tokens(g + x) == Tokens(x)
    decreases |g|
  {
    if g != [] {
      var empty: string := [];
      assert g + x == empty + [g[0]] + (g[1..] + x);
      TokensSplit(empty, g[0], g[1..] + x);
      assert Spans(empty) == [];
      assert Tokens(empty) == [];
      assert Tokens(g + x) == Tokens(g[1..] + x);
      TokensAfterGap(g[1..], x);
    } else {
      assert g + x == x;
    }
  }

  /** The text made of each word of ws followed by the separators in gaps at the same position. */
  function Joined(ws: seq<string>, gaps: seq<string>): string
    requires |ws| == |gaps|
  {
    if ws == [] then [] else ws[0] + gaps[0] + Joined(ws[1..], gaps[1..])
  }

  /**
   * Words of word characters separated by non-empty runs of other characters
   * tokenise back into exactly those words.
   */
  lemma {:induction false} TokensOfJoined(ws: seq<string>, gaps: seq<string>)
    requires |ws| == |gaps|
    requires forall k :: 0 <= k < |ws| ==> |ws[k]| > 0 && forall i :: 0 <= i < |ws[k]| ==> IsWordChar(ws[k][i])
    requires forall k :: 0 <= k < |gaps| ==> |gaps[k]| > 0 && forall i :: 0 <= i < |gaps[k]| ==> !IsWordChar(gaps[k][i])
    ensures Tokens(Joined(ws, gaps)) == ws
    decreases |ws|
  {
    if ws != [] {
      var w, g, rest := ws[0], gaps[0], Joined(ws[1..], gaps[1..]);
      TokensOfJoined(ws[1..], gaps[1..]);
      TokensAfterGap(g[1..], rest);
      assert w + g + rest == w + [g[0]] + (g[1..] + rest);
      TokensSplit(w, g[0], g[1..] + rest);
      TokensOfWord(w);
      assert ws == [w] + ws[1..];
    }
  }
}
