/**
 * `analyze_text`: word statistics of a text.
 *
 * The text is lowercased and split into words (the maximal runs of word
 * characters); the words are counted into a Counter; the result reports the
 * number of words, the number of distinct words, the Counter, the most common
 * word with its count, and the longest word.
 */
module TextStats {
  import opened Options
  import opened Ascii
  import opened Tokenizer
  import opened Selection
  import opened Frequency

  /** The dict `analyze_text` returns, one field per key. */
  datatype Analysis = Analysis(
    wordCount: nat,
    uniqueWords: nat,
    wordFrequency: Counter<string>,
    mostCommonWord: (Option<string>, nat),
    longestWord: string)

  /** `re.findall(r'\b\w+\b', text.lower())`. */
  function Words(text: string): seq<string> {
    Tokens(LowerText(text))
  }

  /** The length of every word, in order: the keys `max(..., key=len)` compares. */
  function Lengths(ws: seq<string>): (v: seq<nat>)
    ensures |v| == |ws|
    ensures forall i :: 0 <= i < |ws| ==> v[i] == |ws[i]|
  {
    seq(|ws|, i requires 0 <= i < |ws| => |ws[i]|)
  }

  /**
   * `max(words, key=len) if words else ""`: a longest word, and among the
   * longest words the one that comes first.
   */
  function Longest(ws: seq<string>): (w: string)
    ensures ws == [] ==> w == ""
    ensures ws != [] ==> w in ws
    ensures forall u :: u in ws ==> |u| <= |w|
    ensures forall j :: 0 <= j < |ws| && |ws[j]| == |w| ==> w in ws[..j + 1]
  {
    if ws == [] then ""
    else
      var k := FirstMaxIndex(Lengths(ws));
      assert ws[k] in ws[..k + 1];
      ws[k]
  }

  /**
   * The converse of `Longest`'s contract: a word that is at least as long as
   * every word and strictly longer than every word before it is the one
   * `Longest` picks.
   */
  lemma LongestIsFirstLongest(ws: seq<string>, k: nat)
    requires k < |ws|
    requires forall j :: 0 <= j < |ws| ==> |ws[j]| <= |ws[k]|
    requires forall j :: 0 <= j < k ==> |ws[j]| < |ws[k]|
    ensures Longest(ws) == ws[k]
  {
    FirstMaxIndexUnique(Lengths(ws), k);
  }

  /** `analyze_text(text)`. */
  function AnalyzeText(text: string): (r: Analysis)
    ensures r.wordCount == |Words(text)|
    ensures r.uniqueWords == |r.wordFrequency.order| <= r.wordCount
  {
    var words := Words(text);
    var freq := Tally(words);
    var top := MostCommon(freq);
    Analysis(
      |words|,
      |freq.counts|,
      freq,
      if top.Some? then (Some(top.value.0), top.value.1) else (None, 0),
      Longest(words))
  }

  /**
   * The words are the maximal runs of word characters of the original text,
   * in order, each lowercased: so each is non-empty and made of lowercase
   * letters, digits and `_`, and any other character (a hyphen, punctuation,
   * a space) separates words.
   */
  lemma WordsAreLoweredRuns(text: string)
    ensures |Words(text)| == |Spans(text)|
    ensures forall k :: 0 <= k < |Spans(text)| ==>
      IsMaximalRun(text, Spans(text)[k].lo, Spans(text)[k].hi)
      && Words(text)[k] == LowerText(text[Spans(text)[k].lo..Spans(text)[k].hi])
    ensures forall w :: w in Words(text) ==>
      |w| > 0 && forall c :: c in w ==> IsWordChar(c) && !IsUpper(c)
  {
    SpansFromIgnoreCase(text, 0);
    SpansSound(text);
    var sp := Spans(text);
    forall k | 0 <= k < |sp|
      ensures Words(text)[k] == LowerText(text[sp[k].lo..sp[k].hi])
    {
      LowerTextSlice(text, sp[k].lo, sp[k].hi);
    }
    TokensAreWords(LowerText(text));
  }

  /** The words are the tokens of the original text, each lowercased. */
  lemma WordsAreLoweredTokens(text: string)
    ensures |Words(text)| == |Tokens(text)|
    ensures forall k :: 0 <= k < |Tokens(text)| ==> Words(text)[k] == LowerText(Tokens(text)[k])
  {
    WordsAreLoweredRuns(text);
    SpansSound(text);
  }

  /**
   * Lowercasing keeps lengths, so the longest word is the longest token of
   * the original text, lowercased.
   */
  lemma LongestWordIsLongestToken(text: string)
    ensures AnalyzeText(text).longestWord == LowerText(Longest(Tokens(text)))
  {
    WordsAreLoweredTokens(text);
    var ws, ts := Words(text), Tokens(text);
    if ts != [] {
      assert Lengths(ws) == Lengths(ts);
    }
  }

  /** The frequencies in the Counter add up to the word count. */
  lemma FrequenciesSumToWordCount(text: string)
    ensures SumCounts(AnalyzeText(text).wordFrequency.order, AnalyzeText(text).wordFrequency.counts)
         == AnalyzeText(text).wordCount
  {
    TallyTotal(Words(text));
  }

  /**
   * The Counter's keys are exactly the distinct words, each with its number
   * of occurrences (so at least 1), and `unique_words` is the number of keys,
   * at most the word count.
   */
  lemma FrequencyTableIsExact(text: string)
    ensures forall w :: w in AnalyzeText(text).wordFrequency.counts <==> w in Words(text)
    ensures forall w :: w in AnalyzeText(text).wordFrequency.counts ==>
      1 <= AnalyzeText(text).wordFrequency.counts[w] == Count(Words(text), w)
    ensures AnalyzeText(text).uniqueWords == |AnalyzeText(text).wordFrequency.counts|
         <= AnalyzeText(text).wordCount
  {
  }

  /**
   * A text without word characters (the empty text, say) gives no words, no
   * distinct words, `(None, 0)` as the most common word and `""` as the
   * longest; any text with a word character gives at least one word.
   */
  lemma NoWordsResult(text: string)
    ensures (forall p :: 0 <= p < |text| ==> !IsWordChar(text[p]))
        <==> AnalyzeText(text) == Analysis(0, 0, Counter([], map[]), (None, 0), "")
  {
    NoTokensIffNoWordChars(LowerText(text));
    var r := AnalyzeText(text);
    if forall p :: 0 <= p < |text| ==> !IsWordChar(text[p]) {
      assert forall p :: 0 <= p < |text| ==> !IsWordChar(LowerText(text)[p]);
      assert Words(text) == [];
      assert Tally(Words(text)) == Counter([], map[]);
    }
    if r.wordCount == 0 {
      assert forall p :: 0 <= p < |text| ==> !IsWordChar(LowerText(text)[p]);
    }
  }

  /**
   * When there is a word, the most common word is a word whose count is the
   * largest, reported with that count; of the words with that count it is
   * the one that occurs first in the text.
   */
  lemma MostCommonIsFirstMostFrequent(text: string)
    requires AnalyzeText(text).wordCount > 0
    ensures AnalyzeText(text).mostCommonWord.0.Some?
    ensures var (w, n) := (AnalyzeText(text).mostCommonWord.0.value, AnalyzeText(text).mostCommonWord.1);
      && w in Words(text)
      && n == Count(Words(text), w)
      && (forall u :: u in Words(text) ==> Count(Words(text), u) <= n)
      && (forall u :: u in Words(text) && Count(Words(text), u) == n ==>
            FirstIndex(Words(text), w) <= FirstIndex(Words(text), u))
  {
    MostCommonOfTally(Words(text));
  }

  /**
   * Texts that differ only in the case of their letters give the same
   * result.
   */
  lemma CaseInsensitive(a: string, b: string)
    requires |a| == |b|
    requires forall i :: 0 <= i < |a| ==> Lower(a[i]) == Lower(b[i])
    ensures AnalyzeText(a) == AnalyzeText(b)
  {
    assert LowerText(a) == LowerText(b);
  }
}
