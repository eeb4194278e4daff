/**
 * Worked examples: concrete inputs from the test table of `run_tests` and
 * concrete paths for `load_data`, with what the model computes for them.
 * Each one is derived from the general contracts rather than by unfolding
 * the definitions on long literals.
 */
module WorkedExamples {
  import opened Options
  import opened Ascii
  import opened Tokenizer
  import opened Frequency
  import opened TextStats
  import opened DataLoader

  /** The empty text: no words, `(None, 0)` and `""`. */
  lemma EmptyTextExample()
    ensures AnalyzeText("") == Analysis(0, 0, Counter([], map[]), (None, 0), "")
  {
    NoWordsResult("");
  }

  lemma GoSpans()
    ensures Spans("go go go!") == [Span(0, 2), Span(3, 5), Span(6, 8)]
  {
  }

  lemma GoTokens()
    ensures Tokens("go go go!") == ["go", "go", "go"]
  {
    GoSpans();
    var l := "go go go!";
    assert l[0..2] == "go" && l[3..5] == "go" && l[6..8] == "go";
  }

  /** The words of "Go go go!" are three lowercase "go"s. */
  lemma GoWords()
    ensures Words("Go go go!") == ["go", "go", "go"]
  {
    assert LowerText("Go go go!") == "go go go!";
    GoTokens();
  }

  lemma GoKeys()
    ensures AnalyzeText("Go go go!").wordFrequency.counts.Keys == {"go"}
  {
    GoWords();
    FrequencyTableIsExact("Go go go!");
  }

  lemma GoCount()
    ensures Count(Words("Go go go!"), "go") == 3
  {
    GoWords();
    var ws: seq<string> := ["go", "go", "go"];
    assert Count(ws, "go") == 3;
  }

  /** "Go go go!" has three words but only one distinct word. */
  lemma GoGoGoCounts()
    ensures AnalyzeText("Go go go!").wordCount == 3
    ensures AnalyzeText("Go go go!").uniqueWords == 1
  {
    GoWords();
    GoKeys();
  }

  /** The most common word of "Go go go!" is "go", three times. */
  lemma GoGoGoMostCommon()
    ensures AnalyzeText("Go go go!").mostCommonWord == (Some("go"), 3)
  {
    GoWords();
    GoCount();
    MostCommonIsFirstMostFrequent("Go go go!");
  }

  /** The longest word of "Go go go!" is "go". */
  lemma GoGoGoLongest()
    ensures AnalyzeText("Go go go!").longestWord == "go"
  {
    GoWords();
    LongestIsFirstLongest(["go", "go", "go"], 0);
  }

  /** Words already in lower case are left as they are. */
  lemma LowercaseWords()
    ensures LowerText("simple") == "simple" && LowerText("quick") == "quick"
  {
  }

  /**
   * "This is a simple test. This test is simple.", written as its words, each
   * followed by the separators after it.
   */
  const SimpleTestText := Joined(
    ["This", "is", "a", "simple", "test", "This", "test", "is", "simple"],
    [" ", " ", " ", " ", ". ", " ", " ", " ", "."])

  lemma SimpleTestTokens()
    ensures Tokens(SimpleTestText) == ["This", "is", "a", "simple", "test", "This", "test", "is", "simple"]
  {
    TokensOfJoined(
      ["This", "is", "a", "simple", "test", "This", "test", "is", "simple"],
      [" ", " ", " ", " ", ". ", " ", " ", " ", "."]);
  }

  /** "This is a simple test. This test is simple." has nine words. */
  lemma SimpleTestWordCount()
    ensures AnalyzeText(SimpleTestText).wordCount == 9
  {
    SimpleTestTokens();
    WordsAreLoweredTokens(SimpleTestText);
  }

  lemma SimpleTestTokenListLongest()
    ensures Longest(["This", "is", "a", "simple", "test", "This", "test", "is", "simple"]) == "simple"
  {
    LongestIsFirstLongest(["This", "is", "a", "simple", "test", "This", "test", "is", "simple"], 3);
  }

  /** The longest word of "This is a simple test. This test is simple." is "simple". */
  lemma SimpleTestLongest()
    ensures AnalyzeText(SimpleTestText).longestWord == "simple"
  {
    SimpleTestTokens();
    SimpleTestTokenListLongest();
    LowercaseWords();
    LongestWordIsLongestToken(SimpleTestText);
  }

  /**
   * "The quick brown fox jumps over the lazy dog.", written as its words,
   * each followed by the separator after it.
   */
  const FoxText := Joined(
    ["The", "quick", "brown", "fox", "jumps", "over", "the", "lazy", "dog"],
    [" ", " ", " ", " ", " ", " ", " ", " ", "."])

  lemma FoxTokens()
    ensures Tokens(FoxText) == ["The", "quick", "brown", "fox", "jumps", "over", "the", "lazy", "dog"]
  {
    TokensOfJoined(
      ["The", "quick", "brown", "fox", "jumps", "over", "the", "lazy", "dog"],
      [" ", " ", " ", " ", " ", " ", " ", " ", "."]);
  }

  lemma FoxTokenListLongest()
    ensures Longest(["The", "quick", "brown", "fox", "jumps", "over", "the", "lazy", "dog"]) == "quick"
  {
    LongestIsFirstLongest(["The", "quick", "brown", "fox", "jumps", "over", "the", "lazy", "dog"], 1);
  }

  /**
   * The longest word of "The quick brown fox jumps over the lazy dog." is
   * "quick": "brown" and "jumps" have the same length but come later.
   */
  lemma FoxLongestExample()
    ensures AnalyzeText(FoxText).longestWord == "quick"
  {
    FoxTokens();
    FoxTokenListLongest();
    LowercaseWords();
    LongestWordIsLongestToken(FoxText);
  }

  /** A hyphen separates words. */
  lemma HyphenExample()
    ensures Tokens("another-one") == ["another", "one"]
  {
    var s := "another-one";
    assert Spans(s) == [Span(0, 7), Span(8, 11)];
    assert s[0..7] == "another" && s[8..11] == "one";
  }

  /** An upper-case extension after a directory selects the CSV reader. */
  lemma UpperCaseCsvExample()
    ensures SelectFormat("storms/Track.CSV") == Some(Csv)
  {
    var p := "storms/Track.CSV";
    assert p[6] == '/' && p[12] == '.';
    assert forall k :: 6 < k < |p| ==> p[k] != '/';
    assert forall k :: 12 < k < |p| ==> p[k] != '.';
    assert p[7] != '.';
    assert Extension(p) == ".CSV";
    assert LowerText(".CSV") == ".csv";
  }

  /** A file name that is only a leading dot and a suffix has no extension. */
  lemma DotFileExample()
    ensures SelectFormat("data/.csv") == None
  {
    var p := "data/.csv";
    assert p[4] == '/' && p[5] == '.';
    assert forall k :: 4 < k < |p| ==> p[k] != '/';
    assert forall k :: 5 < k < |p| ==> p[k] != '.';
  }

  /** Only the last suffix counts, in any case. */
  lemma LastSuffixExample()
    ensures SelectFormat("archive.tar.Nc4") == Some(NetCdf)
  {
    var p := "archive.tar.Nc4";
    assert p[11] == '.';
    assert forall k :: 0 <= k < |p| ==> p[k] != '/';
    assert forall k :: 11 < k < |p| ==> p[k] != '.';
    assert p[0] != '.';
    assert Extension(p) == ".Nc4";
    assert LowerText(".Nc4") == ".nc4";
  }

  /** A dot in a directory name is not an extension. */
  lemma DotInDirectoryExample()
    ensures SelectFormat("run.v2/readme") == None
  {
  }

  /** A file name made of dots and a suffix has no extension either. */
  lemma LeadingDotsExample()
    ensures SelectFormat("..hdf5") == None
  {
  }
}
