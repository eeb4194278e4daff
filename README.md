# Hurricane analyzer: text statistics and file-format dispatch

This project models, in Dafny, the two pieces of the repository that contain
logic of their own:

- `analyze_text` (`finalcoderoughdraft.py`) computes word statistics of a text.
  It lowercases the text and splits it into words with `re.findall(r'\b\w+\b', …)`.
  It counts the words into a `Counter`. It reports five things: the number
  of words, the number of distinct words, the `Counter` itself, the most
  common word with its count (`most_common(1)`) and the longest word
  (`max(words, key=len)`).
- `load_data` (`hurricane_analyzer/data_loader.py`) chooses a reader by the
  file name's extension. It rejects an argument that is not a string or
  that names no existing path. It takes the extension with
  `os.path.splitext` and lowercases it. It then dispatches on a closed table:
  `.csv` goes to the CSV reader, `.nc` and `.nc4` to the netCDF reader, and
  `.h5` and `.hdf5` to the HDF5 reader. Every failure returns `None`.

Both are pure: the model is datatypes, recursive functions and lemmas. The
modules are:

- `Ascii`: word characters and lowercasing.
- `Tokenizer`: the regex scanner, on spans of positions.
- `Selection`: Python's `max` with a key, which picks the first maximal item.
- `Frequency`: the `Counter`, as its keys in insertion order plus a map from
  key to count, with `most_common(1)`.
- `TextStats`: `analyze_text`.
- `DataLoader`: `load_data`.
- `WorkedExamples`: concrete inputs.

Characters are ASCII.

- A word character is a letter, a digit or `_`.
- Lowercasing maps `A`–`Z` to `a`–`z` and leaves everything else as it is.
- `os.path.splitext` follows its POSIX form: the separator is `/` and there is
  no alternative separator.

The two long sentences of the table are written in `WorkedExamples` as
`Joined(words, gaps)`: each word followed by the separators after it. That
spells out the same text, and `Tokenizer.TokensOfJoined` gives its tokens
without unfolding the scanner over the whole string.

Three things are parameters of `load_data`'s model:

- whether the argument is a string: the `PathArg` datatype;
- whether the path exists: a `bool`;
- the readers: a function from the chosen `Format` to an `Option` of the
  dataset. `None` stands for a reader that raised.

The table of worked examples in `run_tests` is printed, not asserted. Three
of its expected values disagree with what `analyze_text` computes. The model
follows the code in all three cases:

- For `"This is a simple test. This test is simple."` the table expects 8
  words. The text has nine maximal runs of word characters, so the code
  gives 9 (`WorkedExamples.SimpleTestWordCount`).
- For `"Go go go!"` the table expects 2 distinct words. After lowercasing
  there is only one, so the code gives 1 (`WorkedExamples.GoGoGoCounts`).
- For the "quick brown fox" sentence the table expects the longest word
  "jumps". `max` keeps the first of the five-letter words, so the code gives
  "quick" (`WorkedExamples.FoxLongestExample`).

## Model

| member | source | states |
|---|---|---|
| Ascii.Lower | finalcoderoughdraft.py:7 | Lowercasing maps an upper-case letter to its lower-case letter and fixes every other character. The result is never upper case, and it is a word character exactly when the input is. |
| Ascii.LowerText | finalcoderoughdraft.py:7 | `text.lower()` keeps the length and lowercases every character in place. |
| Ascii.LowerTextIdempotent | finalcoderoughdraft.py:7 | Lowercasing twice is lowercasing once. |
| Ascii.LowerTextSlice | finalcoderoughdraft.py:7 | Lowercasing a slice is slicing the lowercased text. |
| Tokenizer.SpansFrom | finalcoderoughdraft.py:7 | The scanner of `re.findall`: it skips a non-word character, and at a word character reports the whole run and resumes after it. `Tokenizer.SpansFromSound`, `Tokenizer.MaximalRunFound` and `Tokenizer.SpansAreMaximalRuns` state what it finds. |
| Tokenizer.Tokens | finalcoderoughdraft.py:7 | `re.findall(r'\b\w+\b', s)`: the text of every match, in order. `Tokenizer.TokensAreWords`, `Tokenizer.TokensSplit` and `Tokenizer.TokensOfJoined` state what the tokens are. |
| Tokenizer.SpansFromSound | finalcoderoughdraft.py:7 | Every span the scanner reports from a position is a run of word characters that ends at a non-word character or the end of the text. It starts after a non-word character unless it starts where the scan started. The spans come in increasing order with gaps. |
| Tokenizer.RunEnd | finalcoderoughdraft.py:7 | The greedy `\w+` run that starts at a position ends at the end of the text or just before a non-word character. |
| Tokenizer.RunEndAllWordChars | finalcoderoughdraft.py:7 | Everything the greedy run consumes is a word character. |
| Tokenizer.SpansSound | finalcoderoughdraft.py:7 | Every match of `\b\w+\b` is a maximal run of word characters: non-empty, all word characters, no word character on either side. The matches come left to right with a gap between consecutive ones. |
| Tokenizer.MaximalRunFound | finalcoderoughdraft.py:7 | The scanner started at or before a maximal run reports that run. |
| Tokenizer.SpansAreMaximalRuns | finalcoderoughdraft.py:7 | A range is a match if and only if it is a maximal run of word characters. |
| Tokenizer.TokensAreWords | finalcoderoughdraft.py:7 | Every token is non-empty and made only of word characters. |
| Tokenizer.NoTokensIffNoWordChars | finalcoderoughdraft.py:7 | There are no tokens exactly when the text has no word character. |
| Tokenizer.SpansFromIgnoreCase | finalcoderoughdraft.py:7 | The scanner finds the same matches in a text and in its lowercased form. |
| Tokenizer.RunEndIgnoresCase | finalcoderoughdraft.py:7 | Lowercasing does not move the end of a run. |
| Tokenizer.RunEndAt | finalcoderoughdraft.py:7 | A run of word characters followed by a non-word character or the end of the text ends exactly there. |
| Tokenizer.SpansFromRun | finalcoderoughdraft.py:7 | At the start of such a run the scanner reports exactly that run and resumes after it. |
| Tokenizer.RunEndBefore | finalcoderoughdraft.py:7 | Before a non-word character, a run ends where it ends in the text cut at that character. |
| Tokenizer.RunEndAfter | finalcoderoughdraft.py:7 | A run inside a suffix of the text ends at the same place, counted in the whole text. |
| Tokenizer.SpansFromBefore | finalcoderoughdraft.py:7 | Started before a non-word character, the scanner reports the matches of the text up to that character and then resumes after it. |
| Tokenizer.SpansFromAfter | finalcoderoughdraft.py:7 | Started inside a suffix, the scanner reports the matches of the suffix, moved by its offset. |
| Tokenizer.SpansSplit | finalcoderoughdraft.py:7 | A non-word character splits the matches into those before it and those after it, moved by the offset. |
| Tokenizer.TokensSplit | finalcoderoughdraft.py:7 | Any non-word character (a hyphen, punctuation, a space) separates tokens: the tokens of `a + [c] + b` are the tokens of `a` followed by the tokens of `b`. |
| Tokenizer.TokensOfWord | finalcoderoughdraft.py:7 | A non-empty text of word characters only is a single token. |
| Tokenizer.TokensAfterGap | finalcoderoughdraft.py:7 | Non-word characters in front of a text add no token. |
| Tokenizer.TokensOfJoined | finalcoderoughdraft.py:7 | Words of word characters, each followed by a non-empty run of other characters, tokenise back into exactly those words. |
| Selection.FirstMaxIndex | finalcoderoughdraft.py:20 | `max` picks a position whose key is at least every key, and every earlier key is strictly smaller: the first maximal item. |
| Selection.FirstMaxIndexUnique | finalcoderoughdraft.py:20 | Those two properties determine the position picked. |
| Frequency.Count | finalcoderoughdraft.py:10 | A word's count is at most the number of words, and it is positive exactly when the word occurs. |
| Frequency.CountIsMultiplicity | finalcoderoughdraft.py:10 | A word's count is its multiplicity in the multiset of words. |
| Frequency.Tally | finalcoderoughdraft.py:10 | `Counter(words)` has as keys exactly the distinct words, each mapped to its number of occurrences. Its keys are listed without duplicates, and there are at most as many as there are words. |
| Frequency.TallyOrderIsFirstOccurrence | finalcoderoughdraft.py:10 | The `Counter` lists its keys in the order of their first occurrence among the words. |
| Frequency.TallyTotal | finalcoderoughdraft.py:10 | The counts in the `Counter` add up to the number of words. |
| Frequency.MostCommon | finalcoderoughdraft.py:13-17 | `most_common(1)` is empty exactly when the `Counter` is. Otherwise it is a key with its count, that count is the largest, and no key with the same count comes earlier in the `Counter`'s order. |
| Frequency.KeyUpToFirstOccursFirst | finalcoderoughdraft.py:10-15 | In a key order that follows first occurrences, a key listed no later than another occurs first no later than it. |
| Frequency.MostCommonOfTally | finalcoderoughdraft.py:13-15 | On a non-empty list of words, `most_common(1)` of their `Counter` is a word with its number of occurrences, that number is the largest, and among the words with that number it is the one that occurs first. |
| TextStats.Longest | finalcoderoughdraft.py:20 | `max(words, key=len) if words else ""` is `""` for no words. Otherwise it is one of the words, at least as long as every word, and no word of the same length comes before it. |
| TextStats.LongestIsFirstLongest | finalcoderoughdraft.py:20 | Conversely, the first word of the greatest length is the one picked. |
| TextStats.Words | finalcoderoughdraft.py:7 | `re.findall(r'\b\w+\b', text.lower())`. `TextStats.WordsAreLoweredRuns` and `TextStats.WordsAreLoweredTokens` state what the words are. |
| TextStats.AnalyzeText | finalcoderoughdraft.py:5-28 | `word_count` is the number of tokens of the lowercased text. `unique_words` is the number of `Counter` keys and at most `word_count`. |
| TextStats.WordsAreLoweredRuns | finalcoderoughdraft.py:7 | The words are the maximal runs of word characters of the original text, in order, each lowercased. So each is non-empty and made of lower-case letters, digits and `_`, and any other character separates words. |
| TextStats.WordsAreLoweredTokens | finalcoderoughdraft.py:7 | The words are the tokens of the original text, one for one, each lowercased. |
| TextStats.LongestWordIsLongestToken | finalcoderoughdraft.py:7-20 | Lowercasing keeps lengths, so `longest_word` is the longest token of the original text (the first of its length), lowercased. |
| TextStats.FrequenciesSumToWordCount | finalcoderoughdraft.py:10-23 | The frequencies in `word_frequency` add up to `word_count`. |
| TextStats.FrequencyTableIsExact | finalcoderoughdraft.py:10-24 | The keys of `word_frequency` are exactly the words, each mapped to its number of occurrences (at least 1). `unique_words` is the number of keys and at most `word_count`. |
| TextStats.NoWordsResult | finalcoderoughdraft.py:13-20 | A text has no word character if and only if the result is 0 words, 0 distinct words, an empty `Counter`, `(None, 0)` and `""`. |
| TextStats.MostCommonIsFirstMostFrequent | finalcoderoughdraft.py:13-15 | When there is a word, `most_common_word` is a word with its number of occurrences, that number is the largest, and among equally frequent words it is the one that occurs first. |
| TextStats.CaseInsensitive | finalcoderoughdraft.py:7 | Texts that differ only in the case of their letters give the same result. |
| WorkedExamples.EmptyTextExample | finalcoderoughdraft.py:34 | `""` gives 0, 0, an empty `Counter`, `(None, 0)` and `""`. |
| WorkedExamples.GoTokens | finalcoderoughdraft.py:36 | The tokens of `"go go go!"` are three `"go"`s. |
| WorkedExamples.GoWords | finalcoderoughdraft.py:36 | The words of `"Go go go!"` are three `"go"`s. |
| WorkedExamples.GoGoGoCounts | finalcoderoughdraft.py:36 | `"Go go go!"` has 3 words and 1 distinct word. |
| WorkedExamples.GoGoGoMostCommon | finalcoderoughdraft.py:36 | The most common word of `"Go go go!"` is `("go", 3)`. |
| WorkedExamples.GoGoGoLongest | finalcoderoughdraft.py:36 | The longest word of `"Go go go!"` is `"go"`. |
| WorkedExamples.SimpleTestTokens | finalcoderoughdraft.py:32 | The tokens of `"This is a simple test. This test is simple."` are its nine words. |
| WorkedExamples.SimpleTestWordCount | finalcoderoughdraft.py:32 | `"This is a simple test. This test is simple."` has 9 words. |
| WorkedExamples.SimpleTestLongest | finalcoderoughdraft.py:32 | Its longest word is `"simple"`. |
| WorkedExamples.FoxTokens | finalcoderoughdraft.py:37 | The tokens of `"The quick brown fox jumps over the lazy dog."` are its nine words. |
| WorkedExamples.FoxLongestExample | finalcoderoughdraft.py:37 | The longest word of `"The quick brown fox jumps over the lazy dog."` is `"quick"`. |
| WorkedExamples.HyphenExample | finalcoderoughdraft.py:41 | A hyphen splits `"another-one"` into `"another"` and `"one"`. |
| DataLoader.SplitExt | hurricane_analyzer/data_loader.py:30 | `os.path.splitext` on POSIX. `DataLoader.SplitExtParts` and `DataLoader.ExtensionNonEmptyIff` state what it returns. |
| DataLoader.Extension | hurricane_analyzer/data_loader.py:30 | The extension part of `os.path.splitext`. `DataLoader.ExtensionNonEmptyIff` and `DataLoader.ExtensionIgnoresCase` state its properties. |
| DataLoader.FormatOf | hurricane_analyzer/data_loader.py:34-58 | The `if`/`elif` table on the lowercased extension. `DataLoader.DispatchTable` states it in both directions. |
| DataLoader.SelectFormat | hurricane_analyzer/data_loader.py:30-58 | The reader chosen for a path: the table applied to its lowercased extension. `DataLoader.SelectFormatIgnoresCase` states that case does not matter. |
| DataLoader.RFind | hurricane_analyzer/data_loader.py:30 | The position of the last occurrence of a character, or -1 when there is none. |
| DataLoader.SplitExtParts | hurricane_analyzer/data_loader.py:30 | `os.path.splitext` splits a path into a root and an extension that concatenate to the path. The extension is empty, or it is a dot followed by characters that are neither dots nor separators. |
| DataLoader.ExtensionNonEmptyIff | hurricane_analyzer/data_loader.py:30 | The extension is non-empty exactly when the final path component has a dot with a non-dot character before it in that component. So a name whose only dots are leading ones, such as `.csv`, has no extension. |
| DataLoader.RFindIgnoresCase | hurricane_analyzer/data_loader.py:30-31 | Lowercasing does not move the last `/` or the last `.`. |
| DataLoader.ExtensionIgnoresCase | hurricane_analyzer/data_loader.py:30-31 | The extension of the lowercased path is the lowercased extension. |
| DataLoader.SelectFormatIgnoresCase | hurricane_analyzer/data_loader.py:30-31 | Paths that differ only in the case of their letters select the same reader. |
| DataLoader.DispatchTable | hurricane_analyzer/data_loader.py:34-58 | `.csv` selects CSV, `.nc` and `.nc4` select netCDF, and `.h5` and `.hdf5` select HDF5, each in both directions. Every other extension, the empty one included, selects none. |
| DataLoader.Load | hurricane_analyzer/data_loader.py:25-62 | The outcome is "not found" exactly when the argument is not a string or the path does not exist. It is "unsupported" exactly when the path exists and its lowercased extension is outside the table, and it then carries that extension. A read failure or a load uses the format the extension selects, and the outcome is what that reader returned. |
| DataLoader.LoadData | hurricane_analyzer/data_loader.py:7-62 | `load_data` returns a dataset exactly when the load succeeds, and then it returns the dataset the reader produced. Otherwise it returns `None`. |
| DataLoader.MissingPathGivesNone | hurricane_analyzer/data_loader.py:25-27 | A non-string argument or a missing path gives `None`, whatever the readers would do. |
| DataLoader.UnsupportedGivesNone | hurricane_analyzer/data_loader.py:55-58 | An existing path with an unsupported extension gives `None`, whatever the readers would do. |
| DataLoader.ReaderOutcomeIsReturned | hurricane_analyzer/data_loader.py:33-62 | For a supported extension the result is exactly what the selected reader returns: its dataset, or `None` when it raised. |
| WorkedExamples.UpperCaseCsvExample | hurricane_analyzer/data_loader.py:30-39 | `storms/Track.CSV` selects the CSV reader. |
| WorkedExamples.DotFileExample | hurricane_analyzer/data_loader.py:30 | `data/.csv` has no extension and selects no reader. |
| WorkedExamples.LastSuffixExample | hurricane_analyzer/data_loader.py:30-46 | `archive.tar.Nc4` selects the netCDF reader: only the last suffix counts, in any case. |
| WorkedExamples.DotInDirectoryExample | hurricane_analyzer/data_loader.py:30 | A dot in a directory name (`run.v2/readme`) is not an extension. |
| WorkedExamples.LeadingDotsExample | hurricane_analyzer/data_loader.py:30 | `..hdf5` has no extension. |

## Left out

- Unicode: `\w` and `str.lower()` are modelled on ASCII only. Non-ASCII letters and digits are not word characters here, and no non-ASCII character is lowercased.
- All `print` output of `analyze_text`'s caller and of `load_data` is not modelled.
- Reading and decoding files is not modelled: pandas `read_csv`, `xr.Dataset.from_dataframe`, `xr.open_dataset` and CF scale/offset decoding. The readers are a parameter that returns the dataset or `None`.
- The file-system check `os.path.exists` is not modelled: its answer is a parameter.
- `os.path.splitext` on Windows (`ntpath`, with `\` and drive letters) is not modelled; the POSIX form is.
- `run_tests` only prints. Its table is used for concrete examples; not every row of it has one.
- The rest of the repository is not part of this model: `hurricane_analyzer/visualizer.py`, `hurricane-cli.py`, `examples/run_pie_chart_example.py` and `hurricane_analyzer/__init__.py`. They are plotting, command-line and demo code.
- TextStats.AnalyzeText: its own contract states only the counts. The `Counter`, most common word and longest word are stated by the `TextStats` lemmas and by `Frequency.Tally`, `Frequency.MostCommon` and `TextStats.Longest`.
