# Chinese character frequency analyzer, in Dafny

This project models the core of `CharFrequencyAnalyzer`, a tool that counts
how often each Chinese character occurs in a text (the original use is the
novel *Romance of the Three Kingdoms*). The pipeline has five steps:

- **Extraction** (`extract_chinese_chars`): keeps the characters of the CJK
  Unified Ideographs block U+4E00..U+9FFF, in text order. It then applies a
  punctuation filter for U+3000..U+303F and U+FF00..U+FFEF. The filter can
  never remove anything, because those ranges miss the ideograph block
  (`Extraction.PunctuationFilterIsNoOp`).
- **Counting** (`calculate_frequency`): a `collections.Counter` over the
  extracted characters. It is modelled as `Counts(keys, freq)`, where `keys`
  is the insertion order of the Python dictionary. When `min_frequency > 1`,
  only the entries whose count reaches the threshold are kept. The counting
  loop is the method `Counting.CountOccurrences`, proved equal to the
  function `Counting.Tally`.
- **Ranking** (`get_top_characters`): `Counter.most_common(n)`. This is a
  stable sort by count, largest first, followed by the first `n` entries.
  `n or top_n` turns a missing or zero `n` into the configured `top_n`.
- **Report** (`generate_analysis_report`): total and distinct counts, the
  coverage ratio, the maximum, minimum and mean count, and the top list.
  Ratios are exact rationals (`real`).
- **Orchestration** (`analyze`): the blank-text check, the extraction
  check, counting, the report, and the final top-1 lookup. The function
  `Analyzer.Analysis` gives the outcome as a `Result`. The class
  `Analyzer.CharFrequencyAnalyzer` keeps `char_counter` and
  `analysis_stats` as fields that its methods reassign. The methods are
  proved to agree with the functions.

`Scenarios` works through concrete texts: a run of three, two and one
ideograph, a Latin text, a blank text, and thresholds that drop entries.

Where the code and its description differ, the model follows the code:

- `most_common(n)` with a negative `n` returns nothing, not every entry.
  With `n == 0`, `n or top_n` substitutes `top_n`.
- The coverage ratio is 0 exactly when there are no characters, *or* when
  `min_frequency` filtered out every entry
  (`Reporting.CoverageRatioBounds`).
- The counts add up to the number of characters only without a threshold
  (`Counting.CalculateFrequencySum` requires `m <= 1`).
- `analyze` raises a third error, `IndexError` at
  `get_top_characters(1)[0]`. This happens when the threshold leaves the
  counter empty. By then the counter and the report have already been
  stored. The model names this error `NoTopCharacter`.

## Model

| member | source | states |
|---|---|---|
| Extraction.IsIdeograph | src/char_frequency_analyzer.py:131 | the regex class `[一-鿿]`: the code points U+4E00..U+9FFF; `IdeographsAreNotPunctuation` and `FindIdeographsSingle` relate it to the other class and to the scan |
| Extraction.IsCjkPunctuation | src/char_frequency_analyzer.py:137 | the regex class `[　-〿＀-￯]`: U+3000..U+303F and U+FF00..U+FFEF, disjoint from the ideographs (`IdeographsAreNotPunctuation`) |
| Extraction.FindIdeographs | src/char_frequency_analyzer.py:130-132 | every character `re.findall` returns lies in U+4E00..U+9FFF, and there are no more of them than characters in the text |
| Extraction.DropPunctuation | src/char_frequency_analyzer.py:134-139 | the comprehension keeps only characters outside the punctuation class, each taken from its input, and keeps every such character as often as it occurs |
| Extraction.ExtractChineseChars | src/char_frequency_analyzer.py:126-143 | every extracted character is an ideograph, whatever `exclude_punctuation` says |
| Extraction.FindIdeographsConcat | src/char_frequency_analyzer.py:130-132 | the scan distributes over concatenation, so it is a per-character filter |
| Extraction.FindIdeographsSingle | src/char_frequency_analyzer.py:130-132 | a single character is kept exactly when it is an ideograph |
| Extraction.FindIdeographsCounts | src/char_frequency_analyzer.py:130-132 | each ideograph is extracted as often as it occurs in the text; any other character never is |
| Extraction.FindIdeographsSubsequence | src/char_frequency_analyzer.py:130-132 | the extracted characters are read off the text at strictly increasing positions, so source order is kept |
| Extraction.FindIdeographsOfIdeographs | src/char_frequency_analyzer.py:130-132 | a text made only of ideographs is extracted unchanged |
| Extraction.IdeographsAreNotPunctuation | src/char_frequency_analyzer.py:131-137 | no ideograph lies in the punctuation ranges |
| Extraction.DropPunctuationKeepsIdeographs | src/char_frequency_analyzer.py:135-139 | the punctuation filter leaves a sequence of ideographs unchanged |
| Extraction.PunctuationFilterIsNoOp | src/char_frequency_analyzer.py:134-139 | extraction gives the same result with `exclude_punctuation` true or false |
| Extraction.ExtractIdempotent | src/char_frequency_analyzer.py:126-143 | extracting again from the extracted characters changes nothing |
| Counting.ItemsOf | src/char_frequency_analyzer.py:154 | `items()` (`Counts.Items` calls it): each key with its count, in insertion order, one pair per key |
| Counting.ValuesAreCounts | src/char_frequency_analyzer.py:176 | `values()` (`Counts.Values`) holds exactly the counts the counter stores: every key's count appears, and nothing else does |
| Counting.Occurrences | src/char_frequency_analyzer.py:150 | the count map of `Counter(chars)`: each character of the input maps to its number of occurrences and nothing else is a key; `OccurrencesSnoc` gives the step the counting loop takes |
| Counting.Sum | src/char_frequency_analyzer.py:187 | `sum(frequencies)`; `SumSnoc` and `SumUpdate` state how it changes when a count is appended or bumped, and `TallySum` that over `Counter(chars)` it is `len(chars)` |
| Counting.Distinct | src/char_frequency_analyzer.py:150 | the counter's keys contain no duplicates, and are exactly the characters of the input |
| Counting.Tally | src/char_frequency_analyzer.py:150 | `Counter(chars)` is a well-formed counter: one count per key, no other entries |
| Counting.CountOccurrences | src/char_frequency_analyzer.py:150 | the counting loop builds exactly `Tally(chars)` |
| Counting.OccurrencesSnoc | src/char_frequency_analyzer.py:150 | counting one more character increments its count and leaves every other count alone |
| Counting.KeepAtLeast | src/char_frequency_analyzer.py:153-156 | the filtered keys are exactly the keys whose count reaches the threshold, without duplicates |
| Counting.FilterAtLeast | src/char_frequency_analyzer.py:152-157 | the filtered counter is well formed, keeps exactly the entries reaching the threshold, and leaves their counts unchanged |
| Counting.CalculateFrequency | src/char_frequency_analyzer.py:146-162 | the counter left in `char_counter` is well formed |
| Counting.CalculateFrequencyCounts | src/char_frequency_analyzer.py:150-157 | a character is a key exactly when it occurs at least `min_frequency` times, and its value is its number of occurrences |
| Counting.CalculateFrequencyItems | src/char_frequency_analyzer.py:150-157 | the entries are those of `Counter(chars)` that reach the threshold, unchanged and in their original order |
| Counting.CalculateFrequencyFirstOccurrence | src/char_frequency_analyzer.py:150-157 | the keys are ordered by the first occurrence of each character in the input |
| Counting.CalculateFrequencySum | src/char_frequency_analyzer.py:150 | with `min_frequency <= 1` the counts add up to `len(chars)` |
| Counting.TallyFirstOccurrenceOrder | src/char_frequency_analyzer.py:150 | `Counter` inserts keys in order of first occurrence |
| Counting.TallySum | src/char_frequency_analyzer.py:150 | the counts of `Counter(chars)` add up to `len(chars)` |
| Counting.FilterAtLeastItems | src/char_frequency_analyzer.py:153-156 | filtering keeps the surviving `(char, count)` pairs in their original order |
| Counting.KeepAtLeastAll | src/char_frequency_analyzer.py:153-156 | when every count reaches the threshold, filtering keeps every key in place |
| Counting.FilterAtMostOneIsIdentity | src/char_frequency_analyzer.py:152 | the `min_frequency > 1` guard only saves work: filtering at a threshold of 1 or less changes nothing |
| Counting.KeepAtLeastOrder | src/char_frequency_analyzer.py:153-156 | filtering keeps the first-occurrence order of the keys |
| Ranking.Insert | src/char_frequency_analyzer.py:167 | insertion adds exactly one entry and loses none |
| Ranking.SortByCount | src/char_frequency_analyzer.py:167 | the sort orders counts from largest to smallest and is a permutation of its input |
| Ranking.InsertSorted | src/char_frequency_analyzer.py:167 | inserting into a sequence sorted by count keeps it sorted |
| Ranking.SortByCountStable | src/char_frequency_analyzer.py:167 | for each count, the entries with that count keep their original order |
| Ranking.SortedStableIsUnique | src/char_frequency_analyzer.py:167 | two descending orders of the same entries that agree within each count are equal |
| Ranking.StableSortIsSortByCount | src/char_frequency_analyzer.py:167 | any stable descending sort of the entries is the one `SortByCount` computes |
| Ranking.MostCommon | src/char_frequency_analyzer.py:167 | `most_common(n)` has `min(n, len)` entries for `n > 0` and none for `n <= 0` |
| Ranking.MostCommonFromItems | src/char_frequency_analyzer.py:167 | every entry `most_common` returns comes from the counter |
| Ranking.MostCommonSorted | src/char_frequency_analyzer.py:167 | `most_common` lists counts from largest to smallest |
| Ranking.MostCommonSubMultiset | src/char_frequency_analyzer.py:167 | `most_common` returns each entry at most as often as the counter holds it |
| Ranking.MostCommonIsTop | src/char_frequency_analyzer.py:167 | no entry left out of `most_common` has a larger count than one taken |
| Ranking.MostCommonHeadIsMax | src/char_frequency_analyzer.py:167 | for `n > 0` on a non-empty counter, the first entry has the largest count |
| Ranking.MostCommonTiesInOrder | src/char_frequency_analyzer.py:167 | ties are broken by insertion order: for each count, the taken entries are the earliest ones with that count |
| Ranking.RequestedCount | src/char_frequency_analyzer.py:166 | `n or top_n`: a non-zero `n` is used as given, and a missing or zero `n` becomes `top_n` |
| Ranking.TopCharacters | src/char_frequency_analyzer.py:164-167 | every returned pair is a key of the counter with its count, and the length is `min(k, unique)` for the requested `k > 0`, else 0 |
| Reporting.MaxOf | src/char_frequency_analyzer.py:185 | the maximum is one of the counts and bounds all of them, and it is 0 when there are none |
| Reporting.MinOf | src/char_frequency_analyzer.py:186 | the minimum is one of the counts and is below all of them, and it is 0 when there are none |
| Reporting.MeanOf | src/char_frequency_analyzer.py:187 | the mean lies between the minimum and the maximum, and it is 0 when there are no counts |
| Reporting.CoverageRatio | src/char_frequency_analyzer.py:182 | the ratio is 0 for no characters; for `unique <= total` it lies in [0, 1] and is 0 exactly when one side is 0 |
| Reporting.BuildReport | src/char_frequency_analyzer.py:169-194 | the report's total is `len(chars)`, its distinct count is `len(char_counter)`, its top list is `get_top_characters()`, and it carries the given time |
| Reporting.UniqueCount | src/char_frequency_analyzer.py:172 | `len(char_counter)` equals the number of keys |
| Reporting.CoverageRatioBounds | src/char_frequency_analyzer.py:178-183 | the coverage ratio lies in [0, 1] and is 0 exactly when there are no characters or the threshold emptied the counter; without a threshold, exactly when there are no characters |
| Reporting.FrequencyStatsBounds | src/char_frequency_analyzer.py:184-188 | all zero on an empty counter; otherwise max and min are counts of keys, every count lies between them, min is at least 1 and at least `min_frequency`, and min <= avg <= max |
| Reporting.MeanIsTotalOverUnique | src/char_frequency_analyzer.py:178-188 | without a threshold, coverage is `unique / total` and the mean count is `total / unique` |
| Reporting.TopEntryHasMaxFrequency | src/char_frequency_analyzer.py:173-189 | when `top_n` asks for anything and the counter is not empty, the first top entry's count is the report's maximum frequency |
| Reporting.TopHeadIsMax | src/char_frequency_analyzer.py:164-167 | on a non-empty counter the top list opens with the largest count |
| Analyzer.IsSpace | src/char_frequency_analyzer.py:275 | the code points Python's `str.isspace` accepts, which `strip()` removes; `ExtractedTextIsNotBlank` shows no ideograph is among them |
| Analyzer.Strip | src/char_frequency_analyzer.py:275 | `text.strip()`: `StripLeading` then `StripTrailing`; `StripEmptyIffBlank` states it is empty exactly for all-whitespace text |
| Analyzer.Analysis | src/char_frequency_analyzer.py:267-306 | `analyze` over a loaded text, as a `Result`; `AnalysisOutcome` states when each error and success occurs, `AnalysisSuccessUnfold` what a success returns |
| Analyzer.StripLeading | src/char_frequency_analyzer.py:275 | `lstrip()` removes exactly a leading run of whitespace |
| Analyzer.StripTrailing | src/char_frequency_analyzer.py:275 | `rstrip()` removes exactly a trailing run of whitespace |
| Analyzer.StripEmptyIffBlank | src/char_frequency_analyzer.py:275-276 | `not text.strip()` holds exactly when every character is whitespace |
| Analyzer.ExtractEmptyIffNoIdeograph | src/char_frequency_analyzer.py:279-281 | extraction yields nothing exactly when no character is an ideograph |
| Analyzer.AnalysisOutcome | src/char_frequency_analyzer.py:267-306 | `analyze` fails on a blank text, fails when no ideograph is found, fails at the top-1 lookup when no character reaches `min_frequency`, and succeeds otherwise; each case holds in both directions |
| Analyzer.NoTopIffNoneFrequent | src/char_frequency_analyzer.py:299 | `get_top_characters(1)` is empty exactly when no character reaches `min_frequency` |
| Analyzer.AnalysisSuccessUnfold | src/char_frequency_analyzer.py:284-302 | a successful analysis returns the report over the extracted characters and a non-empty counter |
| Analyzer.AnalysisSuccessReport | src/char_frequency_analyzer.py:284-302 | a successful report has a positive total and distinct count, a coverage ratio in (0, 1], 1 <= min <= max, and a top list headed by the maximum count |
| Analyzer.ReportOverNonEmptyCounter | src/char_frequency_analyzer.py:169-194 | a report over a non-empty counter has the bounds listed for a successful analysis |
| Analyzer.ExtractedTextIsNotBlank | src/char_frequency_analyzer.py:275-281 | a non-empty text of ideographs passes the blank check |
| Analyzer.AnalysisOfExtractedText | src/char_frequency_analyzer.py:279-302 | analyzing the extracted characters again gives the same outcome as analyzing the text |
| Analyzer.SameExtractionSameAnalysis | src/char_frequency_analyzer.py:279-302 | past the blank check, the outcome depends only on the extracted characters |
| Analyzer.CharFrequencyAnalyzer.constructor | src/char_frequency_analyzer.py:40-44 | a missing configuration means the defaults; the counter starts empty and there is no report yet |
| Analyzer.CharFrequencyAnalyzer.CalculateFrequency | src/char_frequency_analyzer.py:146-162 | `char_counter` becomes the counter of the characters at the configured threshold, the returned dictionary is a copy of it with the same key order, and the report is untouched |
| Analyzer.CharFrequencyAnalyzer.GetTopCharacters | src/char_frequency_analyzer.py:164-167 | entries of the counter with their counts, sorted by count, `min(k, unique)` of them, none left out outranking one taken |
| Analyzer.CharFrequencyAnalyzer.GenerateAnalysisReport | src/char_frequency_analyzer.py:169-194 | the report is built from the current counter, `analysis_stats` becomes it, and the counter is unchanged |
| Analyzer.CharFrequencyAnalyzer.Analyze | src/char_frequency_analyzer.py:267-306 | the outcome is `Analysis(text)`; the two early failures leave the fields alone; otherwise the counter and the report are replaced, even when the top-1 lookup then fails; on success `analysis_stats` is the returned report |
| Analyzer.AnalyzeTwice | src/char_frequency_analyzer.py:267-306 | running `analyze` twice on the same text gives the same outcome, and the second run leaves `char_counter` and `analysis_stats` as the first run left them |
| Scenarios.ThreeTwoOne | src/char_frequency_analyzer.py:267-306 | "三三三二二一" yields total 6, unique 3, coverage 0.5, max 3, min 1, mean 2, and the top list 三:3, 二:2, 一:1 |
| Scenarios.RunsAnalysis | src/char_frequency_analyzer.py:267-306 | the same report for any text `aaabbc` of distinct ideographs |
| Scenarios.NoIdeographs | src/char_frequency_analyzer.py:279-281 | "hello 123" fails because no ideograph is found |
| Scenarios.NoIdeographFails | src/char_frequency_analyzer.py:275-281 | any text that is not all whitespace and has no ideograph fails that way |
| Scenarios.OnlyWhitespace | src/char_frequency_analyzer.py:275-276 | spaces, a tab, a newline and an ideographic space fail the blank check |
| Scenarios.BlankTextFails | src/char_frequency_analyzer.py:275-276 | any all-whitespace text fails the blank check |
| Scenarios.AboveEveryCount | src/char_frequency_analyzer.py:299 | with `min_frequency` 4, "三三三二二一" fails at the top-1 lookup |
| Scenarios.RunsAboveEveryCount | src/char_frequency_analyzer.py:299 | any `aaabbc` of distinct ideographs fails at the top-1 lookup when the threshold exceeds 3, whatever `exclude_punctuation` says |
| Scenarios.ThresholdDropsRare | src/char_frequency_analyzer.py:152-157 | threshold 2 on counts {a: 1, b: 2, c: 3} leaves {b: 2, c: 3} |

## Left out

- File loading and encoding detection (`detect_encoding`, `load_text_file`, `_load_large_file`): filesystem reads, the `chardet` library and Python codecs. `analyze` takes the text itself, so the file-not-found and unreadable-file errors and the chunked-loading path are not modelled.
- `save_results` and `generate_visualization`: JSON, CSV and chart output. The `save_results`, `generate_charts` and `chunk_size` settings are kept in `AnalysisConfig` but steer nothing in the model.
- Logging and timing. The `analysis_time` stamp from `time.strftime` is a parameter supplied by the caller.
- Floating point: `coverage_ratio` and `avg_frequency` are exact `real` values, so IEEE rounding is not modelled.
- Python strings may hold lone surrogate code points (U+D800..U+DFFF). Dafny's `char` cannot, so texts containing them are outside the model. They are neither ideographs nor whitespace.
- Exceptions are modelled as `Failure` values. The logging done before re-raising is left out.
- The Flask web layer, the launcher script, the quick-test script and the `__main__` demo block are outside the core.
