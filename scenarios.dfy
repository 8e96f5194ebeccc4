/**
 * Worked examples of `analyze` on small texts under the default
 * configuration, proved for any characters of the right kind and then
 * instantiated on concrete strings.
 */
module Scenarios {
  import opened Wrappers
  import opened Extraction
  import opened Counting
  import opened Ranking
  import opened Reporting
  import opened Analyzer

  /** "三三三二二一": six characters, three distinct, ranked three, two, one. */
  lemma ThreeTwoOne(analysisTime: string)
    ensures Analysis("三三三二二一", DefaultConfig, analysisTime) ==
            Success(Report(
              BasicStats(6, 3, 0.5),
              FrequencyStats(3, 1, 2.0),
              [('三', 3), ('二', 2), ('一', 1)],
              analysisTime))
  {
    RunsAnalysis("三三三二二一", '三', '二', '一', analysisTime);
  }

  /** Latin letters, digits and spaces hold no ideograph. */
  lemma NoIdeographs(analysisTime: string)
    ensures Analysis("hello 123", DefaultConfig, analysisTime) == Failure(NoChineseCharacters)
  {
    var text := "hello 123";
    assert forall i :: 0 <= i < |text| ==> text[i] < '\U{4E00}';
    assert !IsSpace(text[0]);
    NoIdeographFails(text, DefaultConfig, analysisTime);
  }

  lemma NoIdeographFails(text: string, config: AnalysisConfig, analysisTime: string)
    requires exists i :: 0 <= i < |text| && !IsSpace(text[i])
    requires forall i :: 0 <= i < |text| ==> !IsIdeograph(text[i])
    ensures Analysis(text, config, analysisTime) == Failure(NoChineseCharacters)
  {
    AnalysisOutcome(text, config, analysisTime);
  }

  /** Spaces, a tab, a newline and an ideographic space strip to nothing. */
  lemma OnlyWhitespace(analysisTime: string)
    ensures Analysis(" \t\n\U{3000}", DefaultConfig, analysisTime) == Failure(EmptyText)
  {
    var text := " \t\n\U{3000}";
    assert forall i :: 0 <= i < |text| ==> IsSpace(text[i]);
    BlankTextFails(text, DefaultConfig, analysisTime);
  }

  lemma BlankTextFails(text: string, config: AnalysisConfig, analysisTime: string)
    requires forall i :: 0 <= i < |text| ==> IsSpace(text[i])
    ensures Analysis(text, config, analysisTime) == Failure(EmptyText)
  {
    AnalysisOutcome(text, config, analysisTime);
  }

  /** With `min_frequency` 4 no character of "三三三二二一" survives, so the top-1 lookup fails. */
  lemma AboveEveryCount(analysisTime: string)
    ensures Analysis("三三三二二一", DefaultConfig.(minFrequency := 4), analysisTime) == Failure(NoTopCharacter)
  {
    RunsAboveEveryCount("三三三二二一", '三', '二', '一', DefaultConfig.(minFrequency := 4), analysisTime);
  }

  lemma RunsAboveEveryCount(s: string, a: char, b: char, c: char, config: AnalysisConfig, analysisTime: string)
    requires IsIdeograph(a) && IsIdeograph(b) && IsIdeograph(c)
    requires a != b && b != c && a != c
    requires s == [a, a, a, b, b, c]
    requires config.minFrequency > 3
    ensures Analysis(s, config, analysisTime) == Failure(NoTopCharacter)
  {
    RunsAboveEveryCountFiltered(s, a, b, c, config.(excludePunctuation := true), analysisTime);
    PunctuationFilterIsNoOp(s);
  }

  lemma RunsAboveEveryCountFiltered(s: string, a: char, b: char, c: char, config: AnalysisConfig, analysisTime: string)
    requires IsIdeograph(a) && IsIdeograph(b) && IsIdeograph(c)
    requires a != b && b != c && a != c
    requires s == [a, a, a, b, b, c]
    requires config.excludePunctuation && config.minFrequency > 3
    ensures Analysis(s, config, analysisTime) == Failure(NoTopCharacter)
  {
    RunsExtract(s, a, b, c);
    RunsOccurrences(s, a, b, c);
    NoTopIffNoneFrequent(s, config.minFrequency, config.topN);
    assert TopCharacters(CalculateFrequency(s, config.minFrequency), Some(1), config.topN) == [];
  }

  /** `min_frequency` 2 on the counts {a: 1, b: 2, c: 3} drops `a` and keeps the rest as they were. */
  lemma ThresholdDropsRare(a: char, b: char, c: char)
    requires a != b && b != c && a != c
    ensures FilterAtLeast(Counts([a, b, c], map[a := 1, b := 2, c := 3]), 2) ==
            Counts([b, c], map[b := 2, c := 3])
  {
    var freq := map[a := 1, b := 2, c := 3];
    KeepAtLeastTwo(a, b, c, freq);
    FilteredMap(a, b, c, freq);
  }

  lemma KeepAtLeastTwo(a: char, b: char, c: char, freq: map<char, nat>)
    requires a in freq && b in freq && c in freq
    requires freq[a] < 2 && freq[b] >= 2 && freq[c] >= 2
    ensures KeepAtLeast([a, b, c], freq, 2) == [b, c]
  {
    assert [a, b, c][1..] == [b, c] && [b, c][1..] == [c] && [c][1..] == [];
  }

  lemma FilteredMap(a: char, b: char, c: char, freq: map<char, nat>)
    requires a != b && b != c && a != c
    requires freq == map[a := 1, b := 2, c := 3]
    ensures (map k | k in freq && freq[k] >= 2 :: freq[k]) == map[b := 2, c := 3]
  {
    var m := map k | k in freq && freq[k] >= 2 :: freq[k];
    assert m.Keys == {b, c};
  }

  /** `aaabbc` for distinct ideographs `a`, `b`, `c`. */
  lemma RunsAnalysis(s: string, a: char, b: char, c: char, analysisTime: string)
    requires IsIdeograph(a) && IsIdeograph(b) && IsIdeograph(c)
    requires a != b && b != c && a != c
    requires s == [a, a, a, b, b, c]
    ensures Analysis(s, DefaultConfig, analysisTime) ==
            Success(Report(
              BasicStats(6, 3, 0.5),
              FrequencyStats(3, 1, 2.0),
              [(a, 3), (b, 2), (c, 1)],
              analysisTime))
  {
    RunsExtract(s, a, b, c);
    RunsHasTop(s, a, b, c);
    AnalysisOf(s, DefaultConfig, analysisTime);
    RunsReport(s, a, b, c, analysisTime);
  }

  lemma AnalysisOf(text: string, config: AnalysisConfig, analysisTime: string)
    requires Strip(text) != []
    requires var chars := ExtractChineseChars(text, config.excludePunctuation);
             chars != [] && TopCharacters(CalculateFrequency(chars, config.minFrequency), Some(1), config.topN) != []
    ensures var chars := ExtractChineseChars(text, config.excludePunctuation);
            Analysis(text, config, analysisTime) ==
            Success(BuildReport(chars, CalculateFrequency(chars, config.minFrequency), config.topN, analysisTime))
  {
  }

  /** A text of ideographs is not blank and extracts to itself. */
  lemma RunsExtract(s: string, a: char, b: char, c: char)
    requires IsIdeograph(a) && IsIdeograph(b) && IsIdeograph(c)
    requires s == [a, a, a, b, b, c]
    ensures Strip(s) != []
    ensures ExtractChineseChars(s, true) == s
  {
    assert forall i :: 0 <= i < |s| ==> IsIdeograph(s[i]);
    ExtractedTextIsNotBlank(s);
    FindIdeographsOfIdeographs(s);
    PunctuationFilterIsNoOp(s);
  }

  lemma RunsHasTop(s: string, a: char, b: char, c: char)
    requires a != b && b != c && a != c
    requires s == [a, a, a, b, b, c]
    ensures TopCharacters(CalculateFrequency(s, 1), Some(1), 50) != []
  {
    RunsCounter(s, a, b, c);
  }

  lemma RunsReport(s: string, a: char, b: char, c: char, analysisTime: string)
    requires a != b && b != c && a != c
    requires s == [a, a, a, b, b, c]
    ensures BuildReport(s, CalculateFrequency(s, 1), 50, analysisTime) ==
            Report(
              BasicStats(6, 3, 0.5),
              FrequencyStats(3, 1, 2.0),
              [(a, 3), (b, 2), (c, 1)],
              analysisTime)
  {
    var counter := CalculateFrequency(s, 1);
    RunsCounter(s, a, b, c);
    BuildReportOf(s, counter, 50, analysisTime);
    RunsTop(s, a, b, c);
    RunsStats(s, a, b, c);
    assert CoverageRatio(6, 3) == 0.5;
  }

  lemma BuildReportOf(chars: seq<char>, counter: Counts, topN: int, analysisTime: string)
    requires counter.Valid()
    ensures var xs := counter.Values();
            BuildReport(chars, counter, topN, analysisTime) ==
            Report(
              BasicStats(|chars|, |counter.keys|, CoverageRatio(|chars|, |counter.keys|)),
              FrequencyStats(MaxOf(xs), MinOf(xs), MeanOf(xs)),
              TopCharacters(counter, None, topN),
              analysisTime)
  {
  }

  lemma RunsTop(s: string, a: char, b: char, c: char)
    requires a != b && b != c && a != c
    requires s == [a, a, a, b, b, c]
    ensures TopCharacters(CalculateFrequency(s, 1), None, 50) == [(a, 3), (b, 2), (c, 1)]
  {
    RunsItems(s, a, b, c);
    TopOfDescending(CalculateFrequency(s, 1), (a, 3), (b, 2), (c, 1));
  }

  /** A counter whose entries are already in descending order of count is its own top list. */
  lemma TopOfDescending(counter: Counts, x: Entry, y: Entry, z: Entry)
    requires counter.Valid() && counter.Items() == [x, y, z]
    requires x.1 > y.1 > z.1
    ensures TopCharacters(counter, None, 50) == [x, y, z]
  {
    DescendingIsSorted(x, y, z);
    MostCommonOfFew([x, y, z], 50);
    TopCharactersOf(counter, None, 50);
  }

  lemma TopCharactersOf(counter: Counts, n: Option<int>, topN: int)
    requires counter.Valid()
    ensures TopCharacters(counter, n, topN) == MostCommon(counter.Items(), RequestedCount(n, topN))
  {
  }

  lemma MostCommonOfFew(items: seq<Entry>, n: int)
    requires n >= |items|
    ensures MostCommon(items, n) == SortByCount(items)
  {
  }

  /** Entries already in descending order of count stay where they are. */
  lemma DescendingIsSorted(x: Entry, y: Entry, z: Entry)
    requires x.1 > y.1 > z.1
    ensures SortByCount([x, y, z]) == [x, y, z]
  {
    assert [x, y, z][1..] == [y, z] && [y, z][1..] == [z] && [z][1..] == [];
    assert SortByCount([z]) == [z];
    assert SortByCount([y, z]) == Insert(y, [z]) == [y, z];
  }

  lemma RunsItems(s: string, a: char, b: char, c: char)
    requires a != b && b != c && a != c
    requires s == [a, a, a, b, b, c]
    ensures CalculateFrequency(s, 1).Items() == [(a, 3), (b, 2), (c, 1)]
  {
    RunsCounter(s, a, b, c);
    var r := CalculateFrequency(s, 1).Items();
    assert r[0] == (a, 3) && r[1] == (b, 2) && r[2] == (c, 1);
  }

  lemma RunsStats(s: string, a: char, b: char, c: char)
    requires a != b && b != c && a != c
    requires s == [a, a, a, b, b, c]
    ensures var xs := CalculateFrequency(s, 1).Values();
            MaxOf(xs) == 3 && MinOf(xs) == 1 && MeanOf(xs) == 2.0
  {
    RunsValues(s, a, b, c);
    ThreeTwoOneBounds();
    ThreeTwoOneMean();
  }

  lemma RunsValues(s: string, a: char, b: char, c: char)
    requires a != b && b != c && a != c
    requires s == [a, a, a, b, b, c]
    ensures CalculateFrequency(s, 1).Values() == [3, 2, 1]
  {
    RunsCounter(s, a, b, c);
    var xs := CalculateFrequency(s, 1).Values();
    assert xs[0] == 3 && xs[1] == 2 && xs[2] == 1;
  }

  lemma ThreeTwoOneBounds()
    ensures MaxOf([3, 2, 1]) == 3 && MinOf([3, 2, 1]) == 1
  {
    var xs: seq<nat> := [3, 2, 1];
    assert xs[1..] == [2, 1] && xs[1..][1..] == [1];
  }

  lemma ThreeTwoOneMean()
    ensures MeanOf([3, 2, 1]) == 2.0
  {
    var xs: seq<nat> := [3, 2, 1];
    assert xs[1..] == [2, 1] && xs[1..][1..] == [1] && xs[1..][1..][1..] == [];
    assert Sum(xs) == 6;
  }

  /** The counter of `aaabbc`, with no threshold. */
  lemma RunsCounter(s: string, a: char, b: char, c: char)
    requires a != b && b != c && a != c
    requires s == [a, a, a, b, b, c]
    ensures CalculateFrequency(s, 1) == Counts([a, b, c], map[a := 3, b := 2, c := 1])
  {
    DistinctOfRuns(s, a, b, c);
    RunsOccurrences(s, a, b, c);
  }

  lemma RunsOccurrences(s: string, a: char, b: char, c: char)
    requires a != b && b != c && a != c
    requires s == [a, a, a, b, b, c]
    ensures Occurrences(s) == map[a := 3, b := 2, c := 1]
    ensures multiset(s)[a] == 3 && multiset(s)[b] == 2 && multiset(s)[c] == 1
    ensures forall x :: x in s <==> x == a || x == b || x == c
  {
    RunsMultiset(s, a, b, c);
    var m := map[a := 3, b := 2, c := 1];
    assert Occurrences(s).Keys == m.Keys;
  }

  lemma RunsMultiset(s: string, a: char, b: char, c: char)
    requires a != b && b != c && a != c
    requires s == [a, a, a, b, b, c]
    ensures multiset(s)[a] == 3 && multiset(s)[b] == 2 && multiset(s)[c] == 1
    ensures forall x :: x in s <==> x == a || x == b || x == c
  {
    assert s == [a, a, a] + [b, b] + [c];
    assert multiset(s) == multiset{a, a, a} + multiset{b, b} + multiset{c};
  }

  /** `aaabbc` has the distinct characters `abc`, one prefix at a time. */
  lemma DistinctOfRuns(s: seq<char>, a: char, b: char, c: char)
    requires a != b && b != c && a != c
    requires s == [a, a, a, b, b, c]
    ensures Distinct(s) == [a, b, c]
  {
    DistinctAaabb(a, b);
    DistinctSnoc([a, a, a, b, b], c);
    assert [a, a, a, b, b] + [c] == s;
  }

  lemma DistinctAaabb(a: char, b: char)
    requires a != b
    ensures Distinct([a, a, a, b, b]) == [a, b]
  {
    DistinctAaab(a, b);
    DistinctSnoc([a, a, a, b], b);
    assert [a, a, a, b] + [b] == [a, a, a, b, b];
  }

  lemma DistinctAaab(a: char, b: char)
    requires a != b
    ensures Distinct([a, a, a, b]) == [a, b]
  {
    DistinctAaa(a);
    DistinctSnoc([a, a, a], b);
    assert [a, a, a] + [b] == [a, a, a, b];
  }

  lemma DistinctAaa(a: char)
    ensures Distinct([a, a, a]) == [a]
  {
    DistinctSnoc([], a);
    assert [] + [a] == [a];
    DistinctSnoc([a], a);
    assert [a] + [a] == [a, a];
    DistinctSnoc([a, a], a);
    assert [a, a] + [a] == [a, a, a];
  }

  lemma DistinctSnoc(p: seq<char>, c: char)
    ensures Distinct(p + [c]) == if c in p then Distinct(p) else Distinct(p) + [c]
  {
    assert (p + [c])[..|p|] == p;
  }
}
