/**
 * The analyzer object (`CharFrequencyAnalyzer`): its configuration, the
 * counter and report it keeps between calls, and `analyze`, which runs the
 * pipeline blank-check -> extraction -> counting -> report over a text.
 */
module Analyzer {
  import opened Wrappers
  import opened Extraction
  import opened Counting
  import opened Ranking
  import opened Reporting

  /** `AnalysisConfig`; `save_results`, `generate_charts` and `chunk_size` only steer parts left out. */
  datatype AnalysisConfig = AnalysisConfig(
    topN: int,
    minFrequency: int,
    excludePunctuation: bool,
    saveResults: bool,
    generateCharts: bool,
    chunkSize: int)

  /** `AnalysisConfig()` with its default field values. */
  const DefaultConfig := AnalysisConfig(50, 1, true, true, true, 1024 * 1024)

  /** The exceptions `analyze` raises on a loaded text. */
  datatype AnalysisError =
    | EmptyText            // ValueError: the text is blank
    | NoChineseCharacters  // ValueError: no ideograph was extracted
    | NoTopCharacter       // IndexError: `get_top_characters(1)[0]` on an empty counter

  /** The code points Python's `str.isspace` accepts, which `str.strip()` removes. */
  predicate IsSpace(c: char) {
    || '\U{0009}' <= c <= '\U{000D}'
    || '\U{001C}' <= c <= '\U{0020}'
    || c == '\U{0085}' || c == '\U{00A0}' || c == '\U{1680}'
    || '\U{2000}' <= c <= '\U{200A}'
    || c == '\U{2028}' || c == '\U{2029}' || c == '\U{202F}' || c == '\U{205F}'
    || c == '\U{3000}'
  }

  /** Drops the leading whitespace: the rest of `s` from its first non-space character. */
  function StripLeading(s: string): (r: string)
    ensures |r| <= |s| && r == s[|s| - |r|..]
    ensures forall i :: 0 <= i < |s| - |r| ==> IsSpace(s[i])
    ensures r != [] ==> !IsSpace(r[0])
  {
    if s != [] && IsSpace(s[0]) then StripLeading(s[1..]) else s
  }

  /** Drops the trailing whitespace: `s` up to its last non-space character. */
  function StripTrailing(s: string): (r: string)
    ensures |r| <= |s| && r == s[..|r|]
    ensures forall i :: |r| <= i < |s| ==> IsSpace(s[i])
    ensures r != [] ==> !IsSpace(r[|r| - 1])
  {
    if s != [] && IsSpace(s[|s| - 1]) then StripTrailing(s[..|s| - 1]) else s
  }

  /** `text.strip()`. */
  function Strip(s: string): string {
    StripTrailing(StripLeading(s))
  }

  /** `not text.strip()` holds exactly for texts made only of whitespace. */
  lemma StripEmptyIffBlank(s: string)
    ensures Strip(s) == [] <==> forall i :: 0 <= i < |s| ==> IsSpace(s[i])
  {
  }

  /**
   * `analyze(path)` once the file has been read into `text`: the report, or
   * the error the pipeline raises. `analysisTime` stands for the wall-clock
   * stamp.
   */
  function Analysis(text: string, config: AnalysisConfig, analysisTime: string): Result<Report, AnalysisError> {
    if Strip(text) == [] then Failure(EmptyText)
    else
      var chars := ExtractChineseChars(text, config.excludePunctuation);
      if chars == [] then Failure(NoChineseCharacters)
      else
        var counter := CalculateFrequency(chars, config.minFrequency);
        var report := BuildReport(chars, counter, config.topN, analysisTime);
        if TopCharacters(counter, Some(1), config.topN) == [] then Failure(NoTopCharacter)
        else Success(report)
  }

  /** A text yields no ideograph exactly when none of its characters is one. */
  lemma ExtractEmptyIffNoIdeograph(text: string, excludePunctuation: bool)
    ensures ExtractChineseChars(text, excludePunctuation) == [] <==>
            forall i :: 0 <= i < |text| ==> !IsIdeograph(text[i])
  {
    PunctuationFilterIsNoOp(text);
    var chars := FindIdeographs(text);
    if chars != [] {
      FindIdeographsCounts(text, chars[0]);
      assert chars[0] in multiset(text);
    }
    forall i | 0 <= i < |text| && IsIdeograph(text[i]) ensures chars != [] {
      FindIdeographsCounts(text, text[i]);
      assert text[i] in multiset(text);
    }
  }

  /**
   * `analyze` fails with exactly one of its three errors, each under exactly
   * its condition: a blank text; otherwise no ideograph in the text; otherwise
   * no ideograph reaching `min_frequency` occurrences. It succeeds in every
   * other case.
   */
  lemma AnalysisOutcome(text: string, config: AnalysisConfig, analysisTime: string)
    ensures var r := Analysis(text, config, analysisTime);
            var blank := forall i :: 0 <= i < |text| ==> IsSpace(text[i]);
            var noIdeograph := forall i :: 0 <= i < |text| ==> !IsIdeograph(text[i]);
            var chars := ExtractChineseChars(text, config.excludePunctuation);
            var noneFrequent := forall c :: c in chars ==> multiset(chars)[c] < config.minFrequency;
            && (r == Failure(EmptyText) <==> blank)
            && (r == Failure(NoChineseCharacters) <==> !blank && noIdeograph)
            && (r == Failure(NoTopCharacter) <==> !blank && !noIdeograph && noneFrequent)
            && (r.Success? <==> !blank && !noIdeograph && !noneFrequent)
  {
    StripEmptyIffBlank(text);
    ExtractEmptyIffNoIdeograph(text, config.excludePunctuation);
    var chars := ExtractChineseChars(text, config.excludePunctuation);
    NoTopIffNoneFrequent(chars, config.minFrequency, config.topN);
  }

  /** The top-1 query is empty exactly when no character reaches `min_frequency`. */
  lemma NoTopIffNoneFrequent(chars: seq<char>, minFrequency: int, topN: int)
    ensures TopCharacters(CalculateFrequency(chars, minFrequency), Some(1), topN) == [] <==>
            forall c :: c in chars ==> multiset(chars)[c] < minFrequency
  {
    CalculateFrequencyCounts(chars, minFrequency);
    var counter := CalculateFrequency(chars, minFrequency);
    if counter.keys != [] {
      assert counter.keys[0] in counter.freq;
    }
  }

  /** A successful analysis is the report over the extracted characters and a non-empty counter. */
  lemma AnalysisSuccessUnfold(text: string, config: AnalysisConfig, analysisTime: string)
    requires Analysis(text, config, analysisTime).Success?
    ensures var chars := ExtractChineseChars(text, config.excludePunctuation);
            var counter := CalculateFrequency(chars, config.minFrequency);
            && chars != [] && counter.keys != []
            && Analysis(text, config, analysisTime).value == BuildReport(chars, counter, config.topN, analysisTime)
  {
  }

  /**
   * A successful analysis reports every extracted ideograph, at least one
   * distinct character, a coverage ratio in (0, 1], and a top list headed by
   * the most frequent character whenever `top_n` asks for any.
   */
  lemma AnalysisSuccessReport(text: string, config: AnalysisConfig, analysisTime: string)
    requires Analysis(text, config, analysisTime).Success?
    ensures var report := Analysis(text, config, analysisTime).value;
            var chars := ExtractChineseChars(text, config.excludePunctuation);
            && report.basicStats.totalCharacters == |chars| > 0
            && report.basicStats.uniqueCharacters > 0
            && 0.0 < report.basicStats.coverageRatio <= 1.0
            && 1 <= report.frequencyStats.minFrequency <= report.frequencyStats.maxFrequency
            && (RequestedCount(None, config.topN) > 0 ==>
                  report.topCharacters != [] &&
                  report.topCharacters[0].1 == report.frequencyStats.maxFrequency)
  {
    AnalysisSuccessUnfold(text, config, analysisTime);
    var chars := ExtractChineseChars(text, config.excludePunctuation);
    ReportOverNonEmptyCounter(chars, config.minFrequency, config.topN, analysisTime);
  }

  lemma ReportOverNonEmptyCounter(chars: seq<char>, m: int, topN: int, analysisTime: string)
    requires CalculateFrequency(chars, m).keys != []
    ensures var report := BuildReport(chars, CalculateFrequency(chars, m), topN, analysisTime);
            && report.basicStats.totalCharacters == |chars| > 0
            && report.basicStats.uniqueCharacters > 0
            && 0.0 < report.basicStats.coverageRatio <= 1.0
            && 1 <= report.frequencyStats.minFrequency <= report.frequencyStats.maxFrequency
            && (RequestedCount(None, topN) > 0 ==>
                  report.topCharacters != [] &&
                  report.topCharacters[0].1 == report.frequencyStats.maxFrequency)
  {
    var counter := CalculateFrequency(chars, m);
    CalculateFrequencyCounts(chars, m);
    CoverageRatioBounds(chars, m, topN, analysisTime);
    FrequencyStatsBounds(chars, m, topN, analysisTime);
    UniqueCount(counter);
    if RequestedCount(None, topN) > 0 {
      TopEntryHasMaxFrequency(chars, m, topN, analysisTime);
    }
  }

  /** Ideographs are not whitespace, so extracted characters never strip to nothing. */
  lemma ExtractedTextIsNotBlank(chars: seq<char>)
    requires chars != []
    requires forall i :: 0 <= i < |chars| ==> IsIdeograph(chars[i])
    ensures Strip(chars) != []
  {
    StripEmptyIffBlank(chars);
    assert !IsSpace(chars[0]);
  }

  /**
   * Feeding the extracted characters back through the pipeline reproduces the
   * report of the whole text.
   */
  lemma AnalysisOfExtractedText(text: string, config: AnalysisConfig, analysisTime: string)
    requires ExtractChineseChars(text, config.excludePunctuation) != []
    ensures var chars := ExtractChineseChars(text, config.excludePunctuation);
            Analysis(chars, config, analysisTime) == Analysis(text, config, analysisTime)
  {
    var chars := ExtractChineseChars(text, config.excludePunctuation);
    ExtractIdempotent(text, config.excludePunctuation);
    ExtractedTextIsNotBlank(chars);
    assert Strip(text) != [] by {
      ExtractEmptyIffNoIdeograph(text, config.excludePunctuation);
      var i :| 0 <= i < |text| && IsIdeograph(text[i]);
      StripEmptyIffBlank(text);
      assert !IsSpace(text[i]);
    }
    SameExtractionSameAnalysis(chars, text, config, analysisTime);
  }

  /** Past the blank check, the analysis depends only on the extracted characters. */
  lemma SameExtractionSameAnalysis(a: string, b: string, config: AnalysisConfig, analysisTime: string)
    requires Strip(a) != [] && Strip(b) != []
    requires ExtractChineseChars(a, config.excludePunctuation) == ExtractChineseChars(b, config.excludePunctuation)
    ensures Analysis(a, config, analysisTime) == Analysis(b, config, analysisTime)
  {
  }

  /** `CharFrequencyAnalyzer`: a configuration and the state its steps leave behind. */
  class CharFrequencyAnalyzer {
    const config: AnalysisConfig
    /** `self.char_counter` */
    var charCounter: Counts
    /** `self.analysis_stats`: `None` while it is still the initial `{}`. */
    var analysisStats: Option<Report>

    ghost predicate Valid()
      reads this
    {
      charCounter.Valid()
    }

    /** `CharFrequencyAnalyzer(config)`; an absent configuration means the defaults. */
    constructor (config: Option<AnalysisConfig>)
      ensures Valid()
      ensures this.config == config.GetOr(DefaultConfig)
      ensures charCounter == Counts([], map[]) && analysisStats == None
    {
      this.config := config.GetOr(DefaultConfig);
      charCounter := Counts([], map[]);
      analysisStats := None;
    }

    /** `calculate_frequency(chars)`: replaces the counter and returns a copy of it, in insertion order. */
    method CalculateFrequency(chars: seq<char>) returns (counts: Counts)
      modifies this
      ensures Valid()
      ensures charCounter == Counting.CalculateFrequency(chars, config.minFrequency)
      ensures counts == charCounter
      ensures analysisStats == old(analysisStats)
    {
      var counter := CountOccurrences(chars);
      if config.minFrequency > 1 {
        counter := FilterAtLeast(counter, config.minFrequency);
      }
      charCounter := counter;
      counts := counter;
    }

    /**
     * `get_top_characters(n)` on the current counter: entries of the counter
     * with their counts, largest count first, as many as asked for and
     * available, and none left out that outranks one taken.
     */
    function GetTopCharacters(n: Option<int>): (r: seq<Entry>)
      reads this
      requires Valid()
      ensures forall i :: 0 <= i < |r| ==> r[i].0 in charCounter.freq && charCounter.freq[r[i].0] == r[i].1
      ensures var k := RequestedCount(n, config.topN);
              |r| == if k <= 0 then 0 else if k < |charCounter.keys| then k else |charCounter.keys|
      ensures SortedByCount(r)
      ensures forall e, p :: e in charCounter.Items() && e !in r && p in r ==> e.1 <= p.1
    {
      var items, k := charCounter.Items(), RequestedCount(n, config.topN);
      MostCommonSorted(items, k);
      MostCommonIsTop(items, k);
      TopCharacters(charCounter, n, config.topN)
    }

    /** `generate_analysis_report(chars)`: builds the report and stores it in `analysis_stats`. */
    method GenerateAnalysisReport(chars: seq<char>, analysisTime: string) returns (report: Report)
      requires Valid()
      modifies this
      ensures Valid()
      ensures report == BuildReport(chars, charCounter, config.topN, analysisTime)
      ensures analysisStats == Some(report)
      ensures charCounter == old(charCounter)
    {
      report := BuildReport(chars, charCounter, config.topN, analysisTime);
      analysisStats := Some(report);
    }

    /**
     * `analyze`: fails before touching the state on a blank text or when no
     * ideograph is extracted; otherwise replaces the counter and the report,
     * and then fails only if the counter is empty.
     */
    method Analyze(text: string, analysisTime: string) returns (result: Result<Report, AnalysisError>)
      requires Valid()
      modifies this
      ensures Valid()
      ensures result == Analysis(text, config, analysisTime)
      ensures var chars := ExtractChineseChars(text, config.excludePunctuation);
              if Strip(text) == [] || chars == [] then
                charCounter == old(charCounter) && analysisStats == old(analysisStats)
              else
                && charCounter == Counting.CalculateFrequency(chars, config.minFrequency)
                && analysisStats == Some(BuildReport(chars, charCounter, config.topN, analysisTime))
      ensures result.Success? ==> analysisStats == Some(result.value)
    {
      if Strip(text) == [] {
        return Failure(EmptyText);
      }
      var chars := ExtractChineseChars(text, config.excludePunctuation);
      if chars == [] {
        return Failure(NoChineseCharacters);
      }
      var _ := CalculateFrequency(chars);
      var report := GenerateAnalysisReport(chars, analysisTime);
      var top := GetTopCharacters(Some(1));
      if top == [] {
        return Failure(NoTopCharacter);
      }
      return Success(report);
    }
  }

  /**
   * Running `analyze` twice on the same text gives the same outcome and
   * leaves the counter and the report as the first run left them.
   */
  method AnalyzeTwice(analyzer: CharFrequencyAnalyzer, text: string, analysisTime: string)
    returns (first: Result<Report, AnalysisError>, second: Result<Report, AnalysisError>,
             ghost counterAfterFirst: Counts, ghost statsAfterFirst: Option<Report>)
    requires analyzer.Valid()
    modifies analyzer
    ensures first == second
    ensures analyzer.charCounter == counterAfterFirst && analyzer.analysisStats == statsAfterFirst
  {
    first := analyzer.Analyze(text, analysisTime);
    counterAfterFirst, statsAfterFirst := analyzer.charCounter, analyzer.analysisStats;
    second := analyzer.Analyze(text, analysisTime);
  }
}
