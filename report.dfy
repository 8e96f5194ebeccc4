/**
 * Report generation (`CharFrequencyAnalyzer.generate_analysis_report`):
 * basic statistics over the extracted characters and the counter, summary
 * statistics over the counter's values, and the configured top-N list.
 * Ratios are exact rationals; `analysis_time` is supplied by the caller.
 */
module Reporting {
  import opened Wrappers
  import opened Counting
  import opened Ranking

  datatype BasicStats = BasicStats(totalCharacters: nat, uniqueCharacters: nat, coverageRatio: real)

  datatype FrequencyStats = FrequencyStats(maxFrequency: nat, minFrequency: nat, avgFrequency: real)

  datatype Report = Report(
    basicStats: BasicStats,
    frequencyStats: FrequencyStats,
    topCharacters: seq<Entry>,
    analysisTime: string)

  /** `max(frequencies) if frequencies else 0`. */
  function MaxOf(xs: seq<nat>): (r: nat)
    ensures xs == [] ==> r == 0
    ensures xs != [] ==> r in xs && forall i :: 0 <= i < |xs| ==> xs[i] <= r
  {
    if xs == [] then 0
    else if |xs| == 1 then xs[0]
    else
      var m := MaxOf(xs[1..]);
      if xs[0] >= m then xs[0] else m
  }

  /** `min(frequencies) if frequencies else 0`. */
  function MinOf(xs: seq<nat>): (r: nat)
    ensures xs == [] ==> r == 0
    ensures xs != [] ==> r in xs && forall i :: 0 <= i < |xs| ==> r <= xs[i]
  {
    if xs == [] then 0
    else if |xs| == 1 then xs[0]
    else
      var m := MinOf(xs[1..]);
      if xs[0] <= m then xs[0] else m
  }

  /** `sum(frequencies) / len(frequencies) if frequencies else 0`: between the minimum and the maximum. */
  function MeanOf(xs: seq<nat>): (r: real)
    ensures xs == [] ==> r == 0.0
    ensures xs != [] ==> MinOf(xs) as real <= r <= MaxOf(xs) as real
  {
    if xs == [] then 0.0
    else
      var lo, hi, n := MinOf(xs), MaxOf(xs), |xs|;
      SumBounds(xs, lo, hi);
      QuotientBetween(Sum(xs), n, lo, hi);
      Sum(xs) as real / n as real
  }

  /** `unique_chars / total_chars if total_chars > 0 else 0`: a fraction in [0, 1] when `unique <= total`. */
  function CoverageRatio(total: nat, unique: nat): (r: real)
    ensures total == 0 ==> r == 0.0
    ensures unique <= total ==> 0.0 <= r <= 1.0 && (r == 0.0 <==> total == 0 || unique == 0)
  {
    if total > 0 then
      ProperFraction(unique, total);
      unique as real / total as real
    else 0.0
  }

  /** The report `generate_analysis_report(chars)` builds from `chars` and the current counter. */
  function BuildReport(chars: seq<char>, counter: Counts, topN: int, analysisTime: string): (r: Report)
    requires counter.Valid()
    ensures r.basicStats.totalCharacters == |chars|
    ensures r.basicStats.uniqueCharacters == |counter.freq|
    ensures r.topCharacters == TopCharacters(counter, None, topN)
    ensures r.analysisTime == analysisTime
  {
    var frequencies := counter.Values();
    UniqueCount(counter);
    Report(
      BasicStats(|chars|, |counter.keys|, CoverageRatio(|chars|, |counter.keys|)),
      FrequencyStats(MaxOf(frequencies), MinOf(frequencies), MeanOf(frequencies)),
      TopCharacters(counter, None, topN),
      analysisTime)
  }

  /** `len(char_counter)`: a valid counter has one entry per key. */
  lemma UniqueCount(counter: Counts)
    requires counter.Valid()
    ensures |counter.freq| == |counter.keys|
  {
    assert counter.freq.Keys == set k | k in counter.keys;
    DistinctCardinality(counter.keys);
  }

  lemma {:induction false} DistinctCardinality(keys: seq<char>)
    requires NoDuplicates(keys)
    ensures |set k | k in keys| == |keys|
  {
    if keys != [] {
      DistinctCardinality(keys[1..]);
      assert (set k | k in keys) == {keys[0]} + (set k | k in keys[1..]);
      assert keys[0] !in keys[1..];
    }
  }

  lemma {:induction false} SumBounds(xs: seq<nat>, lo: nat, hi: nat)
    requires forall i :: 0 <= i < |xs| ==> lo <= xs[i] <= hi
    ensures |xs| * lo <= Sum(xs) <= |xs| * hi
  {
    if xs != [] {
      SumBounds(xs[1..], lo, hi);
      assert |xs| * lo == lo + (|xs| - 1) * lo;
      assert |xs| * hi == hi + (|xs| - 1) * hi;
    }
  }

  lemma MulCancel(a: real, b: real, n: real)
    requires n > 0.0 && a * n <= b * n
    ensures a <= b
  {
  }
  lemma QuotientBetween(s: nat, n: nat, lo: nat, hi: nat)
    requires n > 0
    requires n * lo <= s <= n * hi
    ensures lo as real <= s as real / n as real <= hi as real
  {
    var q := s as real / n as real;
    assert q * (n as real) == s as real;
    assert (lo as real) * (n as real) == (n * lo) as real;
    assert (hi as real) * (n as real) == (n * hi) as real;
    MulCancel(lo as real, q, n as real);
    MulCancel(q, hi as real, n as real);
  }
  lemma ProperFraction(u: nat, t: nat)
    requires t > 0
    ensures 0.0 <= u as real / t as real
    ensures u <= t ==> u as real / t as real <= 1.0
    ensures u as real / t as real == 0.0 <==> u == 0
  {
    var q := u as real / t as real;
    assert q * (t as real) == u as real;
    MulCancel(0.0, q, t as real);
    if u <= t {
      MulCancel(q, 1.0, t as real);
    }
  }

  /**
   * `basic_stats` for a counter computed from `chars`: the ratio of distinct to
   * total characters lies in [0, 1]; it is 0 exactly when there are no
   * characters or the threshold emptied the counter, and, without a threshold,
   * exactly when there are no characters.
   */
  lemma CoverageRatioBounds(chars: seq<char>, m: int, topN: int, analysisTime: string)
    ensures var counter := CalculateFrequency(chars, m);
            var b := BuildReport(chars, counter, topN, analysisTime).basicStats;
            && 0.0 <= b.coverageRatio <= 1.0
            && (b.coverageRatio == 0.0 <==> |chars| == 0 || counter.keys == [])
            && (m <= 1 ==> (b.coverageRatio == 0.0 <==> |chars| == 0))
  {
    var counter := CalculateFrequency(chars, m);
    CalculateFrequencyCounts(chars, m);
    if |chars| > 0 && m <= 1 {
      assert chars[0] in counter.freq;
    }
  }

  /**
   * `frequency_stats` for a counter computed from `chars` with threshold `m`:
   * all zero when the counter is empty; otherwise the maximum and minimum are
   * counts of characters in the counter, every count lies between them, the
   * minimum reaches both 1 and `m`, and the mean lies between them.
   */
  lemma FrequencyStatsBounds(chars: seq<char>, m: int, topN: int, analysisTime: string)
    ensures var counter := CalculateFrequency(chars, m);
            var f := BuildReport(chars, counter, topN, analysisTime).frequencyStats;
            && (counter.keys == [] ==> f == FrequencyStats(0, 0, 0.0))
            && (counter.keys != [] ==>
                  && (exists c :: c in counter.freq && counter.freq[c] == f.maxFrequency)
                  && (exists c :: c in counter.freq && counter.freq[c] == f.minFrequency)
                  && (forall c :: c in counter.freq ==> f.minFrequency <= counter.freq[c] <= f.maxFrequency)
                  && f.minFrequency >= 1 && f.minFrequency >= m
                  && f.minFrequency as real <= f.avgFrequency <= f.maxFrequency as real)
  {
    var counter := CalculateFrequency(chars, m);
    CalculateFrequencyCounts(chars, m);
    var xs := counter.Values();
    if counter.keys != [] {
      var i :| 0 <= i < |xs| && xs[i] == MaxOf(xs);
      var j :| 0 <= j < |xs| && xs[j] == MinOf(xs);
      assert counter.freq[counter.keys[i]] == MaxOf(xs);
      assert counter.freq[counter.keys[j]] == MinOf(xs);
      forall c | c in counter.freq ensures MinOf(xs) <= counter.freq[c] <= MaxOf(xs) {
        var k :| 0 <= k < |counter.keys| && counter.keys[k] == c;
        assert xs[k] == counter.freq[c];
      }
      var c := counter.keys[j];
      assert c in chars;
      assert multiset(chars)[c] >= 1;
    }
  }

  /**
   * Without a threshold the counts add up to the number of characters, so the
   * mean count is `total / unique`, the reciprocal of the coverage ratio.
   */
  lemma MeanIsTotalOverUnique(chars: seq<char>, m: int, topN: int, analysisTime: string)
    requires m <= 1
    requires chars != []
    ensures var r := BuildReport(chars, CalculateFrequency(chars, m), topN, analysisTime);
            && r.basicStats.coverageRatio == r.basicStats.uniqueCharacters as real / |chars| as real
            && r.frequencyStats.avgFrequency == |chars| as real / r.basicStats.uniqueCharacters as real
  {
    var counter := CalculateFrequency(chars, m);
    CalculateFrequencySum(chars, m);
    CalculateFrequencyCounts(chars, m);
    assert chars[0] in counter.freq;
    UniqueCount(counter);
  }

  /** The first entry of the top list carries the report's maximum frequency. */
  lemma TopEntryHasMaxFrequency(chars: seq<char>, m: int, topN: int, analysisTime: string)
    requires RequestedCount(None, topN) > 0
    ensures var counter := CalculateFrequency(chars, m);
            var r := BuildReport(chars, counter, topN, analysisTime);
            counter.keys != [] ==>
              r.topCharacters != [] && r.topCharacters[0].1 == r.frequencyStats.maxFrequency
  {
    var counter := CalculateFrequency(chars, m);
    if counter.keys != [] {
      TopHeadIsMax(counter, topN);
    }
  }

  /** On a non-empty counter the top list opens with the largest count. */
  lemma TopHeadIsMax(counter: Counts, topN: int)
    requires counter.Valid() && counter.keys != []
    requires RequestedCount(None, topN) > 0
    ensures var top := TopCharacters(counter, None, topN);
            top != [] && top[0].1 == MaxOf(counter.Values())
  {
    var items := counter.Items();
    var xs := counter.Values();
    var k := RequestedCount(None, topN);
    var top := MostCommon(items, k);
    assert top == TopCharacters(counter, None, topN);
    MostCommonHeadIsMax(items, k);
    MostCommonFromItems(items, k);
    assert top[0].1 <= MaxOf(xs) by {
      var j :| 0 <= j < |items| && items[j] == top[0];
      assert xs[j] == top[0].1;
    }
    assert MaxOf(xs) <= top[0].1 by {
      var i :| 0 <= i < |xs| && xs[i] == MaxOf(xs);
      assert items[i] in items;
    }
  }
}
