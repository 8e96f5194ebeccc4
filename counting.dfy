/**
 * Frequency aggregation (`CharFrequencyAnalyzer.calculate_frequency`):
 * `collections.Counter(chars)` followed, when `min_frequency > 1`, by a
 * dictionary comprehension that keeps the entries reaching the threshold.
 */
module Counting {

  /** A `(character, count)` pair, as `Counter.items()` yields it. */
  type Entry = (char, nat)

  ghost predicate NoDuplicates(s: seq<char>) {
    forall i, j :: 0 <= i < j < |s| ==> s[i] != s[j]
  }

  /**
   * A `collections.Counter` of characters. Python dictionaries remember
   * insertion order, so the counter is its keys in insertion order together
   * with the count of each key.
   */
  datatype Counts = Counts(keys: seq<char>, freq: map<char, nat>) {

    ghost predicate Valid() {
      && NoDuplicates(keys)
      && (forall k :: k in freq <==> k in keys)
    }

    /** `items()`: the `(key, count)` pairs in insertion order. */
    function Items(): seq<Entry>
      requires Valid()
    {
      ItemsOf(keys, freq)
    }

    /** `values()`: the counts in insertion order. */
    function Values(): seq<nat>
      requires Valid()
    {
      seq(|keys|, i requires 0 <= i < |keys| => freq[keys[i]])
    }
  }

  /** The `(key, count)` pairs of `keys`, in order. */
  function ItemsOf(keys: seq<char>, freq: map<char, nat>): (r: seq<Entry>)
    requires forall k :: k in keys ==> k in freq
    ensures |r| == |keys|
    ensures forall i :: 0 <= i < |r| ==> r[i] == (keys[i], freq[keys[i]])
  {
    if keys == [] then [] else [(keys[0], freq[keys[0]])] + ItemsOf(keys[1..], freq)
  }

  function Sum(xs: seq<nat>): nat {
    if xs == [] then 0 else xs[0] + Sum(xs[1..])
  }

  /** The distinct characters of `s`, in the order of their first occurrence. */
  function Distinct(s: seq<char>): (r: seq<char>)
    ensures NoDuplicates(r)
    ensures forall c :: c in r <==> c in s
    ensures |r| <= |s|
  {
    if s == [] then []
    else
      var init, last := s[..|s| - 1], s[|s| - 1];
      var d := Distinct(init);
      if last in init then d else d + [last]
  }

  /** How often each character of `s` occurs in it. */
  function Occurrences(s: seq<char>): map<char, nat> {
    map c | c in s :: multiset(s)[c]
  }

  /** The counter `Counter(s)` builds: first-occurrence key order, occurrence counts. */
  function Tally(s: seq<char>): (r: Counts)
    ensures r.Valid()
  {
    Counts(Distinct(s), Occurrences(s))
  }

  /** The position of the first occurrence of `c` in `s`. */
  function FirstIndex(s: seq<char>, c: char): (r: nat)
    requires c in s
    ensures r < |s| && s[r] == c
    ensures forall j :: 0 <= j < r ==> s[j] != c
  {
    if s[0] == c then 0 else 1 + FirstIndex(s[1..], c)
  }

  /** `keys` lists characters of `s` in the order of their first occurrences in `s`. */
  ghost predicate InFirstOccurrenceOrder(keys: seq<char>, s: seq<char>)
    requires forall k :: k in keys ==> k in s
  {
    forall i, j :: 0 <= i < j < |keys| ==> FirstIndex(s, keys[i]) < FirstIndex(s, keys[j])
  }

  /** `Counter(chars)`: one pass over the characters, incrementing a per-character count. */
  method CountOccurrences(chars: seq<char>) returns (counter: Counts)
    ensures counter == Tally(chars)
  {
    var keys: seq<char> := [];
    var freq: map<char, nat> := map[];
    for i := 0 to |chars|
      invariant keys == Distinct(chars[..i])
      invariant freq == Occurrences(chars[..i])
    {
      var c := chars[i];
      assert chars[..i + 1] == chars[..i] + [c];
      OccurrencesSnoc(chars[..i], c);
      if c in freq {
        freq := freq[c := freq[c] + 1];
      } else {
        keys := keys + [c];
        freq := freq[c := 1];
      }
    }
    assert chars[..|chars|] == chars;
    counter := Counts(keys, freq);
  }

  /** Counting one more character increments its count and leaves the others alone. */
  lemma OccurrencesSnoc(s: seq<char>, c: char)
    ensures Occurrences(s + [c]) == Occurrences(s)[c := multiset(s)[c] + 1]
  {
    var t := s + [c];
    assert multiset(t) == multiset(s) + multiset{c};
    assert forall x :: x in t <==> x in s || x == c;
  }

  /** The keys of a filtered counter, in their original order. */
  function KeepAtLeast(keys: seq<char>, freq: map<char, nat>, m: int): (r: seq<char>)
    requires forall k :: k in keys ==> k in freq
    ensures |r| <= |keys|
    ensures forall k :: k in r <==> k in keys && freq[k] >= m
    ensures NoDuplicates(keys) ==> NoDuplicates(r)
  {
    if keys == [] then []
    else
      var rest := KeepAtLeast(keys[1..], freq, m);
      if freq[keys[0]] >= m then [keys[0]] + rest else rest
  }

  /** `Counter({char: count for char, count in counter.items() if count >= m})`. */
  function FilterAtLeast(counter: Counts, m: int): (r: Counts)
    requires counter.Valid()
    ensures r.Valid()
    ensures forall k :: k in r.freq <==> k in counter.freq && counter.freq[k] >= m
    ensures forall k :: k in r.freq ==> r.freq[k] == counter.freq[k]
  {
    Counts(KeepAtLeast(counter.keys, counter.freq, m),
           map k | k in counter.freq && counter.freq[k] >= m :: counter.freq[k])
  }

  /** The entries whose count reaches `m`, in their original order. */
  function EntriesAtLeast(items: seq<Entry>, m: int): seq<Entry> {
    if items == [] then []
    else if items[0].1 >= m then [items[0]] + EntriesAtLeast(items[1..], m)
    else EntriesAtLeast(items[1..], m)
  }

  /** `calculate_frequency(chars)`: the counter left in `char_counter` for a threshold `m`. */
  function CalculateFrequency(chars: seq<char>, m: int): (r: Counts)
    ensures r.Valid()
  {
    if m > 1 then FilterAtLeast(Tally(chars), m) else Tally(chars)
  }

  /** The counter's keys follow the order in which characters first occur. */
  lemma {:induction false} TallyFirstOccurrenceOrder(s: seq<char>)
    ensures InFirstOccurrenceOrder(Tally(s).keys, s)
  {
    if s != [] {
      var p, c := s[..|s| - 1], s[|s| - 1];
      assert s == p + [c];
      TallyFirstOccurrenceOrder(p);
      var d := Distinct(p);
      ExtendOrder(d, p, c);
      if c !in p {
        assert Distinct(s) == d + [c];
        AppendNewOrder(d, p, c);
      }
    }
  }

  /** Characters seen in `p` keep their first positions when `p` grows. */
  lemma ExtendOrder(d: seq<char>, p: seq<char>, c: char)
    requires forall k :: k in d ==> k in p
    requires InFirstOccurrenceOrder(d, p)
    ensures InFirstOccurrenceOrder(d, p + [c])
  {
    forall i, j | 0 <= i < j < |d| ensures FirstIndex(p + [c], d[i]) < FirstIndex(p + [c], d[j]) {
      FirstIndexInPrefix(p, c, d[i]);
      FirstIndexInPrefix(p, c, d[j]);
    }
  }

  /** A character first seen at the end goes after every key seen before it. */
  lemma AppendNewOrder(d: seq<char>, p: seq<char>, c: char)
    requires forall k :: k in d ==> k in p
    requires c !in p
    requires InFirstOccurrenceOrder(d, p + [c])
    ensures InFirstOccurrenceOrder(d + [c], p + [c])
  {
    var s, r := p + [c], d + [c];
    assert FirstIndex(s, c) == |p|;
    forall i, j | 0 <= i < j < |r| ensures FirstIndex(s, r[i]) < FirstIndex(s, r[j]) {
      assert r[i] == d[i];
      if j == |d| {
        assert r[j] == c;
        FirstIndexInPrefix(p, c, d[i]);
      } else {
        assert r[j] == d[j];
      }
    }
  }

  lemma FirstIndexInPrefix(p: seq<char>, c: char, x: char)
    requires x in p
    ensures FirstIndex(p + [c], x) == FirstIndex(p, x)
  {
    assert (p + [c])[FirstIndex(p, x)] == x;
  }

  /** The counts add up to the number of characters counted. */
  lemma {:induction false} TallySum(s: seq<char>)
    ensures Sum(Tally(s).Values()) == |s|
  {
    if s != [] {
      var p, c := s[..|s| - 1], s[|s| - 1];
      assert s == p + [c];
      TallySum(p);
      var vp := Tally(p).Values();
      if c in p {
        var i := TallyValuesSnocSeen(p, c);
        SumUpdate(vp, i, vp[i] + 1);
      } else {
        TallyValuesSnocNew(p, c);
        SumSnoc(vp, 1);
      }
    }
  }

  /** Counting a character seen before increments its count, at its existing position. */
  lemma TallyValuesSnocSeen(p: seq<char>, c: char) returns (i: nat)
    requires c in p
    ensures i < |Tally(p).keys| && Tally(p).keys[i] == c
    ensures Tally(p + [c]).Values() == Tally(p).Values()[i := Tally(p).Values()[i] + 1]
  {
    var t := Tally(p);
    assert (p + [c])[..|p|] == p;
    assert Distinct(p + [c]) == t.keys;
    OccurrencesSnoc(p, c);
    i :| 0 <= i < |t.keys| && t.keys[i] == c;
    ValuesBump(t, i);
  }

  /** `values()` holds exactly the counts the counter stores: every key's count, and nothing else. */
  lemma ValuesAreCounts(counter: Counts)
    requires counter.Valid()
    ensures forall c :: c in counter.freq ==> counter.freq[c] in counter.Values()
    ensures forall v :: v in counter.Values() <==> v in counter.freq.Values
  {
    var xs := counter.Values();
    forall c | c in counter.freq ensures counter.freq[c] in xs {
      var i :| 0 <= i < |counter.keys| && counter.keys[i] == c;
      assert xs[i] == counter.freq[c];
    }
    forall v | v in counter.freq.Values ensures v in xs {
      var c :| c in counter.freq && counter.freq[c] == v;
    }
  }

  /** Incrementing the count of the `i`-th key increments the `i`-th value. */
  lemma ValuesBump(counter: Counts, i: nat)
    requires counter.Valid() && i < |counter.keys|
    ensures var c := counter.keys[i];
            var bumped := Counts(counter.keys, counter.freq[c := counter.freq[c] + 1]);
            bumped.Valid() && bumped.Values() == counter.Values()[i := counter.Values()[i] + 1]
  {
    var c := counter.keys[i];
    var bumped := Counts(counter.keys, counter.freq[c := counter.freq[c] + 1]);
    forall j | 0 <= j < |counter.keys| ensures bumped.Values()[j] == counter.Values()[i := counter.Values()[i] + 1][j] {
      if j != i {
        assert counter.keys[j] != c;
      }
    }
  }

  /** Counting a new character appends it with count one. */
  lemma TallyValuesSnocNew(p: seq<char>, c: char)
    requires c !in p
    ensures Tally(p + [c]).Values() == Tally(p).Values() + [1]
  {
    assert (p + [c])[..|p|] == p;
    assert Distinct(p + [c]) == Distinct(p) + [c];
    OccurrencesSnoc(p, c);
  }

  lemma {:induction false} SumSnoc(xs: seq<nat>, x: nat)
    ensures Sum(xs + [x]) == Sum(xs) + x
  {
    if xs != [] {
      assert (xs + [x])[1..] == xs[1..] + [x];
      SumSnoc(xs[1..], x);
    }
  }

  lemma {:induction false} SumUpdate(xs: seq<nat>, i: nat, v: nat)
    requires i < |xs|
    ensures Sum(xs[i := v]) == Sum(xs) - xs[i] + v
  {
    if i > 0 {
      assert xs[i := v][1..] == xs[1..][i - 1 := v];
      SumUpdate(xs[1..], i - 1, v);
    }
  }

  /** Filtering keeps the surviving entries in their original order. */
  lemma {:induction false} ItemsOfKeepAtLeast(keys: seq<char>, freq: map<char, nat>, kept: map<char, nat>, m: int)
    requires forall k :: k in keys ==> k in freq
    requires forall k :: k in keys && freq[k] >= m ==> k in kept && kept[k] == freq[k]
    ensures ItemsOf(KeepAtLeast(keys, freq, m), kept) == EntriesAtLeast(ItemsOf(keys, freq), m)
  {
    if keys != [] {
      ItemsOfKeepAtLeast(keys[1..], freq, kept, m);
      var items := ItemsOf(keys, freq);
      assert items[1..] == ItemsOf(keys[1..], freq);
    }
  }

  /**
   * With `min_frequency > 1` the counter keeps exactly the entries reaching the
   * threshold, with unchanged counts, in their original order.
   */
  lemma FilterAtLeastItems(counter: Counts, m: int)
    requires counter.Valid()
    ensures FilterAtLeast(counter, m).Items() == EntriesAtLeast(counter.Items(), m)
  {
    var r := FilterAtLeast(counter, m);
    ItemsOfKeepAtLeast(counter.keys, counter.freq, r.freq, m);
  }

  /** A threshold of at most one removes nothing: every counted character occurs at least once. */
  lemma {:induction false} KeepAtLeastAll(keys: seq<char>, freq: map<char, nat>, m: int)
    requires forall k :: k in keys ==> k in freq && freq[k] >= m
    ensures KeepAtLeast(keys, freq, m) == keys
  {
    if keys != [] {
      KeepAtLeastAll(keys[1..], freq, m);
      assert keys == [keys[0]] + keys[1..];
    }
  }

  /** The `min_frequency > 1` guard is only a shortcut: filtering at a lower threshold is the identity. */
  lemma FilterAtMostOneIsIdentity(s: seq<char>, m: int)
    requires m <= 1
    ensures FilterAtLeast(Tally(s), m) == Tally(s)
  {
    var t := Tally(s);
    KeepAtLeastAll(t.keys, t.freq, m);
    assert FilterAtLeast(t, m).freq == t.freq;
  }

  /**
   * `calculate_frequency`: the keys are exactly the characters occurring at
   * least `m` times (every character when `m <= 1`), each with its occurrence
   * count, and there are no more of them than characters counted.
   */
  lemma CalculateFrequencyCounts(chars: seq<char>, m: int)
    ensures var r := CalculateFrequency(chars, m);
            && (forall c :: c in r.freq <==> c in chars && multiset(chars)[c] >= m)
            && (forall c :: c in r.freq ==> r.freq[c] == multiset(chars)[c])
            && |r.keys| <= |chars|
  {
  }

  /**
   * `calculate_frequency`: the surviving entries are those of `Counter(chars)`
   * reaching the threshold, unchanged and in their original order.
   */
  lemma CalculateFrequencyItems(chars: seq<char>, m: int)
    ensures CalculateFrequency(chars, m).Items() == EntriesAtLeast(Tally(chars).Items(), m)
  {
    FilterAtLeastItems(Tally(chars), m);
    if m <= 1 {
      FilterAtMostOneIsIdentity(chars, m);
    }
  }

  /** `calculate_frequency`: the keys are in the order in which the characters first occur. */
  lemma CalculateFrequencyFirstOccurrence(chars: seq<char>, m: int)
    ensures InFirstOccurrenceOrder(CalculateFrequency(chars, m).keys, chars)
  {
    var t := Tally(chars);
    TallyFirstOccurrenceOrder(chars);
    if m > 1 {
      KeepAtLeastOrder(t.keys, t.freq, m, chars);
    }
  }

  /** Without filtering, the counts add up to the number of characters. */
  lemma CalculateFrequencySum(chars: seq<char>, m: int)
    requires m <= 1
    ensures Sum(CalculateFrequency(chars, m).Values()) == |chars|
  {
    TallySum(chars);
  }

  /** A filtered key sequence keeps any strict order its source had. */
  lemma {:induction false} KeepAtLeastOrder(keys: seq<char>, freq: map<char, nat>, m: int, s: seq<char>)
    requires forall k :: k in keys ==> k in freq && k in s
    requires InFirstOccurrenceOrder(keys, s)
    ensures InFirstOccurrenceOrder(KeepAtLeast(keys, freq, m), s)
  {
    if keys != [] {
      assert InFirstOccurrenceOrder(keys[1..], s) by {
        forall i, j | 0 <= i < j < |keys[1..]| ensures FirstIndex(s, keys[1..][i]) < FirstIndex(s, keys[1..][j]) {
          assert keys[1..][i] == keys[i + 1] && keys[1..][j] == keys[j + 1];
        }
      }
      KeepAtLeastOrder(keys[1..], freq, m, s);
      var rest := KeepAtLeast(keys[1..], freq, m);
      if freq[keys[0]] >= m {
        forall k | 0 <= k < |rest| ensures FirstIndex(s, keys[0]) < FirstIndex(s, rest[k]) {
          assert rest[k] in keys[1..];
          var l :| 0 <= l < |keys[1..]| && keys[1..][l] == rest[k];
          assert keys[l + 1] == rest[k];
        }
        PrependOrder(keys[0], rest, s);
      }
    }
  }

  lemma PrependOrder(x: char, rest: seq<char>, s: seq<char>)
    requires x in s && forall k :: k in rest ==> k in s
    requires InFirstOccurrenceOrder(rest, s)
    requires forall k :: 0 <= k < |rest| ==> FirstIndex(s, x) < FirstIndex(s, rest[k])
    ensures InFirstOccurrenceOrder([x] + rest, s)
  {
    var r := [x] + rest;
    forall i, j | 0 <= i < j < |r| ensures FirstIndex(s, r[i]) < FirstIndex(s, r[j]) {
      assert r[j] == rest[j - 1];
      if i > 0 {
        assert r[i] == rest[i - 1];
      }
    }
  }
}
