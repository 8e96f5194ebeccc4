/**
 * Top-N ranking (`CharFrequencyAnalyzer.get_top_characters` over
 * `Counter.most_common`): the counter's entries sorted by count, largest
 * first, by a stable sort, so entries with equal counts keep the counter's
 * insertion order; then the first `n` of them.
 */
module Ranking {
  import opened Wrappers
  import opened Counting

  /** Counts never increase along `s`. */
  ghost predicate SortedByCount(s: seq<Entry>) {
    forall i, j :: 0 <= i < j < |s| ==> s[i].1 >= s[j].1
  }

  /** The entries of `s` whose count is `v`, in their order in `s`. */
  function WithCount(s: seq<Entry>, v: nat): (r: seq<Entry>)
    ensures |r| <= |s|
    ensures forall e :: e in r ==> e in s && e.1 == v
  {
    if s == [] then []
    else if s[0].1 == v then [s[0]] + WithCount(s[1..], v)
    else WithCount(s[1..], v)
  }

  /** Places `x` in front of the first entry whose count does not exceed its own. */
  function Insert(x: Entry, s: seq<Entry>): (r: seq<Entry>)
    ensures |r| == |s| + 1
    ensures multiset(r) == multiset(s) + multiset{x}
  {
    if s == [] || s[0].1 <= x.1 then [x] + s
    else
      assert s == [s[0]] + s[1..];
      [s[0]] + Insert(x, s[1..])
  }

  /** `sorted(items, key=count, reverse=True)`: a stable sort, largest count first. */
  function SortByCount(s: seq<Entry>): (r: seq<Entry>)
    ensures |r| == |s|
    ensures SortedByCount(r)
    ensures multiset(r) == multiset(s)
  {
    if s == [] then []
    else
      assert s == [s[0]] + s[1..];
      InsertSorted(s[0], SortByCount(s[1..]));
      Insert(s[0], SortByCount(s[1..]))
  }

  lemma {:induction false} InsertSorted(x: Entry, s: seq<Entry>)
    requires SortedByCount(s)
    ensures SortedByCount(Insert(x, s))
  {
    if s == [] || s[0].1 <= x.1 {
      PrependSorted(x, s);
    } else {
      InsertSorted(x, s[1..]);
      var r := Insert(x, s[1..]);
      forall e | e in r ensures e.1 <= s[0].1 {
        assert e in multiset(r);
        if e != x {
          assert e in multiset(s[1..]);
        }
      }
      PrependSorted(s[0], r);
    }
  }

  /** An entry whose count bounds a sorted sequence can go in front of it. */
  lemma PrependSorted(x: Entry, s: seq<Entry>)
    requires SortedByCount(s)
    requires forall e :: e in s ==> e.1 <= x.1
    ensures SortedByCount([x] + s)
  {
    var r := [x] + s;
    forall i, j | 0 <= i < j < |r| ensures r[i].1 >= r[j].1 {
      assert r[j] == s[j - 1];
      if i > 0 {
        assert r[i] == s[i - 1];
      }
    }
  }

  /** `Counter.most_common(n)`: the first `n` entries of the stable sort; none when `n <= 0`. */
  function MostCommon(items: seq<Entry>, n: int): (r: seq<Entry>)
    ensures |r| == if n <= 0 then 0 else if n < |items| then n else |items|
  {
    var sorted := SortByCount(items);
    assert |sorted| == |multiset(sorted)| == |items|;
    var k := if n <= 0 then 0 else if n < |items| then n else |items|;
    sorted[..k]
  }

  /** `n or self.config.top_n`: an absent or zero request falls back to the configured `top_n`. */
  function RequestedCount(n: Option<int>, topN: int): (k: int)
    ensures n.Some? && n.value != 0 ==> k == n.value
    ensures n == None || n == Some(0) ==> k == topN
  {
    match n
    case None => topN
    case Some(v) => if v == 0 then topN else v
  }

  /** `get_top_characters(n)` on a counter. */
  function TopCharacters(counter: Counts, n: Option<int>, topN: int): (r: seq<Entry>)
    requires counter.Valid()
    ensures forall i :: 0 <= i < |r| ==> r[i].0 in counter.freq && counter.freq[r[i].0] == r[i].1
    ensures var k := RequestedCount(n, topN);
            |r| == if k <= 0 then 0 else if k < |counter.keys| then k else |counter.keys|
  {
    var items := counter.Items();
    var r := MostCommon(items, RequestedCount(n, topN));
    MostCommonFromItems(items, RequestedCount(n, topN));
    forall i | 0 <= i < |r| ensures r[i].0 in counter.freq && counter.freq[r[i].0] == r[i].1 {
      assert r[i] in r;
      assert r[i] in items;
      var j :| 0 <= j < |items| && items[j] == r[i];
    }
    r
  }

  lemma MostCommonFromItems(items: seq<Entry>, n: int)
    ensures forall e :: e in MostCommon(items, n) ==> e in items
  {
    var sorted := SortByCount(items);
    forall e | e in MostCommon(items, n) ensures e in items {
      assert e in sorted;
      assert e in multiset(sorted);
    }
  }

  lemma {:induction false} WithCountConcat(a: seq<Entry>, b: seq<Entry>, v: nat)
    ensures WithCount(a + b, v) == WithCount(a, v) + WithCount(b, v)
  {
    if a == [] {
      assert a + b == b;
    } else {
      assert (a + b)[1..] == a[1..] + b;
      WithCountConcat(a[1..], b, v);
    }
  }

  /** Insertion never moves `x` past an entry with its own count. */
  lemma {:induction false} InsertWithCount(x: Entry, s: seq<Entry>, v: nat)
    ensures WithCount(Insert(x, s), v) == WithCount([x] + s, v)
  {
    if s != [] && s[0].1 > x.1 {
      InsertWithCount(x, s[1..], v);
      assert ([x] + s)[1..] == s;
      assert ([x] + s[1..])[1..] == s[1..];
      assert s == [s[0]] + s[1..];
    }
  }

  /** Stability: among entries of equal count the sort keeps the original order. */
  lemma {:induction false} SortByCountStable(s: seq<Entry>, v: nat)
    ensures WithCount(SortByCount(s), v) == WithCount(s, v)
  {
    if s != [] {
      SortByCountStable(s[1..], v);
      InsertWithCount(s[0], SortByCount(s[1..]), v);
      WithCountConcat([s[0]], SortByCount(s[1..]), v);
      WithCountConcat([s[0]], s[1..], v);
      assert s == [s[0]] + s[1..];
    }
  }

  /**
   * An order that is sorted by count and keeps the original order within each
   * count is unique: `SortByCount` is the only stable sort.
   */
  lemma {:induction false} SortedStableIsUnique(a: seq<Entry>, b: seq<Entry>)
    requires SortedByCount(a) && SortedByCount(b)
    requires forall v :: WithCount(a, v) == WithCount(b, v)
    ensures a == b
    decreases |a|
  {
    if a == [] {
      if b != [] {
        NonEmptyHasOwnCount(b);
      }
    } else if b == [] {
      NonEmptyHasOwnCount(a);
    } else {
      SameHead(a, b);
      forall v ensures WithCount(a[1..], v) == WithCount(b[1..], v) {
        WithCountTail(a, v);
        WithCountTail(b, v);
      }
      SortedStableIsUnique(a[1..], b[1..]);
      assert a == [a[0]] + a[1..] && b == [b[0]] + b[1..];
    }
  }

  /** Two stable descending orders of the same entries start with the same entry. */
  lemma SameHead(a: seq<Entry>, b: seq<Entry>)
    requires a != [] && b != []
    requires SortedByCount(a) && SortedByCount(b)
    requires forall v :: WithCount(a, v) == WithCount(b, v)
    ensures a[0] == b[0]
  {
    var m := a[0].1;
    assert WithCount(b, m)[0] in WithCount(b, m);
    assert WithCount(a, b[0].1)[0] in WithCount(a, b[0].1);
    assert b[0].1 == m;
    assert WithCount(a, m) == [a[0]] + WithCount(a[1..], m);
    assert WithCount(b, m) == [b[0]] + WithCount(b[1..], m);
  }

  /** Dropping the head removes it from its own count's entries only. */
  lemma WithCountTail(a: seq<Entry>, v: nat)
    requires a != []
    ensures WithCount(a[1..], v) == if v == a[0].1 then WithCount(a, v)[1..] else WithCount(a, v)
  {
  }

  lemma NonEmptyHasOwnCount(s: seq<Entry>)
    requires s != []
    ensures WithCount(s, s[0].1) != []
  {
  }

  /** Any stable descending sort of the counter's entries is `SortByCount`'s. */
  lemma StableSortIsSortByCount(items: seq<Entry>, r: seq<Entry>)
    requires SortedByCount(r)
    requires forall v :: WithCount(r, v) == WithCount(items, v)
    ensures r == SortByCount(items)
  {
    forall v ensures WithCount(r, v) == WithCount(SortByCount(items), v) {
      SortByCountStable(items, v);
    }
    SortedStableIsUnique(r, SortByCount(items));
  }

  /** `most_common(n)` lists entries by count, largest first. */
  lemma MostCommonSorted(items: seq<Entry>, n: int)
    ensures SortedByCount(MostCommon(items, n))
  {
    var sorted := SortByCount(items);
    var r := MostCommon(items, n);
    forall i, j | 0 <= i < j < |r| ensures r[i].1 >= r[j].1 {
      assert r[i] == sorted[i] && r[j] == sorted[j];
    }
  }

  /** `most_common(n)` returns entries of the counter, each at most as often as it is there. */
  lemma MostCommonSubMultiset(items: seq<Entry>, n: int)
    ensures multiset(MostCommon(items, n)) <= multiset(items)
  {
    var sorted := SortByCount(items);
    var r := MostCommon(items, n);
    assert sorted == r + sorted[|r|..];
  }

  /** `most_common(n)` takes the largest counts: no entry left out outranks one taken. */
  lemma MostCommonIsTop(items: seq<Entry>, n: int)
    ensures var r := MostCommon(items, n);
            forall e, p :: e in items && e !in r && p in r ==> e.1 <= p.1
  {
    var sorted := SortByCount(items);
    var r := MostCommon(items, n);
    var k := |r|;
    forall e, p | e in items && e !in r && p in r ensures e.1 <= p.1 {
      assert e in multiset(items);
      assert e in sorted;
      var j :| 0 <= j < |sorted| && sorted[j] == e;
      var i :| 0 <= i < k && r[i] == p;
    }
  }

  /** When anything is asked for, `most_common(n)` opens with a largest count. */
  lemma MostCommonHeadIsMax(items: seq<Entry>, n: int)
    requires n > 0 && items != []
    ensures var r := MostCommon(items, n);
            r != [] && forall e :: e in items ==> e.1 <= r[0].1
  {
    var sorted := SortByCount(items);
    forall e | e in items ensures e.1 <= sorted[0].1 {
      assert e in multiset(sorted);
      var j :| 0 <= j < |sorted| && sorted[j] == e;
    }
  }

  /**
   * `most_common(n)` breaks ties by insertion order: for each count it holds
   * the earliest entries with that count.
   */
  lemma MostCommonTiesInOrder(items: seq<Entry>, n: int, v: nat)
    ensures WithCount(MostCommon(items, n), v) <= WithCount(items, v)
  {
    var sorted := SortByCount(items);
    var r := MostCommon(items, n);
    assert sorted == r + sorted[|r|..];
    WithCountConcat(r, sorted[|r|..], v);
    SortByCountStable(items, v);
  }
}
